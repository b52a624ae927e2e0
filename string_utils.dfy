/** Title validation used before every project lookup. */
module StringUtils {
  import opened Wrappers
  import opened Text

  const EmptyTitle := "Title can't be an empty string"

  /** A title is accepted once its surrounding whitespace is stripped, unless
      nothing is left. */
  function ValidateAndPreprocessTitle(title: string): (r: Result<string>)
    ensures r.Ok? <==> !AllSpace(title)
    ensures r.Ok? ==> r.value == Strip(title)
    ensures r.Ok? ==> r.value != [] && !IsSpace(r.value[0]) && !IsSpace(r.value[|r.value| - 1])
    ensures r.Err? ==> r.error == Raised(EmptyTitle)
  {
    var t := Strip(title);
    if |t| == 0 then Err(Raised(EmptyTitle)) else Ok(t)
  }

  /** Validating an already validated title returns it unchanged. */
  lemma ValidateIdempotent(title: string)
    requires ValidateAndPreprocessTitle(title).Ok?
    ensures ValidateAndPreprocessTitle(ValidateAndPreprocessTitle(title).value) == ValidateAndPreprocessTitle(title)
  {
    StripIdempotent(title);
  }
}
