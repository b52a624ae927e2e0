/** Splitting a script on speaker tags. A tag is `{`, one or more word or
    whitespace characters, and `}` (the regular expression `{[\w\s]+}`); the
    text is cut into (speaker, segment) pairs, one per tag, where the segment
    runs from the end of the tag to the start of the next tag, or to the end
    of the text. */
module SpeakerTags {
  import opened Wrappers
  import opened Text

  /** `\w` on the ASCII range: letters, digits and underscore. */
  predicate IsWordChar(c: char)
  {
    'a' <= c <= 'z' || 'A' <= c <= 'Z' || '0' <= c <= '9' || c == '_'
  }

  /** `[\w\s]`: neither brace belongs to the class. */
  predicate IsTagChar(c: char)
  {
    IsWordChar(c) || IsSpace(c)
  }

  /** The end of the run of tag characters starting at `q`. */
  function RunEnd(s: string, q: nat): (e: nat)
    requires q <= |s|
    ensures q <= e <= |s|
    ensures forall k :: q <= k < e ==> IsTagChar(s[k])
    ensures e < |s| ==> !IsTagChar(s[e])
    decreases |s| - q
  {
    if q < |s| && IsTagChar(s[q]) then RunEnd(s, q + 1) else q
  }

  /** Whether a tag starts at `p`, and where it ends. The greedy run of tag
      characters cannot give anything back: a `}` is never one of them. */
  function TagAt(s: string, p: nat): (r: Option<nat>)
    ensures r.Some? ==> p + 3 <= r.value <= |s| && s[p] == '{' && s[r.value - 1] == '}'
    ensures r.Some? ==> forall k :: p < k < r.value - 1 ==> IsTagChar(s[k])
  {
    if p < |s| && s[p] == '{' then
      var q := RunEnd(s, p + 1);
      if q > p + 1 && q < |s| && s[q] == '}' then Some(q + 1) else None
    else None
  }

  /** The leftmost tag starting at or after `from`: its start and end. */
  function NextTag(s: string, from: nat): (r: Option<(nat, nat)>)
    ensures r.Some? ==> from <= r.value.0 && TagAt(s, r.value.0) == Some(r.value.1)
    decreases |s| - from
  {
    if from >= |s| then None
    else if TagAt(s, from).Some? then Some((from, TagAt(s, from).value))
    else NextTag(s, from + 1)
  }

  /** The search finds the leftmost tag: no tag starts between `from` and the
      one found, and none at all when the search fails. */
  lemma {:induction false} NextTagLeftmost(s: string, from: nat, p: nat)
    requires from <= p
    requires NextTag(s, from).Some? ==> p < NextTag(s, from).value.0
    ensures TagAt(s, p).None?
    decreases |s| - from
  {
    if from < |s| && from < p && TagAt(s, from).None? {
      NextTagLeftmost(s, from + 1, p);
    }
  }

  /** `finditer`: the spans of the successive non-overlapping tags from `from` on. */
  function Tags(s: string, from: nat): (t: seq<(nat, nat)>)
    ensures forall i :: 0 <= i < |t| ==> from <= t[i].0 && t[i].0 + 3 <= t[i].1 <= |s|
    decreases |s| - from
  {
    match NextTag(s, from)
    case None => []
    case Some((b, e)) => [(b, e)] + Tags(s, e)
  }

  /** The tags do not overlap: each one ends before the next one starts. */
  lemma {:induction false} TagsApart(s: string, from: nat, i: nat)
    requires i + 1 < |Tags(s, from)|
    ensures Tags(s, from)[i].1 <= Tags(s, from)[i + 1].0
    decreases i
  {
    var (b, e) := NextTag(s, from).value;
    var rest := Tags(s, e);
    assert Tags(s, from) == [(b, e)] + rest;
    if i > 0 {
      TagsApart(s, e, i - 1);
    }
  }

  /** Each span found is a tag. */
  lemma {:induction false} TagsAreTags(s: string, from: nat, i: nat)
    requires i < |Tags(s, from)|
    ensures TagAt(s, Tags(s, from)[i].0) == Some(Tags(s, from)[i].1)
    decreases i
  {
    var (b, e) := NextTag(s, from).value;
    if i > 0 {
      TagsAreTags(s, e, i - 1);
    }
  }

  /** `str.replace(c, '')`. */
  function RemoveAll(s: string, c: char): (r: string)
    ensures |r| <= |s|
  {
    if s == [] then [] else (if s[0] == c then [] else [s[0]]) + RemoveAll(s[1..], c)
  }

  /** Every `c` is gone after the replacement. */
  lemma {:induction false} RemoveAllRemoves(s: string, c: char)
    ensures c !in RemoveAll(s, c)
  {
    if s != [] {
      RemoveAllRemoves(s[1..], c);
    }
  }

  /** A text without `c` is left as it is. */
  lemma {:induction false} RemoveAllAbsent(s: string, c: char)
    requires c !in s
    ensures RemoveAll(s, c) == s
  {
    if s != [] {
      assert s[1..] == s[|s| - |s[1..]|..];
      RemoveAllAbsent(s[1..], c);
      assert s == [s[0]] + s[1..];
    }
  }

  /** The speaker named by a tag's text: the braces removed. */
  function Speaker(tag: string): string
  {
    RemoveAll(RemoveAll(tag, '{'), '}')
  }

  /** The end of segment `i`: the start of the next tag, or the end of the text. */
  function SegmentEnd(t: seq<(nat, nat)>, i: nat, n: nat): nat
    requires i < |t|
  {
    if i + 1 < |t| then t[i + 1].0 else n
  }

  /** The speaker of tag `i`. */
  function SpeakerOf(text: string, t: seq<(nat, nat)>, i: nat): string
    requires i < |t| && t[i].0 <= t[i].1 <= |text|
  {
    Speaker(text[t[i].0..t[i].1])
  }

  /** Segment `i`: from the end of tag `i` to the start of the next tag, or to
      the end of the text. */
  function SegmentOf(text: string, t: seq<(nat, nat)>, i: nat): string
    requires i < |t| && t[i].1 <= SegmentEnd(t, i, |text|) <= |text|
  {
    text[t[i].1..SegmentEnd(t, i, |text|)]
  }

  /** The speakers of the first `k` tags of the text. */
  function Speakers(text: string, k: nat): (r: seq<string>)
    requires k <= |Tags(text, 0)|
    ensures |r| == k
  {
    var t := Tags(text, 0);
    seq(k, i requires 0 <= i < k => SpeakerOf(text, t, i))
  }

  /** The segments after the first `k` tags of the text. */
  function Segments(text: string, k: nat): (r: seq<string>)
    requires k <= |Tags(text, 0)|
    ensures |r| == k
  {
    var t := Tags(text, 0);
    seq(k, i requires 0 <= i < k => SegmentBounds(text, i); SegmentOf(text, t, i))
  }

  /** What `split_on_speaker_change` returns, described tag by tag: the
      `StopIteration` of `next` when there is no tag, otherwise one pair per
      tag, of the tag's speaker and the text up to the next tag. */
  function SpeakerSegments(text: string): (r: Result<seq<(string, string)>>)
    ensures r.Err? <==> Tags(text, 0) == []
    ensures r.Err? ==> r.error == StopIteration
    ensures r.Ok? ==> |r.value| == |Tags(text, 0)|
  {
    var t := Tags(text, 0);
    if t == [] then Err(StopIteration)
    else Ok(seq(|t|, i requires 0 <= i < |t| => SegmentBounds(text, i); (SpeakerOf(text, t, i), SegmentOf(text, t, i))))
  }

  /** `split_on_speaker_change`: the first tag is taken with `next`, the rest
      in a loop that closes the previous segment at each new tag. */
  method SplitOnSpeakerChange(rawText: string) returns (r: Result<seq<(string, string)>>)
    ensures r == SpeakerSegments(rawText)
  {
    ghost var t := Tags(rawText, 0);
    var first := NextTag(rawText, 0);
    if first.None? {
      return Err(StopIteration);
    }
    var (s, e) := first.value;
    var pos := e;
    var spks := [Speaker(rawText[s..e])];
    var segs: seq<string> := [];
    var next := NextTag(rawText, pos);
    TagsAfter(rawText, 0, 1);
    while next.Some?
      invariant 1 <= |spks| <= |t| && |segs| == |spks| - 1
      invariant pos == t[|spks| - 1].1
      invariant next == if |spks| < |t| then Some(t[|spks|]) else None
      invariant spks == Speakers(rawText, |spks|)
      invariant segs == Segments(rawText, |segs|)
      decreases |t| - |spks|
    {
      var (s, e) := next.value;
      TagsApart(rawText, 0, |segs|);
      PairsStep(rawText, spks, segs);
      segs := segs + [rawText[pos..s]];
      spks := spks + [Speaker(rawText[s..e])];
      pos := e;
      next := NextTag(rawText, pos);
      TagsAfter(rawText, 0, |spks|);
    }
    LastSegment(rawText, segs);
    segs := segs + [rawText[pos..|rawText|]];
    PairsAreSegments(rawText, spks, segs);
    r := Ok(Zip(spks, segs));
  }

  /** After the `k`-th tag found from `from`, the search finds the next one, or
      nothing once all are found. */
  lemma {:induction false} TagsAfter(s: string, from: nat, k: nat)
    requires 1 <= k <= |Tags(s, from)|
    ensures var t := Tags(s, from);
      NextTag(s, t[k - 1].1) == if k < |t| then Some(t[k]) else None
    decreases k
  {
    var t := Tags(s, from);
    var (b, e) := NextTag(s, from).value;
    var rest := Tags(s, e);
    assert t == [(b, e)] + rest;
    if k > 1 {
      TagsAfter(s, e, k - 1);
      assert t[k - 1] == rest[k - 2];
    }
  }

  /** `zip(a, b)` on lists of equal length. */
  function Zip<A, B>(a: seq<A>, b: seq<B>): (r: seq<(A, B)>)
    requires |a| == |b|
    ensures |r| == |a| && forall i :: 0 <= i < |a| ==> r[i] == (a[i], b[i])
  {
    if a == [] then [] else [(a[0], b[0])] + Zip(a[1..], b[1..])
  }

  lemma TagsStep(s: string, from: nat)
    requires NextTag(s, from).Some?
    ensures Tags(s, from) == [NextTag(s, from).value] + Tags(s, NextTag(s, from).value.1)
  {
  }

  /** The pairs the loop zipped together are the segments of the text. */
  lemma PairsAreSegments(text: string, spks: seq<string>, segs: seq<string>)
    requires |spks| == |segs| == |Tags(text, 0)| >= 1
    requires spks == Speakers(text, |spks|) && segs == Segments(text, |segs|)
    ensures Ok(Zip(spks, segs)) == SpeakerSegments(text)
  {
    var t := Tags(text, 0);
    var pairs := Zip(spks, segs);
    var want := SpeakerSegments(text).value;
    forall i | 0 <= i < |t| ensures pairs[i] == want[i] {
    }
    assert pairs == want;
  }

  /** One round of the loop: the next tag's speaker, and the segment that
      tag closes. */
  lemma PairsStep(text: string, spks: seq<string>, segs: seq<string>)
    requires 1 <= |spks| < |Tags(text, 0)| && |segs| == |spks| - 1
    requires Tags(text, 0)[|segs|].1 <= Tags(text, 0)[|spks|].0
    requires spks == Speakers(text, |spks|) && segs == Segments(text, |segs|)
    ensures var t := Tags(text, 0);
      && spks + [Speaker(text[t[|spks|].0..t[|spks|].1])] == Speakers(text, |spks| + 1)
      && segs + [text[t[|segs|].1..t[|spks|].0]] == Segments(text, |segs| + 1)
  {
    SpeakerStep(text, spks);
    SegmentStep(text, segs);
  }

  lemma SpeakerStep(text: string, spks: seq<string>)
    requires |spks| < |Tags(text, 0)| && spks == Speakers(text, |spks|)
    ensures var t := Tags(text, 0);
      spks + [Speaker(text[t[|spks|].0..t[|spks|].1])] == Speakers(text, |spks| + 1)
  {
  }

  lemma SegmentStep(text: string, segs: seq<string>)
    requires |segs| + 1 < |Tags(text, 0)| && segs == Segments(text, |segs|)
    requires Tags(text, 0)[|segs|].1 <= Tags(text, 0)[|segs| + 1].0
    ensures var t := Tags(text, 0);
      segs + [text[t[|segs|].1..t[|segs| + 1].0]] == Segments(text, |segs| + 1)
  {
    SegmentBounds(text, |segs|);
  }

  /** After the loop: the last tag's segment runs to the end of the text. */
  lemma LastSegment(text: string, segs: seq<string>)
    requires |segs| + 1 == |Tags(text, 0)| && segs == Segments(text, |segs|)
    ensures segs + [text[Tags(text, 0)[|segs|].1..|text|]] == Segments(text, |segs| + 1)
  {
    SegmentBounds(text, |segs|);
  }

  /** Segment `i` lies between the end of tag `i` and the end of the text. */
  lemma SegmentBounds(text: string, i: nat)
    requires i < |Tags(text, 0)|
    ensures Tags(text, 0)[i].1 <= SegmentEnd(Tags(text, 0), i, |text|) <= |text|
  {
    var t := Tags(text, 0);
    if i + 1 < |t| {
      TagsApart(text, 0, i);
    }
  }

  // ---------------------------------------------------------------------------
  // What the pairs say about the text.

  lemma {:induction false} RemoveAllConcat(a: string, b: string, c: char)
    ensures RemoveAll(a + b, c) == RemoveAll(a, c) + RemoveAll(b, c)
  {
    if a == [] {
      assert a + b == b;
    } else {
      var x := a + b;
      assert x[0] == a[0] && x[1..] == a[1..] + b;
      var h := if a[0] == c then [] else [a[0]];
      var ra, rb := RemoveAll(a[1..], c), RemoveAll(b, c);
      RemoveAllConcat(a[1..], b, c);
      RemoveAllHead(x, c);
      RemoveAllHead(a, c);
      assert h + (ra + rb) == (h + ra) + rb;
    }
  }

  lemma RemoveAllHead(s: string, c: char)
    requires s != []
    ensures RemoveAll(s, c) == (if s[0] == c then [] else [s[0]]) + RemoveAll(s[1..], c)
  {
  }

  /** The speaker of a tag is the text between its braces: one or more word
      or whitespace characters. */
  lemma TagSpeaker(s: string, b: nat, e: nat)
    requires TagAt(s, b) == Some(e)
    ensures Speaker(s[b..e]) == s[b + 1..e - 1]
    ensures |Speaker(s[b..e])| >= 1
    ensures forall k :: 0 <= k < |Speaker(s[b..e])| ==> IsTagChar(Speaker(s[b..e])[k])
  {
    InnerBraceless(s, b, e);
    assert s[b..e] == "{" + s[b + 1..e - 1] + "}";
    SpeakerOfBraced(s[b + 1..e - 1]);
  }

  /** Removing the braces from `{inner}` gives `inner` when `inner` has none. */
  lemma SpeakerOfBraced(inner: string)
    requires '{' !in inner && '}' !in inner
    ensures Speaker("{" + inner + "}") == inner
  {
    var tag := "{" + inner + "}";
    assert tag[0] == '{' && tag[1..] == inner + "}";
    assert RemoveAll(tag, '{') == RemoveAll(tag[1..], '{');
    assert '{' !in inner + "}";
    RemoveAllAbsent(inner + "}", '{');
    RemoveAllConcat(inner, "}", '}');
    RemoveAllAbsent(inner, '}');
    assert RemoveAll("}", '}') == [];
    assert inner + [] == inner;
  }

  lemma InnerBraceless(s: string, b: nat, e: nat)
    requires TagAt(s, b) == Some(e)
    ensures '{' !in s[b + 1..e - 1] && '}' !in s[b + 1..e - 1]
  {
    var inner := s[b + 1..e - 1];
    forall k | 0 <= k < |inner| ensures inner[k] != '{' && inner[k] != '}' {
      assert inner[k] == s[b + 1 + k] && IsTagChar(s[b + 1 + k]);
    }
  }

  /** A tag is given back in full by its speaker between braces. */
  lemma TagText(s: string, b: nat, e: nat)
    requires TagAt(s, b) == Some(e)
    ensures "{" + Speaker(s[b..e]) + "}" == s[b..e]
  {
    TagSpeaker(s, b, e);
    assert s[b..e] == [s[b]] + s[b + 1..e - 1] + [s[e - 1]];
  }

  /** The pairs written back as text: each speaker in braces, then its segment. */
  function Rejoin(pairs: seq<(string, string)>): string
  {
    if pairs == [] then [] else "{" + pairs[0].0 + "}" + pairs[0].1 + Rejoin(pairs[1..])
  }

  lemma {:induction false} RejoinFrom(text: string, i: nat)
    requires SpeakerSegments(text).Ok? && i < |Tags(text, 0)|
    ensures Rejoin(SpeakerSegments(text).value[i..]) == text[Tags(text, 0)[i].0..]
    decreases |Tags(text, 0)| - i
  {
    var t, pairs := Tags(text, 0), SpeakerSegments(text).value;
    var b, e := t[i].0, t[i].1;
    SegmentBounds(text, i);
    var end := SegmentEnd(t, i, |text|);
    var tail := pairs[i..];
    assert tail[0] == pairs[i] == (SpeakerOf(text, t, i), SegmentOf(text, t, i));
    assert tail[1..] == pairs[i + 1..];
    TagsAreTags(text, 0, i);
    TagText(text, b, e);
    var rest := Rejoin(pairs[i + 1..]);
    assert Rejoin(tail) == text[b..e] + text[e..end] + rest;
    if i + 1 < |t| {
      RejoinFrom(text, i + 1);
      assert rest == text[end..];
    } else {
      assert rest == [];
      assert end == |text|;
    }
    assert b <= e <= end <= |text|;
    SliceSplit(text, b, e, end);
  }

  lemma SliceSplit(s: string, a: nat, b: nat, c: nat)
    requires a <= b <= c <= |s|
    ensures s[a..] == s[a..b] + s[b..c] + s[c..]
  {
  }

  /** Nothing before the first tag survives: writing the pairs back gives the
      text from the first tag on. */
  lemma RejoinFromFirstTag(text: string)
    requires SpeakerSegments(text).Ok?
    ensures Rejoin(SpeakerSegments(text).value) == text[Tags(text, 0)[0].0..]
  {
    RejoinFrom(text, 0);
    assert SpeakerSegments(text).value[0..] == SpeakerSegments(text).value;
  }

  lemma {:induction false} RunEndAt(s: string, q: nat, e: nat)
    requires q <= e <= |s|
    requires forall k :: q <= k < e ==> IsTagChar(s[k])
    requires e < |s| ==> !IsTagChar(s[e])
    ensures RunEnd(s, q) == e
    decreases e - q
  {
    if q < e {
      RunEndAt(s, q + 1, e);
    }
  }

  lemma {:induction false} NoBraceNoTag(s: string, from: nat)
    requires forall p :: from <= p < |s| ==> s[p] != '{'
    ensures NextTag(s, from).None?
    decreases |s| - from
  {
    if from < |s| {
      NoBraceNoTag(s, from + 1);
    }
  }

  lemma {:induction false} NextTagAfterBraceless(s: string, from: nat, b: nat)
    requires from <= b && TagAt(s, b).Some?
    requires forall p :: from <= p < b ==> s[p] != '{'
    ensures NextTag(s, from) == Some((b, TagAt(s, b).value))
    decreases b - from
  {
    if from < b {
      NextTagAfterBraceless(s, from + 1, b);
    }
  }

  /** The only tag of a text with a single brace-delimited name. */
  lemma SingleTagSpan(pre: string, name: string, body: string)
    requires '{' !in pre && '{' !in body
    requires |name| >= 1 && forall k :: 0 <= k < |name| ==> IsTagChar(name[k])
    ensures var text := pre + "{" + name + "}" + body;
      TagAt(text, |pre|) == Some(|pre| + |name| + 2) && Tags(text, 0) == [(|pre|, |pre| + |name| + 2)]
  {
    var text := pre + "{" + name + "}" + body;
    var b, e := |pre|, |pre| + |name| + 2;
    assert text[b] == '{' && text[e - 1] == '}';
    forall k | b + 1 <= k < e - 1 ensures IsTagChar(text[k]) {
      assert text[k] == name[k - b - 1];
    }
    RunEndAt(text, b + 1, e - 1);
    forall p | 0 <= p < b ensures text[p] != '{' {
      assert text[p] == pre[p];
    }
    NextTagAfterBraceless(text, 0, b);
    forall p | e <= p < |text| ensures text[p] != '{' {
      assert text[p] == body[p - e];
    }
    NoBraceNoTag(text, e);
  }

  /** A text with one tag and no other brace gives exactly one pair: the tag's
      name and everything after the tag. */
  lemma SingleTag(pre: string, name: string, body: string)
    requires '{' !in pre && '{' !in body
    requires |name| >= 1 && forall k :: 0 <= k < |name| ==> IsTagChar(name[k])
    ensures SpeakerSegments(pre + "{" + name + "}" + body) == Ok([(name, body)])
  {
    var text := pre + "{" + name + "}" + body;
    var b, e := |pre|, |pre| + |name| + 2;
    SingleTagSpan(pre, name, body);
    var t := Tags(text, 0);
    assert t == [(b, e)];
    assert SegmentEnd(t, 0, |text|) == |text|;
    assert text[b + 1..e - 1] == name;
    TagSpeaker(text, b, e);
    assert SpeakerOf(text, t, 0) == name;
    assert SegmentOf(text, t, 0) == text[e..] == body;
    var pairs := SpeakerSegments(text).value;
    assert |pairs| == 1 && pairs[0] == (name, body);
    assert pairs == [(name, body)];
  }

  /** The case of a single tagged paragraph: the one segment, stripped, is the
      paragraph, whatever whitespace surrounds it. */
  lemma SingleTaggedParagraph(pre: string, name: string, before: string, paragraph: string, after: string)
    requires '{' !in pre && '{' !in before + paragraph + after
    requires |name| >= 1 && forall k :: 0 <= k < |name| ==> IsTagChar(name[k])
    requires AllSpace(before) && AllSpace(after)
    requires paragraph != [] ==> !IsSpace(paragraph[0]) && !IsSpace(paragraph[|paragraph| - 1])
    ensures var r := SpeakerSegments(pre + "{" + name + "}" + before + paragraph + after);
      r.Ok? && |r.value| == 1 && r.value[0].0 == name && Strip(r.value[0].1) == paragraph
  {
    var body := before + paragraph + after;
    assert pre + "{" + name + "}" + before + paragraph + after == pre + "{" + name + "}" + body;
    SingleTag(pre, name, body);
    StripSurrounded(before, paragraph, after);
  }
}
