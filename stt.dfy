/** The verification ledger: every synthesised utterance keeps an append-only
    log of speech-to-text records, each holding what the recogniser heard and
    how close that came to the text the utterance was synthesised from. The
    recogniser and the string-similarity scorer are opaque and come in as
    function parameters; the clock comes in as `now`. */
module Stt {
  import opened Wrappers
  import PyList

  /** What the ledger sees of an utterance: its row id, the text it was
      synthesised from, and the samples currently in its audio file. */
  datatype Utterance = Utterance(id: int, text: string, audio: seq<real>)

  /** One row of the STT table. */
  datatype SttRecord = SttRecord(origUtteranceId: int, text: string, score: real, date: int)

  /** The sort key of `get_or_compute_score`: the record's date. */
  function DateKey(x: SttRecord): real
  {
    x.date as real
  }

  /** The record `compute_and_store_score` writes for `u` at time `now`. */
  function Scored(u: Utterance, transcribe: seq<real> -> string,
                  similarity: (string, string) -> real, now: int): (x: SttRecord)
    ensures x.origUtteranceId == u.id && x.date == now
    ensures x.text == transcribe(u.audio) && x.score == similarity(u.text, x.text)
  {
    var heard := transcribe(u.audio);
    SttRecord(u.id, heard, similarity(u.text, heard), now)
  }

  /** `utterance.utterance_stt`: the records of one utterance, in table order. */
  function RecordsFor(rs: seq<SttRecord>, id: int): (r: seq<SttRecord>)
    ensures forall k :: 0 <= k < |r| ==> r[k].origUtteranceId == id
  {
    if rs == [] then []
    else
      var last := rs[|rs| - 1];
      assert rs == rs[..|rs| - 1] + [last];
      RecordsFor(rs[..|rs| - 1], id) + (if last.origUtteranceId == id then [last] else [])
  }

  /** The records of `id` are exactly the records of the log that carry `id`. */
  lemma {:induction false} RecordsForMembers(rs: seq<SttRecord>, id: int, x: SttRecord)
    ensures x in RecordsFor(rs, id) <==> x in rs && x.origUtteranceId == id
  {
    if rs != [] {
      RecordsForMembers(rs[..|rs| - 1], id, x);
      assert rs == rs[..|rs| - 1] + [rs[|rs| - 1]];
    }
  }

  lemma RecordsForAppend(rs: seq<SttRecord>, x: SttRecord, id: int)
    ensures RecordsFor(rs + [x], id) == RecordsFor(rs, id) + (if x.origUtteranceId == id then [x] else [])
  {
    assert (rs + [x])[..|rs|] == rs;
  }

  /** The newest record: the latest date, and among records sharing it the
      one that comes last in the log. */
  function Newest(rs: seq<SttRecord>): (x: SttRecord)
    requires rs != []
  {
    rs[PyList.LastMaxIndex(rs, DateKey)]
  }

  /** The newest record is in the log, and no record is dated later. */
  lemma NewestIsLatest(rs: seq<SttRecord>)
    requires rs != []
    ensures Newest(rs) in rs
    ensures forall y :: y in rs ==> y.date <= Newest(rs).date
  {
    var k := PyList.LastMaxIndex(rs, DateKey);
    forall y | y in rs ensures y.date <= Newest(rs).date {
      var j :| 0 <= j < |rs| && rs[j] == y;
      assert DateKey(rs[j]) <= DateKey(rs[k]);
    }
  }

  /** `sorted(records, key=date)[-1]` is the newest record: the stable sort
      leaves the last of the records tied on the latest date at the end. */
  lemma SortedLastIsNewest(rs: seq<SttRecord>)
    requires rs != []
    ensures PyList.SortBy(rs, DateKey)[|rs| - 1] == Newest(rs)
    ensures exists k :: && 0 <= k < |rs| && rs[k] == Newest(rs)
                        && forall j :: k < j < |rs| ==> rs[j].date < rs[k].date
  {
    PyList.SortByLast(rs, DateKey);
    var k := PyList.LastMaxIndex(rs, DateKey);
    assert forall j :: k < j < |rs| ==> DateKey(rs[j]) < DateKey(rs[k]);
  }

  /** A record dated no earlier than every record already in the log becomes
      the newest one once appended. */
  lemma AppendedIsNewest(rs: seq<SttRecord>, x: SttRecord)
    requires forall y :: y in rs ==> y.date <= x.date
    ensures Newest(rs + [x]) == x
  {
    var s := rs + [x];
    var k := PyList.LastMaxIndex(s, DateKey);
    assert forall j :: 0 <= j < |rs| ==> s[j] in rs && DateKey(s[j]) <= DateKey(s[|rs|]);
    assert k == |rs|;
  }

  /** Python's `sum(xs)`, adding from the left. */
  function Sum(xs: seq<real>): real
  {
    if xs == [] then 0.0 else Sum(xs[..|xs| - 1]) + xs[|xs| - 1]
  }

  /** `sum(xs) / len(xs)`, which raises `ZeroDivisionError` on an empty list. */
  function Mean(xs: seq<real>): (r: Result<real>)
    ensures r.Err? <==> xs == []
    ensures r.Err? ==> r.error == ZeroDivisionError
  {
    if xs == [] then Err(ZeroDivisionError) else Ok(Sum(xs) / |xs| as real)
  }

  lemma {:induction false} SumBounds(xs: seq<real>, lo: real, hi: real)
    requires forall k :: 0 <= k < |xs| ==> lo <= xs[k] <= hi
    ensures |xs| as real * lo <= Sum(xs) <= |xs| as real * hi
  {
    if xs != [] {
      SumBounds(xs[..|xs| - 1], lo, hi);
    }
  }

  /** The mean of scores that all lie in `[lo, hi]` lies there too. */
  lemma MeanBounds(xs: seq<real>, lo: real, hi: real)
    requires xs != []
    requires forall k :: 0 <= k < |xs| ==> lo <= xs[k] <= hi
    ensures lo <= Mean(xs).value <= hi
  {
    SumBounds(xs, lo, hi);
    var n := |xs| as real;
    assert n * lo <= Sum(xs) <= n * hi;
    assert lo == (n * lo) / n && hi == (n * hi) / n;
  }

  /** `scores[j]` is the newest recorded score of the `j`-th utterance. */
  predicate NewestScores(rs: seq<SttRecord>, utts: seq<Utterance>, scores: seq<real>)
  {
    && |scores| <= |utts|
    && forall j :: 0 <= j < |scores| ==>
         RecordsFor(rs, utts[j].id) != [] && scores[j] == Newest(RecordsFor(rs, utts[j].id)).score
  }

  /** Appending the first record of one utterance leaves the records of the
      utterances that already had some as they were. */
  lemma ScoresStep(before: seq<SttRecord>, after: seq<SttRecord>, x: SttRecord,
                   utts: seq<Utterance>, scores: seq<real>, s: real)
    requires NewestScores(before, utts, scores) && |scores| < |utts|
    requires after == before || (after == before + [x] && RecordsFor(before, x.origUtteranceId) == [])
    requires RecordsFor(after, utts[|scores|].id) != []
    requires s == Newest(RecordsFor(after, utts[|scores|].id)).score
    ensures NewestScores(after, utts, scores + [s])
  {
    forall j | 0 <= j < |scores|
      ensures RecordsFor(after, utts[j].id) != [] && scores[j] == Newest(RecordsFor(after, utts[j].id)).score
    {
      var id := utts[j].id;
      assert RecordsFor(before, id) != [];
      if after != before {
        RecordsForAppend(before, x, id);
        assert id != x.origUtteranceId;
        assert RecordsFor(after, id) == RecordsFor(before, id);
      }
    }
    assert (scores + [s])[..|scores|] == scores;
  }

  /** An utterance without records has none in any earlier state of the log. */
  lemma FirstRecordEarlier(start: seq<SttRecord>, before: seq<SttRecord>, x: SttRecord)
    requires start <= before
    requires RecordsFor(before, x.origUtteranceId) == []
    ensures RecordsFor(start, x.origUtteranceId) == []
  {
    forall y | y in start ensures y.origUtteranceId != x.origUtteranceId {
      assert y in before;
      RecordsForMembers(before, x.origUtteranceId, y);
    }
    if RecordsFor(start, x.origUtteranceId) != [] {
      RecordsForMembers(start, x.origUtteranceId, RecordsFor(start, x.origUtteranceId)[0]);
    }
  }

  /** `x` is the record scored from one of `utts`. */
  ghost predicate ScoredFrom(x: SttRecord, utts: seq<Utterance>, transcribe: seq<real> -> string,
                             similarity: (string, string) -> real, now: int)
  {
    exists i :: 0 <= i < |utts| && x == Scored(utts[i], transcribe, similarity, now)
  }

  /** No two records appended after `start` belong to the same utterance. */
  ghost predicate OnePerUtterance(start: seq<SttRecord>, records: seq<SttRecord>)
  {
    forall k, l :: |start| <= k < l < |records| ==> records[k].origUtteranceId != records[l].origUtteranceId
  }

  /** Appending the first record of an utterance keeps one record per
      utterance among those appended. */
  lemma OnePerUtteranceStep(start: seq<SttRecord>, before: seq<SttRecord>, x: SttRecord)
    requires OnePerUtterance(start, before)
    requires RecordsFor(before, x.origUtteranceId) == []
    ensures OnePerUtterance(start, before + [x])
  {
    forall k | 0 <= k < |before| ensures before[k].origUtteranceId != x.origUtteranceId {
      RecordsForMembers(before, x.origUtteranceId, before[k]);
    }
  }

  /** The records appended after `start` are the first records of the
      utterances `from` names, all among the first `n` of `utts`. */
  ghost predicate Traced(start: seq<SttRecord>, records: seq<SttRecord>, from: seq<nat>, n: nat, utts: seq<Utterance>,
                         transcribe: seq<real> -> string, similarity: (string, string) -> real, now: int)
  {
    && n <= |utts| && start <= records && |records| == |start| + |from|
    && forall k :: 0 <= k < |from| ==>
         && from[k] < n && records[|start| + k] == Scored(utts[from[k]], transcribe, similarity, now)
         && RecordsFor(start, utts[from[k]].id) == []
  }

  /** One turn of the scoring loop: the log either stays as it was or gains
      the first record of utterance `i`. */
  lemma TracedStep(start: seq<SttRecord>, before: seq<SttRecord>, after: seq<SttRecord>, from: seq<nat>, i: nat,
                   utts: seq<Utterance>, transcribe: seq<real> -> string, similarity: (string, string) -> real, now: int)
    requires Traced(start, before, from, i, utts, transcribe, similarity, now) && i < |utts|
    requires OnePerUtterance(start, before)
    requires || after == before
             || (after == before + [Scored(utts[i], transcribe, similarity, now)] && RecordsFor(before, utts[i].id) == [])
    ensures after == before ==> Traced(start, after, from, i + 1, utts, transcribe, similarity, now)
    ensures after != before ==> Traced(start, after, from + [i], i + 1, utts, transcribe, similarity, now)
    ensures OnePerUtterance(start, after)
  {
    if after != before {
      var x := Scored(utts[i], transcribe, similarity, now);
      OnePerUtteranceStep(start, before, x);
      FirstRecordEarlier(start, before, x);
    }
  }

  /** Records appended after `start`, each traced to the utterance it scores,
      are first records of utterances from `utts`. */
  lemma AppendedFrom(start: seq<SttRecord>, records: seq<SttRecord>, from: seq<nat>, utts: seq<Utterance>,
                     transcribe: seq<real> -> string, similarity: (string, string) -> real, now: int)
    requires Traced(start, records, from, |utts|, utts, transcribe, similarity, now)
    ensures forall k :: |start| <= k < |records| ==>
      RecordsFor(start, records[k].origUtteranceId) == [] && ScoredFrom(records[k], utts, transcribe, similarity, now)
  {
    forall k | |start| <= k < |records|
      ensures RecordsFor(start, records[k].origUtteranceId) == [] && ScoredFrom(records[k], utts, transcribe, similarity, now)
    {
      assert records[|start| + (k - |start|)] == Scored(utts[from[k - |start|]], transcribe, similarity, now);
    }
  }

  /** The STT table, which only ever grows. */
  class SttLog {
    var records: seq<SttRecord>

    constructor()
      ensures records == []
    {
      records := [];
    }

    /** `compute_and_store_score`: transcribe the utterance's audio, score the
        transcript against the utterance's text, append exactly one record
        carrying both, and return the stored score. */
    method ComputeAndStoreScore(u: Utterance, transcribe: seq<real> -> string,
                                similarity: (string, string) -> real, now: int) returns (score: real)
      modifies this
      ensures records == old(records) + [Scored(u, transcribe, similarity, now)]
      ensures score == records[|records| - 1].score
    {
      var heard := transcribe(u.audio);
      score := similarity(u.text, heard);
      records := records + [SttRecord(u.id, heard, score, now)];
    }

    /** `get_or_compute_score`: with records for `u` already in the log, the
        score of the newest one and the log untouched; otherwise one freshly
        computed and stored record. */
    method GetOrComputeScore(u: Utterance, transcribe: seq<real> -> string,
                             similarity: (string, string) -> real, now: int) returns (score: real)
      modifies this
      ensures old(RecordsFor(records, u.id)) != [] ==>
        records == old(records) && score == Newest(RecordsFor(records, u.id)).score
      ensures old(RecordsFor(records, u.id)) == [] ==>
        records == old(records) + [Scored(u, transcribe, similarity, now)] && score == Scored(u, transcribe, similarity, now).score
      ensures RecordsFor(records, u.id) != [] && score == Newest(RecordsFor(records, u.id)).score
    {
      var mine := RecordsFor(records, u.id);
      if |mine| > 0 {
        var sorted := PyList.SortBy(mine, DateKey);
        SortedLastIsNewest(mine);
        score := sorted[|sorted| - 1].score;
      } else {
        score := ComputeAndStoreScore(u, transcribe, similarity, now);
        RecordsForAppend(old(records), Scored(u, transcribe, similarity, now), u.id);
      }
    }

    /** `calculate_project_score`: one score per utterance in program order,
        each the newest recorded score of its utterance once the loop is done,
        and their mean; a program without utterances divides by zero. The log
        only gains records for utterances that had none, at most one each. */
    method CalculateProjectScore(utts: seq<Utterance>, transcribe: seq<real> -> string,
                                 similarity: (string, string) -> real, now: int)
      returns (r: Result<(real, seq<real>)>)
      modifies this
      ensures old(records) <= records
      ensures forall k :: |old(records)| <= k < |records| ==>
        RecordsFor(old(records), records[k].origUtteranceId) == [] && ScoredFrom(records[k], utts, transcribe, similarity, now)
      ensures forall k, l :: |old(records)| <= k < l < |records| ==> records[k].origUtteranceId != records[l].origUtteranceId
      ensures utts == [] ==> r == Err(ZeroDivisionError)
      ensures utts != [] ==> r.Ok? && |r.value.1| == |utts| && Mean(r.value.1) == Ok(r.value.0)
      ensures r.Ok? ==> forall i :: 0 <= i < |utts| ==>
        RecordsFor(records, utts[i].id) != [] && r.value.1[i] == Newest(RecordsFor(records, utts[i].id)).score
    {
      var scores: seq<real> := [];
      ghost var from: seq<nat> := [];
      var i := 0;
      while i < |utts|
        invariant 0 <= i <= |utts| && |scores| == i
        invariant Traced(old(records), records, from, i, utts, transcribe, similarity, now)
        invariant NewestScores(records, utts, scores)
        invariant OnePerUtterance(old(records), records)
      {
        ghost var before := records;
        var s := GetOrComputeScore(utts[i], transcribe, similarity, now);
        ghost var x := Scored(utts[i], transcribe, similarity, now);
        assert records == before || (records == before + [x] && RecordsFor(before, x.origUtteranceId) == []);
        TracedStep(old(records), before, records, from, i, utts, transcribe, similarity, now);
        if records != before {
          from := from + [i];
        }
        ScoresStep(before, records, x, utts, scores, s);
        scores := scores + [s];
        i := i + 1;
      }
      AppendedFrom(old(records), records, from, utts, transcribe, similarity, now);
      if |scores| == 0 {
        return Err(ZeroDivisionError);
      }
      return Ok((Sum(scores) / |scores| as real, scores));
    }
  }

  /** Asking twice for an utterance's score gives the same answer, and an
      utterance that had no record ends up with exactly one. */
  method ScoreTwice(log: SttLog, u: Utterance, transcribe: seq<real> -> string,
                    similarity: (string, string) -> real, now: int, later: int)
    returns (first: real, second: real)
    modifies log
    ensures first == second
    ensures old(RecordsFor(log.records, u.id)) == [] ==> RecordsFor(log.records, u.id) == [Scored(u, transcribe, similarity, now)]
    ensures old(RecordsFor(log.records, u.id)) != [] ==> log.records == old(log.records)
  {
    first := log.GetOrComputeScore(u, transcribe, similarity, now);
    ghost var mid := log.records;
    second := log.GetOrComputeScore(u, transcribe, similarity, later);
    if old(RecordsFor(log.records, u.id)) == [] {
      RecordsForAppend(old(log.records), Scored(u, transcribe, similarity, now), u.id);
    }
  }
}
