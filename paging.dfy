/** The editor page's choice of utterances: with a positive score threshold
    only the utterances scoring strictly above it, worst first; otherwise all
    of them in program order; then one page of at most `max_utterance`. */
module Paging {
  import PyList

  /** `zip(all_scores, all_utterances)`, which stops at the shorter list. */
  function Zip<U>(scores: seq<real>, utts: seq<U>): (r: seq<(real, U)>)
    ensures |r| == if |scores| < |utts| then |scores| else |utts|
    ensures forall k :: 0 <= k < |r| ==> r[k] == (scores[k], utts[k])
  {
    var n := if |scores| < |utts| then |scores| else |utts|;
    seq(n, k requires 0 <= k < n => (scores[k], utts[k]))
  }

  function ScoreKey<U>(p: (real, U)): real
  {
    p.0
  }

  function Keys<U>(ps: seq<(real, U)>): (r: seq<real>)
    ensures |r| == |ps| && forall k :: 0 <= k < |r| ==> r[k] == ps[k].0
  {
    seq(|ps|, k requires 0 <= k < |ps| => ps[k].0)
  }

  function Utterances<U>(ps: seq<(real, U)>): (r: seq<U>)
    ensures |r| == |ps| && forall k :: 0 <= k < |r| ==> r[k] == ps[k].1
  {
    seq(|ps|, k requires 0 <= k < |ps| => ps[k].1)
  }

  /** The pairs of `ps` scoring strictly above `threshold`, in order: the
      reference for what the threshold filter keeps. */
  function Above<U>(ps: seq<(real, U)>, threshold: real): (r: seq<(real, U)>)
    ensures forall k :: 0 <= k < |r| ==> r[k].0 > threshold
  {
    if ps == [] then []
    else Above(ps[..|ps| - 1], threshold) + (if ps[|ps| - 1].0 > threshold then [ps[|ps| - 1]] else [])
  }

  /** Lines 172-173: the pairs sorted by score, from the first one whose
      score exceeds the threshold onwards. */
  function SortedAbove<U>(scores: seq<real>, utts: seq<U>, threshold: real): (r: seq<(real, U)>)
  {
    var temp := PyList.SortBy(Zip(scores, utts), ScoreKey);
    var keys := Keys(temp);
    var from := PyList.BisectRight(keys, threshold, 0, |keys|);
    temp[from..]
  }

  /** The utterances the page chooses from (lines 171-174). */
  function Shown<U>(scores: seq<real>, utts: seq<U>, threshold: real): seq<U>
  {
    if threshold > 0.0 then Utterances(SortedAbove(scores, utts, threshold)) else utts
  }

  /** `all_utterances[from_idx: from_idx + max_utterance]` (line 176). */
  function Page<U>(xs: seq<U>, fromIdx: int, maxUtterance: int): seq<U>
  {
    PyList.Slice(xs, fromIdx, fromIdx + maxUtterance)
  }

  /** How often `x` occurs among the pairs above the threshold: as often as
      in `ps` when its score is above it, and never otherwise. */
  lemma {:induction false} AboveCount<U>(ps: seq<(real, U)>, threshold: real, x: (real, U))
    ensures multiset(Above(ps, threshold))[x] == if x.0 > threshold then multiset(ps)[x] else 0
  {
    if ps != [] {
      var init, last := ps[..|ps| - 1], ps[|ps| - 1];
      AboveCount(init, threshold, x);
      assert ps == init + [last];
    }
  }

  /** Rearranging the pairs rearranges the ones above the threshold. */
  lemma AbovePermutation<U>(a: seq<(real, U)>, b: seq<(real, U)>, threshold: real)
    requires multiset(a) == multiset(b)
    ensures multiset(Above(a, threshold)) == multiset(Above(b, threshold))
  {
    var ma, mb := multiset(Above(a, threshold)), multiset(Above(b, threshold));
    forall x ensures ma[x] == mb[x] {
      AboveCount(a, threshold, x);
      AboveCount(b, threshold, x);
    }
    SameCounts(ma, mb);
  }

  /** Multisets that count every element alike are equal. */
  lemma SameCounts<T>(ma: multiset<T>, mb: multiset<T>)
    requires forall x :: ma[x] == mb[x]
    ensures ma == mb
  {
  }

  /** When the scores are at most the threshold up to `from` and above it
      from there on, the pairs above the threshold are the ones from `from` on. */
  lemma {:induction false} AboveOfPartition<U>(temp: seq<(real, U)>, from: nat, threshold: real)
    requires from <= |temp|
    requires forall k :: 0 <= k < from ==> temp[k].0 <= threshold
    requires forall k :: from <= k < |temp| ==> threshold < temp[k].0
    ensures Above(temp, threshold) == temp[from..]
  {
    if temp != [] {
      var n := |temp|;
      var init := temp[..n - 1];
      if from < n {
        AboveOfPartition(init, from, threshold);
        assert temp[from..] == init[from..] + [temp[n - 1]];
      } else {
        AboveOfPartition(init, n - 1, threshold);
      }
    }
  }

  /** The threshold filter keeps exactly the pairs scoring strictly above
      the threshold, each as often as it occurs, in ascending score order. */
  lemma KeptAboveThreshold<U>(scores: seq<real>, utts: seq<U>, threshold: real)
    ensures PyList.SortedBy(SortedAbove(scores, utts, threshold), ScoreKey)
    ensures forall k :: 0 <= k < |SortedAbove(scores, utts, threshold)| ==> SortedAbove(scores, utts, threshold)[k].0 > threshold
    ensures multiset(SortedAbove(scores, utts, threshold)) == multiset(Above(Zip(scores, utts), threshold))
  {
    var ps := Zip(scores, utts);
    var temp := PyList.SortBy(ps, ScoreKey);
    var keys := Keys(temp);
    var from := PyList.BisectRight(keys, threshold, 0, |keys|);
    assert SortedAbove(scores, utts, threshold) == temp[from..];
    forall k | 0 <= k < |temp| ensures (k < from ==> temp[k].0 <= threshold) && (from <= k ==> threshold < temp[k].0) {
      assert keys[k] == temp[k].0;
    }
    AboveOfPartition(temp, from, threshold);
    AbovePermutation(temp, ps, threshold);
    SuffixSorted(temp, from);
  }

  lemma SuffixSorted<U>(s: seq<(real, U)>, from: nat)
    requires PyList.SortedBy(s, ScoreKey) && from <= |s|
    ensures PyList.SortedBy(s[from..], ScoreKey)
  {
    forall i, j | 0 <= i < j < |s| - from ensures ScoreKey(s[from..][i]) <= ScoreKey(s[from..][j]) {
      assert s[from..][i] == s[from + i] && s[from..][j] == s[from + j];
    }
  }

  /** Without a positive threshold every utterance is shown, in program order. */
  lemma NoThresholdShowsAll<U>(scores: seq<real>, utts: seq<U>, threshold: real)
    requires threshold <= 0.0
    ensures Shown(scores, utts, threshold) == utts
  {
  }

  /** For a non-negative start and page size the page is the window of at
      most `maxUtterance` utterances starting at `fromIdx`, cut at the end. */
  lemma PageWindow<U>(xs: seq<U>, fromIdx: int, maxUtterance: int)
    requires 0 <= fromIdx && 0 <= maxUtterance
    ensures |Page(xs, fromIdx, maxUtterance)| <= maxUtterance
    ensures fromIdx <= |xs| ==>
      Page(xs, fromIdx, maxUtterance) == xs[fromIdx..if fromIdx + maxUtterance < |xs| then fromIdx + maxUtterance else |xs|]
    ensures fromIdx >= |xs| ==> Page(xs, fromIdx, maxUtterance) == []
  {
  }

  /** The utterances shown, and so those on any page, are utterances of the
      program. */
  lemma PageFromUtterances<U>(scores: seq<real>, utts: seq<U>, threshold: real, fromIdx: int, maxUtterance: int)
    ensures forall x :: x in Shown(scores, utts, threshold) ==> x in utts
    ensures forall x :: x in Page(Shown(scores, utts, threshold), fromIdx, maxUtterance) ==> x in utts
  {
    var shown := Shown(scores, utts, threshold);
    forall x | x in shown ensures x in utts {
      ShownIsUtterance(scores, utts, threshold, x);
    }
    forall x | x in Page(shown, fromIdx, maxUtterance) ensures x in shown {
      SliceMember(shown, fromIdx, fromIdx + maxUtterance, x);
    }
  }

  lemma ShownIsUtterance<U>(scores: seq<real>, utts: seq<U>, threshold: real, x: U)
    requires x in Shown(scores, utts, threshold)
    ensures x in utts
  {
    if threshold > 0.0 {
      var ps := Zip(scores, utts);
      var sa := SortedAbove(scores, utts, threshold);
      var us := Utterances(sa);
      var k :| 0 <= k < |us| && us[k] == x;
      KeptAboveThreshold(scores, utts, threshold);
      assert sa[k] in multiset(Above(ps, threshold));
      AboveCount(ps, threshold, sa[k]);
      ZipMember(scores, utts, sa[k]);
    }
  }

  /** A pair of the zipped lists carries one of the utterances. */
  lemma ZipMember<U>(scores: seq<real>, utts: seq<U>, p: (real, U))
    requires p in multiset(Zip(scores, utts))
    ensures p.1 in utts
  {
    var ps := Zip(scores, utts);
    var j :| 0 <= j < |ps| && ps[j] == p;
    assert utts[j] == p.1;
  }

  /** Every element of a slice is an element of the list. */
  lemma SliceMember<U>(s: seq<U>, i: int, j: int, x: U)
    requires x in PyList.Slice(s, i, j)
    ensures x in s
  {
    var lo, hi := PyList.SliceBound(i, |s|), PyList.SliceBound(j, |s|);
    var k :| 0 <= k < hi - lo && s[lo..hi][k] == x;
    assert s[lo + k] == x;
  }
}
