/** Python's list builtins that the core leans on: the stable `sorted(xs, key=…)`,
    `bisect.bisect_right(xs, x, key=…)` and slicing `xs[i:j]`. */
module PyList {

  predicate SortedBy<T>(s: seq<T>, key: T -> real)
  {
    forall i, j :: 0 <= i < j < |s| ==> key(s[i]) <= key(s[j])
  }

  /** Puts `x` in front of the first element whose key is not smaller, so
      that `x` stays ahead of the equal-keyed elements that followed it. */
  function Insert<T>(x: T, s: seq<T>, key: T -> real): (r: seq<T>)
    requires SortedBy(s, key)
    ensures |r| == |s| + 1
    ensures multiset(r) == multiset(s) + multiset{x}
    ensures SortedBy(r, key)
  {
    if s == [] then [x]
    else if key(x) <= key(s[0]) then [x] + s
    else
      var t := Insert(x, s[1..], key);
      assert s == [s[0]] + s[1..];
      InsertedAbove(x, s, t, key);
      SortedCons(s[0], t, key);
      [s[0]] + t
  }

  /** The list `x` was inserted into after the head holds nothing below the
      head's key, since `x` itself sorts after the head. */
  lemma InsertedAbove<T>(x: T, s: seq<T>, t: seq<T>, key: T -> real)
    requires SortedBy(s, key) && s != [] && key(s[0]) < key(x)
    requires multiset(t) == multiset(s[1..]) + multiset{x}
    ensures forall k :: 0 <= k < |t| ==> key(s[0]) <= key(t[k])
  {
    forall k | 0 <= k < |t| ensures key(s[0]) <= key(t[k]) {
      assert t[k] in multiset(t);
      if t[k] != x {
        assert t[k] in multiset(s[1..]);
        var m :| 0 <= m < |s[1..]| && s[1..][m] == t[k];
        assert s[m + 1] == t[k];
      }
    }
  }

  lemma SortedCons<T>(h: T, t: seq<T>, key: T -> real)
    requires SortedBy(t, key) && forall k :: 0 <= k < |t| ==> key(h) <= key(t[k])
    ensures SortedBy([h] + t, key)
  {
    var r := [h] + t;
    forall i, j | 0 <= i < j < |r| ensures key(r[i]) <= key(r[j]) {
      assert r[j] == t[j - 1];
      if i > 0 {
        assert r[i] == t[i - 1];
      }
    }
  }

  /** `sorted(s, key=key)`: a stable sort, ascending by key. */
  function SortBy<T>(s: seq<T>, key: T -> real): (r: seq<T>)
    ensures |r| == |s|
    ensures multiset(r) == multiset(s)
    ensures SortedBy(r, key)
  {
    if s == [] then []
    else
      assert s == [s[0]] + s[1..];
      Insert(s[0], SortBy(s[1..], key), key)
  }

  /** The position of the last element carrying the largest key. */
  function LastMaxIndex<T>(s: seq<T>, key: T -> real): (k: nat)
    requires s != []
    ensures k < |s|
    ensures forall j :: 0 <= j < |s| ==> key(s[j]) <= key(s[k])
    ensures forall j :: k < j < |s| ==> key(s[j]) < key(s[k])
  {
    if |s| == 1 then 0
    else
      var k' := LastMaxIndex(s[1..], key) + 1;
      if key(s[0]) > key(s[k']) then 0 else k'
  }

  /** Inserting into a sorted list changes its last element only when the new
      key is strictly larger than every key already there. */
  lemma {:induction false} InsertLast<T>(x: T, s: seq<T>, key: T -> real)
    requires SortedBy(s, key) && s != []
    ensures Insert(x, s, key)[|s|] == if key(x) > key(s[|s| - 1]) then x else s[|s| - 1]
  {
    if key(x) > key(s[0]) && |s| > 1 {
      InsertLast(x, s[1..], key);
    }
  }

  /** The last element of the stable sort is the last of the maximal-key
      elements in the input: among equal largest keys, the one that came last wins. */
  lemma {:induction false} SortByLast<T>(s: seq<T>, key: T -> real)
    requires s != []
    ensures SortBy(s, key)[|s| - 1] == s[LastMaxIndex(s, key)]
  {
    if |s| > 1 {
      var rest := s[1..];
      SortByLast(rest, key);
      var t := SortBy(rest, key);
      InsertLast(s[0], t, key);
    }
  }

  /** `bisect.bisect_right` on `keys[lo:hi]`: the first position whose key
      exceeds `x`, found by halving the range as Python's loop does. */
  function BisectRight(keys: seq<real>, x: real, lo: nat, hi: nat): (r: nat)
    requires lo <= hi <= |keys|
    requires forall i, j :: 0 <= i < j < |keys| ==> keys[i] <= keys[j]
    ensures lo <= r <= hi
    ensures forall i :: lo <= i < r ==> keys[i] <= x
    ensures forall i :: r <= i < hi ==> x < keys[i]
    decreases hi - lo
  {
    if lo >= hi then lo
    else
      var mid := (lo + hi) / 2;
      if x < keys[mid] then BisectRight(keys, x, lo, mid) else BisectRight(keys, x, mid + 1, hi)
  }

  /** Where a Python slice bound `i` lands in a list of length `n`. */
  function SliceBound(i: int, n: nat): (b: nat)
    ensures b <= n
  {
    if i < 0 then (if i + n < 0 then 0 else i + n) else if i > n then n else i
  }

  /** `s[i:j]` with Python's negative indices and clamping. */
  function Slice<T>(s: seq<T>, i: int, j: int): (r: seq<T>)
    ensures |r| <= |s|
  {
    var lo, hi := SliceBound(i, |s|), SliceBound(j, |s|);
    if lo < hi then s[lo..hi] else []
  }

  /** A rearrangement of a list whose elements have pairwise distinct `f`
      values has pairwise distinct `f` values too. */
  lemma PermutationKeepsDistinct<T, K>(a: seq<T>, b: seq<T>, f: T -> K)
    requires multiset(a) == multiset(b)
    requires forall i, j :: 0 <= i < j < |a| ==> f(a[i]) != f(a[j])
    ensures forall i, j :: 0 <= i < j < |b| ==> f(b[i]) != f(b[j])
  {
    forall i, j | 0 <= i < j < |b| ensures f(b[i]) != f(b[j]) {
      if f(b[i]) == f(b[j]) {
        assert b[i] in multiset(a) && b[j] in multiset(a);
        var p :| 0 <= p < |a| && a[p] == b[i];
        var q :| 0 <= q < |a| && a[q] == b[j];
        assert p == q;
        TwiceCounted(b, i, j);
        OnceCounted(a, p);
        assert false;
      }
    }
  }

  /** An element at two positions is counted at least twice. */
  lemma TwiceCounted<T>(s: seq<T>, i: nat, j: nat)
    requires i < j < |s| && s[i] == s[j]
    ensures multiset(s)[s[i]] >= 2
  {
    assert s == s[..j] + s[j..];
    assert s[i] in s[..j] && s[j] in s[j..];
  }

  /** An element at one position only, in a list of otherwise different elements,
      is counted once. */
  lemma OnceCounted<T>(s: seq<T>, p: nat)
    requires p < |s| && forall q :: 0 <= q < |s| && q != p ==> s[q] != s[p]
    ensures multiset(s)[s[p]] == 1
  {
    assert s == s[..p] + [s[p]] + s[p + 1..];
    assert s[p] !in s[..p] && s[p] !in s[p + 1..];
  }
}
