/** Finding the podcasters who publish in several languages, English among
    them: podcasts are sorted by author, grouped into runs of one author,
    each author's set of language codes is collected, single-language and
    non-English authors are dropped, and the rest are ordered by how many
    languages they publish in, most first. */
module Podindex {
  import opened Text
  import PyList

  datatype Podcast = Podcast(itunesAuthor: string, language: string)
  datatype Podcaster = Podcaster(itunesAuthor: string, languages: set<string>)

  /** A language tag lower-cased and cut at its first `-`: `en-US` gives `en`. */
  function LanguageCode(language: string): (c: string)
    ensures c <= Lower(language) && '-' !in c
    ensures |c| < |language| ==> Lower(language)[|c|] == '-'
  {
    Split(Lower(language), '-')[0]
  }

  /** The language codes of every podcast by `author`. */
  function CodesOf(podcasts: seq<Podcast>, author: string): set<string>
  {
    set p | p in podcasts && p.itunesAuthor == author :: LanguageCode(p.language)
  }

  /** The language codes of the podcasts of one run. */
  function RunCodes(run: seq<Podcast>): set<string>
  {
    set p | p in run :: LanguageCode(p.language)
  }

  /** Kept: more than one language, and English one of them. */
  predicate Multilingual(codes: set<string>)
  {
    |codes| >= 2 && "en" in codes
  }

  predicate SortedByAuthor(s: seq<Podcast>)
  {
    forall i, j :: 0 <= i < j < |s| ==> LexLe(s[i].itunesAuthor, s[j].itunesAuthor)
  }

  function InsertByAuthor(x: Podcast, s: seq<Podcast>): (r: seq<Podcast>)
    requires SortedByAuthor(s)
    ensures multiset(r) == multiset(s) + multiset{x}
    ensures SortedByAuthor(r)
  {
    if s == [] then [x]
    else if LexLe(x.itunesAuthor, s[0].itunesAuthor) then
      HeadBelowAll(x, s);
      SortedByAuthorCons(x, s);
      [x] + s
    else
      var t := InsertByAuthor(x, s[1..]);
      assert s == [s[0]] + s[1..];
      LexLeTotal(x.itunesAuthor, s[0].itunesAuthor);
      InsertedAfterHead(x, s, t);
      SortedByAuthorCons(s[0], t);
      [s[0]] + t
  }

  /** A podcast whose author sorts before the first author of a sorted list
      sorts before every author of it. */
  lemma HeadBelowAll(x: Podcast, s: seq<Podcast>)
    requires SortedByAuthor(s) && s != [] && LexLe(x.itunesAuthor, s[0].itunesAuthor)
    ensures forall k :: 0 <= k < |s| ==> LexLe(x.itunesAuthor, s[k].itunesAuthor)
  {
    forall k | 0 <= k < |s| ensures LexLe(x.itunesAuthor, s[k].itunesAuthor) {
      if k > 0 {
        LexLeTrans(x.itunesAuthor, s[0].itunesAuthor, s[k].itunesAuthor);
      }
    }
  }

  /** Inserting after the head, into the tail, keeps everything at or above
      the head's author. */
  lemma InsertedAfterHead(x: Podcast, s: seq<Podcast>, t: seq<Podcast>)
    requires SortedByAuthor(s) && s != [] && LexLe(s[0].itunesAuthor, x.itunesAuthor)
    requires multiset(t) == multiset(s[1..]) + multiset{x}
    ensures forall k :: 0 <= k < |t| ==> LexLe(s[0].itunesAuthor, t[k].itunesAuthor)
  {
    forall k | 0 <= k < |t| ensures LexLe(s[0].itunesAuthor, t[k].itunesAuthor) {
      assert t[k] in multiset(t);
      if t[k] != x {
        assert t[k] in multiset(s[1..]);
        var m :| 0 <= m < |s[1..]| && s[1..][m] == t[k];
        assert s[m + 1] == t[k];
      }
    }
  }

  lemma SortedByAuthorCons(h: Podcast, t: seq<Podcast>)
    requires SortedByAuthor(t) && forall k :: 0 <= k < |t| ==> LexLe(h.itunesAuthor, t[k].itunesAuthor)
    ensures SortedByAuthor([h] + t)
  {
    var r := [h] + t;
    forall i, j | 0 <= i < j < |r| ensures LexLe(r[i].itunesAuthor, r[j].itunesAuthor) {
      assert r[j] == t[j - 1];
      if i > 0 {
        assert r[i] == t[i - 1];
      }
    }
  }

  /** `sorted(podcasts, key=lambda x: x.itunesAuthor)`. */
  function SortByAuthor(s: seq<Podcast>): (r: seq<Podcast>)
    ensures multiset(r) == multiset(s)
    ensures SortedByAuthor(r)
  {
    if s == [] then []
    else
      assert s == [s[0]] + s[1..];
      InsertByAuthor(s[0], SortByAuthor(s[1..]))
  }

  /** `itertools.groupby` by author: the maximal runs of consecutive podcasts
      sharing an author (what the runs hold is proved in `RunMembers`). */
  function GroupRuns(s: seq<Podcast>): (g: seq<seq<Podcast>>)
    ensures forall i :: 0 <= i < |g| ==> g[i] != []
    ensures forall i :: 0 <= i < |g| - 1 ==> g[i][0].itunesAuthor != g[i + 1][0].itunesAuthor
    ensures s != [] ==> g != [] && g[0][0] == s[0]
  {
    if s == [] then []
    else
      var rest := GroupRuns(s[1..]);
      if rest != [] && rest[0][0].itunesAuthor == s[0].itunesAuthor then [[s[0]] + rest[0]] + rest[1..]
      else [[s[0]]] + rest
  }

  /** Run `i` of `GroupRuns(s)`, as the item of the tail's runs it was built from. */
  lemma RunOfTail(s: seq<Podcast>, i: nat)
    requires s != [] && i < |GroupRuns(s)|
    ensures var g, rest := GroupRuns(s), GroupRuns(s[1..]);
      var merge := rest != [] && rest[0][0].itunesAuthor == s[0].itunesAuthor;
      && (i == 0 ==> g[0] == if merge then [s[0]] + rest[0] else [s[0]])
      && (i > 0 && merge ==> g[i] == rest[i])
      && (i > 0 && !merge ==> g[i] == rest[i - 1])
  {
  }

  /** Every run holds podcasts of the list, all by the run's author. */
  lemma {:induction false} RunMembers(s: seq<Podcast>, i: nat, x: Podcast)
    requires i < |GroupRuns(s)| && x in GroupRuns(s)[i]
    ensures x in s && x.itunesAuthor == GroupRuns(s)[i][0].itunesAuthor
  {
    var g: seq<seq<Podcast>>, rest: seq<seq<Podcast>> := GroupRuns(s), GroupRuns(s[1..]);
    var merge := rest != [] && rest[0][0].itunesAuthor == s[0].itunesAuthor;
    RunOfTail(s, i);
    if i == 0 {
      if x != s[0] {
        assert merge && x in rest[0];
        RunMembers(s[1..], 0, x);
        assert x in s[1..];
      }
    } else {
      var k := if merge then i else i - 1;
      RunMembers(s[1..], k, x);
      assert x in s[1..];
    }
  }

  /** Every podcast of the list lands in some run. */
  lemma {:induction false} RunOf(s: seq<Podcast>, x: Podcast) returns (i: nat)
    requires x in s
    ensures i < |GroupRuns(s)| && x in GroupRuns(s)[i]
  {
    var g: seq<seq<Podcast>>, rest: seq<seq<Podcast>> := GroupRuns(s), GroupRuns(s[1..]);
    var merge := rest != [] && rest[0][0].itunesAuthor == s[0].itunesAuthor;
    if x == s[0] {
      RunOfTail(s, 0);
      i := 0;
    } else {
      assert x in s[1..];
      var k := RunOf(s[1..], x);
      i := if merge then k else k + 1;
      RunOfTail(s, i);
    }
  }

  /** On a list sorted by author, the runs' authors ascend. */
  lemma {:induction false} RunsAscend(s: seq<Podcast>)
    requires SortedByAuthor(s)
    ensures var g := GroupRuns(s);
      forall i, j :: 0 <= i < j < |g| ==> LexLe(g[i][0].itunesAuthor, g[j][0].itunesAuthor)
  {
    if s != [] {
      var g: seq<seq<Podcast>>, rest: seq<seq<Podcast>> := GroupRuns(s), GroupRuns(s[1..]);
      var merge := rest != [] && rest[0][0].itunesAuthor == s[0].itunesAuthor;
      assert SortedByAuthor(s[1..]);
      RunsAscend(s[1..]);
      forall i, j | 0 <= i < j < |g| ensures LexLe(g[i][0].itunesAuthor, g[j][0].itunesAuthor) {
        RunOfTail(s, i);
        RunOfTail(s, j);
        if i == 0 {
          var k := if merge then j else j - 1;
          assert g[j][0] == rest[k][0] && rest[k][0] in rest[k];
          var x := g[j][0];
          RunMembers(s[1..], k, x);
          var m :| 0 <= m < |s[1..]| && s[1..][m] == x;
          assert s[m + 1] == x;
        }
      }
    }
  }

  /** On a list sorted by author, no two runs share an author: each author's
      podcasts all land in one run. */
  lemma RunsDistinct(s: seq<Podcast>, i: nat, j: nat)
    requires SortedByAuthor(s)
    requires i < j < |GroupRuns(s)|
    ensures GroupRuns(s)[i][0].itunesAuthor != GroupRuns(s)[j][0].itunesAuthor
  {
    var g: seq<seq<Podcast>> := GroupRuns(s);
    RunsAscend(s);
    if g[i][0].itunesAuthor == g[j][0].itunesAuthor {
      var a := g[i][0].itunesAuthor;
      if i + 1 < j {
        LexLeAntisym(a, g[i + 1][0].itunesAuthor);
      }
    }
  }

  /** The codes collected for a run of the sorted list are all the codes of
      that author in the whole input. */
  lemma RunCodesAre(podcasts: seq<Podcast>, i: nat)
    requires i < |GroupRuns(SortByAuthor(podcasts))|
    ensures var g := GroupRuns(SortByAuthor(podcasts));
      RunCodes(g[i]) == CodesOf(podcasts, g[i][0].itunesAuthor)
  {
    var sorted := SortByAuthor(podcasts);
    var g: seq<seq<Podcast>> := GroupRuns(sorted);
    var a := g[i][0].itunesAuthor;
    forall c | c in RunCodes(g[i]) ensures c in CodesOf(podcasts, a) {
      var p :| p in g[i] && LanguageCode(p.language) == c;
      RunMembers(sorted, i, p);
      assert p in multiset(sorted);
    }
    forall c | c in CodesOf(podcasts, a) ensures c in RunCodes(g[i]) {
      var p :| p in podcasts && p.itunesAuthor == a && LanguageCode(p.language) == c;
      assert p in multiset(podcasts);
      var j := RunOf(sorted, p);
      RunMembers(sorted, j, p);
      if j < i {
        RunsDistinct(sorted, j, i);
      } else if i < j {
        RunsDistinct(sorted, i, j);
      }
    }
  }

  /** The kept podcasters: for each author whose codes are `Multilingual`, one
      entry with that author's codes, ordered by number of languages, most
      first. */
  method MultilingualPodcasters(podcasts: seq<Podcast>) returns (out: seq<Podcaster>)
    ensures forall k :: 0 <= k < |out| ==>
      && out[k].languages == CodesOf(podcasts, out[k].itunesAuthor)
      && Multilingual(out[k].languages)
    ensures forall p :: p in podcasts && Multilingual(CodesOf(podcasts, p.itunesAuthor)) ==>
      exists k :: 0 <= k < |out| && out[k].itunesAuthor == p.itunesAuthor
    ensures forall k, l :: 0 <= k < l < |out| ==> out[k].itunesAuthor != out[l].itunesAuthor
    ensures forall k, l :: 0 <= k < l < |out| ==> |out[l].languages| <= |out[k].languages|
  {
    var sorted := SortByAuthor(podcasts);
    var groups: seq<seq<Podcast>> := GroupRuns(sorted);
    var found := KeepRuns(groups);
    ghost var from := KeptIndices(groups);
    KeptIndicesEntries(groups);
    KeptIndicesAscend(groups);
    KeptIndicesComplete(groups);
    out := PyList.SortBy(found, MostLanguages);
    KeptEntries(podcasts, sorted, groups, from, found, out);
    MostLanguagesFirst(out);
  }

  /** The entries of the runs whose codes are `Multilingual`, in run order. */
  function Kept(groups: seq<seq<Podcast>>): seq<Podcaster>
    requires forall i :: 0 <= i < |groups| ==> groups[i] != []
  {
    if groups == [] then []
    else
      var last := groups[|groups| - 1];
      Kept(groups[..|groups| - 1]) + (if Multilingual(RunCodes(last)) then [Entry(last)] else [])
  }

  /** The loop of lines 18-30: a run with a single language is skipped, and
      so is one without English; the others give their entries in turn. */
  method KeepRuns(groups: seq<seq<Podcast>>) returns (found: seq<Podcaster>)
    requires forall i :: 0 <= i < |groups| ==> groups[i] != []
    ensures found == Kept(groups)
  {
    found := [];
    var i := 0;
    while i < |groups|
      invariant 0 <= i <= |groups| && found == Kept(groups[..i])
    {
      var run := groups[i];
      var languages := RunCodes(run);
      assert groups[..i + 1][..i] == groups[..i] && groups[..i + 1][i] == run;
      i := i + 1;
      if |languages| == 1 {
        continue;
      }
      if "en" !in languages {
        continue;
      }
      found := found + [Podcaster(run[0].itunesAuthor, languages)];
    }
    assert groups[..|groups|] == groups;
  }

  /** The indices of the runs whose codes are `Multilingual`, in run order:
      which run each kept entry comes from. */
  function KeptIndices(groups: seq<seq<Podcast>>): seq<nat>
  {
    if groups == [] then []
    else
      var n := |groups|;
      KeptIndices(groups[..n - 1]) + (if Multilingual(RunCodes(groups[n - 1])) then [n - 1] else [])
  }

  /** Each kept entry is the entry of the run its index names, and that run
      is `Multilingual`. */
  lemma {:induction false} KeptIndicesEntries(groups: seq<seq<Podcast>>)
    requires forall i :: 0 <= i < |groups| ==> groups[i] != []
    ensures |KeptIndices(groups)| == |Kept(groups)|
    ensures forall k :: 0 <= k < |KeptIndices(groups)| ==>
      && KeptIndices(groups)[k] < |groups|
      && Kept(groups)[k] == Entry(groups[KeptIndices(groups)[k]])
      && Multilingual(Kept(groups)[k].languages)
  {
    if groups != [] {
      var n := |groups|;
      var init := groups[..n - 1];
      KeptIndicesEntries(init);
      var ids, ks := KeptIndices(groups), Kept(groups);
      var ids0, ks0 := KeptIndices(init), Kept(init);
      forall k | 0 <= k < |ids|
        ensures ids[k] < n && ks[k] == Entry(groups[ids[k]]) && Multilingual(ks[k].languages)
      {
        if k < |ids0| {
          assert ids[k] == ids0[k] && ks[k] == ks0[k] && init[ids0[k]] == groups[ids0[k]];
        }
      }
    }
  }

  /** The indices ascend. */
  lemma {:induction false} KeptIndicesAscend(groups: seq<seq<Podcast>>)
    ensures forall k :: 0 <= k < |KeptIndices(groups)| ==> KeptIndices(groups)[k] < |groups|
    ensures forall k, l :: 0 <= k < l < |KeptIndices(groups)| ==> KeptIndices(groups)[k] < KeptIndices(groups)[l]
  {
    if groups != [] {
      var n := |groups|;
      var init := groups[..n - 1];
      KeptIndicesAscend(init);
      var ids, ids0 := KeptIndices(groups), KeptIndices(init);
      forall k | 0 <= k < |ids| ensures ids[k] < n {
        if k < |ids0| {
          assert ids[k] == ids0[k];
        }
      }
      forall k, l | 0 <= k < l < |ids| ensures ids[k] < ids[l] {
        assert ids[k] == ids0[k];
        if l < |ids0| {
          assert ids[l] == ids0[l];
        }
      }
    }
  }

  /** Every `Multilingual` run is among the indices. */
  lemma {:induction false} KeptIndicesComplete(groups: seq<seq<Podcast>>)
    ensures forall j :: 0 <= j < |groups| && Multilingual(RunCodes(groups[j])) ==> j in KeptIndices(groups)
  {
    if groups != [] {
      var n := |groups|;
      var init := groups[..n - 1];
      KeptIndicesComplete(init);
      forall j | 0 <= j < n && Multilingual(RunCodes(groups[j])) ensures j in KeptIndices(groups) {
        if j < n - 1 {
          assert groups[j] == init[j];
        }
      }
    }
  }

  /** The sort key of line 32: `reverse=True` on the number of languages is
      the stable ascending sort on its negation. */
  function MostLanguages(x: Podcaster): real
  {
    -(|x.languages| as real)
  }

  /** Sorted on that key, the podcasters go from most languages to fewest. */
  lemma MostLanguagesFirst(out: seq<Podcaster>)
    requires PyList.SortedBy(out, MostLanguages)
    ensures forall k, l :: 0 <= k < l < |out| ==> |out[l].languages| <= |out[k].languages|
  {
    forall k, l | 0 <= k < l < |out| ensures |out[l].languages| <= |out[k].languages| {
      assert MostLanguages(out[k]) <= MostLanguages(out[l]);
    }
  }

  /** The entry a run gives when it is kept. */
  function Entry(run: seq<Podcast>): Podcaster
    requires run != []
  {
    Podcaster(run[0].itunesAuthor, RunCodes(run))
  }

  /** What the loop collected, once reordered by size: the qualifying
      authors' entries, each once. */
  lemma KeptEntries(podcasts: seq<Podcast>, sorted: seq<Podcast>, groups: seq<seq<Podcast>>,
                    from: seq<nat>, found: seq<Podcaster>, out: seq<Podcaster>)
    requires sorted == SortByAuthor(podcasts) && groups == GroupRuns(sorted)
    requires |from| == |found|
    requires forall k :: 0 <= k < |found| ==> from[k] < |groups|
    requires forall k, l :: 0 <= k < l < |found| ==> from[k] < from[l]
    requires forall k :: 0 <= k < |found| ==> found[k] == Entry(groups[from[k]])
    requires forall j :: 0 <= j < |groups| && Multilingual(RunCodes(groups[j])) ==> j in from
    requires forall k :: 0 <= k < |found| ==> Multilingual(found[k].languages)
    requires multiset(out) == multiset(found)
    ensures forall k :: 0 <= k < |out| ==>
      && out[k].languages == CodesOf(podcasts, out[k].itunesAuthor)
      && Multilingual(out[k].languages)
    ensures forall p :: p in podcasts && Multilingual(CodesOf(podcasts, p.itunesAuthor)) ==>
      exists k :: 0 <= k < |out| && out[k].itunesAuthor == p.itunesAuthor
    ensures forall k, l :: 0 <= k < l < |out| ==> out[k].itunesAuthor != out[l].itunesAuthor
  {
    KeptCodes(podcasts, sorted, groups, from, found, out);
    KeptAll(podcasts, sorted, groups, from, found, out);
    KeptOnce(podcasts, sorted, groups, from, found, out);
  }

  lemma KeptCodes(podcasts: seq<Podcast>, sorted: seq<Podcast>, groups: seq<seq<Podcast>>,
                  from: seq<nat>, found: seq<Podcaster>, out: seq<Podcaster>)
    requires sorted == SortByAuthor(podcasts) && groups == GroupRuns(sorted)
    requires |from| == |found|
    requires forall k :: 0 <= k < |found| ==> from[k] < |groups|
    requires forall k :: 0 <= k < |found| ==> found[k] == Entry(groups[from[k]])
    requires forall k :: 0 <= k < |found| ==> Multilingual(found[k].languages)
    requires multiset(out) == multiset(found)
    ensures forall k :: 0 <= k < |out| ==>
      && out[k].languages == CodesOf(podcasts, out[k].itunesAuthor)
      && Multilingual(out[k].languages)
  {
    forall k | 0 <= k < |out|
      ensures out[k].languages == CodesOf(podcasts, out[k].itunesAuthor) && Multilingual(out[k].languages)
    {
      assert out[k] in multiset(found);
      var m :| 0 <= m < |found| && found[m] == out[k];
      RunCodesAre(podcasts, from[m]);
    }
  }

  lemma KeptAll(podcasts: seq<Podcast>, sorted: seq<Podcast>, groups: seq<seq<Podcast>>,
                from: seq<nat>, found: seq<Podcaster>, out: seq<Podcaster>)
    requires sorted == SortByAuthor(podcasts) && groups == GroupRuns(sorted)
    requires |from| == |found|
    requires forall k :: 0 <= k < |found| ==> from[k] < |groups|
    requires forall k :: 0 <= k < |found| ==> found[k] == Entry(groups[from[k]])
    requires forall j :: 0 <= j < |groups| && Multilingual(RunCodes(groups[j])) ==> j in from
    requires multiset(out) == multiset(found)
    ensures forall p :: p in podcasts && Multilingual(CodesOf(podcasts, p.itunesAuthor)) ==>
      exists k :: 0 <= k < |out| && out[k].itunesAuthor == p.itunesAuthor
  {
    forall p | p in podcasts && Multilingual(CodesOf(podcasts, p.itunesAuthor))
      ensures exists k :: 0 <= k < |out| && out[k].itunesAuthor == p.itunesAuthor
    {
      assert p in multiset(podcasts);
      var j := RunOf(sorted, p);
      RunMembers(sorted, j, p);
      RunCodesAre(podcasts, j);
      var m :| 0 <= m < |from| && from[m] == j;
      assert found[m] in multiset(out);
    }
  }

  lemma KeptOnce(podcasts: seq<Podcast>, sorted: seq<Podcast>, groups: seq<seq<Podcast>>,
                 from: seq<nat>, found: seq<Podcaster>, out: seq<Podcaster>)
    requires sorted == SortByAuthor(podcasts) && groups == GroupRuns(sorted)
    requires |from| == |found|
    requires forall k :: 0 <= k < |found| ==> from[k] < |groups|
    requires forall k, l :: 0 <= k < l < |found| ==> from[k] < from[l]
    requires forall k :: 0 <= k < |found| ==> found[k] == Entry(groups[from[k]])
    requires multiset(out) == multiset(found)
    ensures forall k, l :: 0 <= k < l < |out| ==> out[k].itunesAuthor != out[l].itunesAuthor
  {
    forall k, l | 0 <= k < l < |found| ensures found[k].itunesAuthor != found[l].itunesAuthor {
      RunsDistinct(sorted, from[k], from[l]);
    }
    PyList.PermutationKeepsDistinct(found, out, (x: Podcaster) => x.itunesAuthor);
  }

  lemma {:induction false} LexLeRefl(a: string)
    ensures LexLe(a, a)
    decreases |a|
  {
    if a != [] {
      LexLeRefl(a[1..]);
    }
  }
}
