/** YouTube links: reading the video id out of a link, and building the embed
    code for an id. The id extraction follows the backtracking order of the
    regular expression
      (?:https?://)?(?:www\.)?(?:youtube\.com|youtu\.be)/(?:watch\?v=|embed/|v/)?([a-zA-Z0-9_-]{11})
    searched (unanchored) from left to right. */
module Media {
  import opened Wrappers

  const IdLength := 11

  predicate IsIdChar(c: char)
  {
    'a' <= c <= 'z' || 'A' <= c <= 'Z' || '0' <= c <= '9' || c == '_' || c == '-'
  }

  /** The literal `lit` occurs in `s` at position `p`. */
  predicate StartsAt(s: string, p: nat, lit: string)
  {
    p + |lit| <= |s| && s[p..p + |lit|] == lit
  }

  /** Eleven id characters start at `q`. */
  predicate IdAt(s: string, q: nat)
  {
    q + IdLength <= |s| && forall k :: q <= k < q + IdLength ==> IsIdChar(s[k])
  }

  /** What a link puts before the id: a host with its slash, then an optional path prefix. */
  const Hosts: seq<string> := ["youtube.com/", "youtu.be/"]
  const Prefixes: seq<string> := ["watch?v=", "embed/", "v/", ""]

  /** At `a` a host and a prefix start, and an id follows them. */
  predicate Linked(s: string, a: nat, host: string, pre: string)
  {
    && host in Hosts && pre in Prefixes
    && StartsAt(s, a, host) && StartsAt(s, a + |host|, pre) && IdAt(s, a + |host| + |pre|)
  }

  /** After the host's slash: the optional `watch?v=`, `embed/` or `v/`, each
      tried in turn and given up if no id follows it; the result is where the
      id starts. */
  function AfterSlash(s: string, p: nat): (r: Option<nat>)
    ensures r.Some? ==> IdAt(s, r.value)
    ensures r.Some? ==> || r.value == p
                        || (StartsAt(s, p, "watch?v=") && r.value == p + 8)
                        || (StartsAt(s, p, "embed/") && r.value == p + 6)
                        || (StartsAt(s, p, "v/") && r.value == p + 2)
  {
    if StartsAt(s, p, "watch?v=") && IdAt(s, p + 8) then Some(p + 8)
    else if StartsAt(s, p, "embed/") && IdAt(s, p + 6) then Some(p + 6)
    else if StartsAt(s, p, "v/") && IdAt(s, p + 2) then Some(p + 2)
    else if IdAt(s, p) then Some(p)
    else None
  }

  /** From the host on: `youtube.com/` is tried before `youtu.be/`. */
  function AfterWww(s: string, p: nat): (r: Option<nat>)
    ensures r.Some? ==> p <= r.value && IdAt(s, r.value)
    ensures r.Some? ==> || (StartsAt(s, p, "youtube.com/") && r == AfterSlash(s, p + 12))
                        || (StartsAt(s, p, "youtu.be/") && r == AfterSlash(s, p + 9))
  {
    if StartsAt(s, p, "youtube.com/") && AfterSlash(s, p + 12).Some? then AfterSlash(s, p + 12)
    else if StartsAt(s, p, "youtu.be/") then AfterSlash(s, p + 9)
    else None
  }

  /** From after the scheme: the optional `www.` is tried first. */
  function AfterScheme(s: string, p: nat): (r: Option<nat>)
    ensures r.Some? ==> p <= r.value && IdAt(s, r.value)
  {
    if StartsAt(s, p, "www.") && AfterWww(s, p + 4).Some? then AfterWww(s, p + 4)
    else AfterWww(s, p)
  }

  /** A match starting exactly at `p`: `https://`, then `http://`, then no scheme. */
  function MatchAt(s: string, p: nat): (r: Option<nat>)
    ensures r.Some? ==> p <= r.value && IdAt(s, r.value)
  {
    if StartsAt(s, p, "https://") && AfterScheme(s, p + 8).Some? then AfterScheme(s, p + 8)
    else if StartsAt(s, p, "http://") && AfterScheme(s, p + 7).Some? then AfterScheme(s, p + 7)
    else AfterScheme(s, p)
  }

  /** `re.search`: the match with the leftmost start at or after `p`. */
  function SearchFrom(s: string, p: nat): (r: Option<nat>)
    ensures r.Some? ==> p <= r.value && IdAt(s, r.value)
    decreases |s| + 1 - p
  {
    if p > |s| then None
    else if MatchAt(s, p).Some? then MatchAt(s, p)
    else SearchFrom(s, p + 1)
  }

  /** `extract_video_id`: the captured id, or `None` when the search fails. */
  function ExtractVideoId(link: string): (r: Option<string>)
    ensures r.Some? ==> |r.value| == IdLength && forall k :: 0 <= k < |r.value| ==> IsIdChar(r.value[k])
  {
    match SearchFrom(link, 0)
    case None => None
    case Some(q) => Some(link[q..q + IdLength])
  }

  /** `get_youtube_embed_code` (defined twice in the source, identically). */
  function EmbedUrl(videoId: string): string
  {
    "https://www.youtube.com/embed/" + videoId
  }

  const IframeHead := "<iframe width=\"560\" height=\"315\" src=\""
  const IframeTail := "\" frameborder=\"0\" allowfullscreen></iframe>"

  function EmbedCode(videoId: string): string
  {
    IframeHead + EmbedUrl(videoId) + IframeTail
  }

  // ---------------------------------------------------------------------------
  // What the extraction finds, and when it finds nothing.

  lemma StartsAtConcat(s: string, p: nat, a: string, b: string)
    requires StartsAt(s, p, a) && StartsAt(s, p + |a|, b)
    ensures StartsAt(s, p, a + b)
  {
    assert s[p..p + |a| + |b|] == s[p..p + |a|] + s[p + |a|..p + |a| + |b|];
  }

  /** The position where the search succeeded. */
  function SearchPosition(s: string, p: nat): (m: nat)
    requires SearchFrom(s, p).Some?
    ensures p <= m && MatchAt(s, m) == SearchFrom(s, p)
    decreases |s| + 1 - p
  {
    if MatchAt(s, p).Some? then p else SearchPosition(s, p + 1)
  }

  /** Where the host starts in the match found at `p`: after the scheme and
      `www.` that the backtracking kept. */
  function HostStart(s: string, p: nat): (a: nat)
    requires MatchAt(s, p).Some?
    ensures p <= a <= p + 12
    ensures AfterWww(s, a) == MatchAt(s, p)
    ensures a == SchemeEnd(s, p) || (a == SchemeEnd(s, p) + 4 && StartsAt(s, SchemeEnd(s, p), "www."))
  {
    var w := SchemeEnd(s, p);
    if StartsAt(s, w, "www.") && AfterWww(s, w + 4).Some? then w + 4 else w
  }

  /** Where the scheme that the backtracking kept ends in the match at `p`. */
  function SchemeEnd(s: string, p: nat): (w: nat)
    ensures || w == p
            || (w == p + 8 && StartsAt(s, p, "https://"))
            || (w == p + 7 && StartsAt(s, p, "http://"))
  {
    if StartsAt(s, p, "https://") && AfterScheme(s, p + 8).Some? then p + 8
    else if StartsAt(s, p, "http://") && AfterScheme(s, p + 7).Some? then p + 7
    else p
  }

  /** Between the start of a match and its host stand only the scheme and
      `www.`, and neither holds a `y`. */
  lemma NoYBeforeHost(s: string, p: nat)
    requires MatchAt(s, p).Some?
    ensures forall k :: p <= k < HostStart(s, p) ==> s[k] != 'y'
  {
    var w := SchemeEnd(s, p);
    if w == p + 8 {
      NoYIn(s, p, "https://");
    } else if w == p + 7 {
      NoYIn(s, p, "http://");
    }
    if HostStart(s, p) == w + 4 {
      NoYIn(s, w, "www.");
    }
  }

  /** A literal without `y` puts no `y` where it occurs. */
  lemma NoYIn(s: string, p: nat, lit: string)
    requires StartsAt(s, p, lit) && 'y' !in lit
    ensures forall k :: p <= k < p + |lit| ==> s[k] != 'y'
  {
    forall k | p <= k < p + |lit| ensures s[k] != 'y' {
      assert s[k] == lit[k - p];
    }
  }

  /** Every link begins with the `y` of its host. */
  lemma LinkedStartsWithY(s: string, a: nat, host: string, pre: string)
    requires Linked(s, a, host, pre)
    ensures s[a] == 'y'
  {
    assert s[a] == s[a..a + |host|][0];
  }

  /** No match starts between where the search begins and where it succeeds. */
  lemma {:induction false} SearchPositionFirst(s: string, p: nat)
    requires SearchFrom(s, p).Some?
    ensures forall q :: p <= q < SearchPosition(s, p) ==> MatchAt(s, q).None?
    decreases |s| + 1 - p
  {
    if MatchAt(s, p).None? {
      SearchPositionFirst(s, p + 1);
      forall q | p <= q < SearchPosition(s, p) ensures MatchAt(s, q).None? {
        if q != p {
          assert p + 1 <= q < SearchPosition(s, p + 1);
        }
      }
    }
  }

  /** The host that the match at `p` settled on. */
  function MatchHost(s: string, p: nat): string
    requires MatchAt(s, p).Some?
  {
    var a := HostStart(s, p);
    if StartsAt(s, a, "youtube.com/") && AfterSlash(s, a + 12) == MatchAt(s, p) then "youtube.com/" else "youtu.be/"
  }

  /** The path prefix that the match at `p` settled on, read off where its id starts. */
  function MatchPrefix(s: string, p: nat): string
    requires MatchAt(s, p).Some?
  {
    var h := HostStart(s, p) + |MatchHost(s, p)|;
    var q := MatchAt(s, p).value;
    if q == h then "" else if q == h + 8 then "watch?v=" else if q == h + 6 then "embed/" else "v/"
  }

  /** Every match is a host and prefix followed by an id, and the match captures that id. */
  lemma MatchIsLinked(s: string, p: nat)
    requires MatchAt(s, p).Some?
    ensures Linked(s, HostStart(s, p), MatchHost(s, p), MatchPrefix(s, p))
    ensures MatchAt(s, p).value == HostStart(s, p) + |MatchHost(s, p)| + |MatchPrefix(s, p)|
  {
  }

  /** A host and prefix followed by an id make a match at the host's start,
      whatever alternative the backtracking settles on first. */
  lemma LinkedMatches(s: string, a: nat, host: string, pre: string)
    requires Linked(s, a, host, pre)
    ensures MatchAt(s, a).Some?
  {
    assert AfterSlash(s, a + |host|).Some?;
    assert AfterWww(s, a).Some?;
  }

  lemma SearchReaches(s: string, p: nat, m: nat)
    requires p <= m && MatchAt(s, m).Some?
    ensures SearchFrom(s, p).Some?
    decreases m - p
  {
    assert m <= |s|;
    if MatchAt(s, p).None? {
      assert SearchFrom(s, p) == SearchFrom(s, p + 1);
      SearchReaches(s, p + 1, m);
    }
  }

  /** The id found is eleven id characters that follow a host, a slash and an
      optional `watch?v=`, `embed/` or `v/` in the link, and that host is the
      leftmost one followed so: no link starts before it. */
  lemma ExtractFound(link: string)
    requires ExtractVideoId(link).Some?
    ensures exists a: nat, host, pre :: && Linked(link, a, host, pre)
                                       && ExtractVideoId(link).value == link[a + |host| + |pre|..a + |host| + |pre| + IdLength]
                                       && forall a2: nat, h2, p2 :: a2 < a ==> !Linked(link, a2, h2, p2)
  {
    var m := SearchPosition(link, 0);
    var a := HostStart(link, m);
    var host, pre := MatchHost(link, m), MatchPrefix(link, m);
    MatchIsLinked(link, m);
    var q := a + |host| + |pre|;
    assert SearchFrom(link, 0) == Some(q);
    assert ExtractVideoId(link).value == link[q..q + IdLength];
    NoLinkBefore(link);
  }

  /** No link starts before the host of the match the search finds: an
      earlier one would be a match the search passed over, or would put a
      host's `y` inside the scheme or `www.`. */
  lemma NoLinkBefore(link: string)
    requires SearchFrom(link, 0).Some?
    ensures forall a2: nat, h2, p2 :: a2 < HostStart(link, SearchPosition(link, 0)) ==> !Linked(link, a2, h2, p2)
  {
    var m := SearchPosition(link, 0);
    SearchPositionFirst(link, 0);
    NoYBeforeHost(link, m);
    forall a2: nat, h2, p2 | a2 < HostStart(link, m) ensures !Linked(link, a2, h2, p2) {
      if Linked(link, a2, h2, p2) {
        if a2 < m {
          LinkedMatches(link, a2, h2, p2);
        } else {
          LinkedStartsWithY(link, a2, h2, p2);
        }
        assert false;
      }
    }
  }

  /** `None` exactly when no anchor anywhere in the link is followed by an id. */
  lemma ExtractNone(link: string)
    ensures ExtractVideoId(link).None? <==> forall a: nat, host, pre :: !Linked(link, a, host, pre)
  {
    if exists a: nat, host, pre :: Linked(link, a, host, pre) {
      var a: nat, host, pre :| Linked(link, a, host, pre);
      LinkedMatches(link, a, host, pre);
      SearchReaches(link, 0, a);
    }
    if ExtractVideoId(link).Some? {
      ExtractFound(link);
    }
  }

  /** A match needs a host, and both hosts begin with `y`, at most twelve
      characters after the match's start. */
  lemma MatchNeedsY(s: string, p: nat)
    requires MatchAt(s, p).Some?
    ensures exists a :: p <= a <= p + 12 && a < |s| && s[a] == 'y'
  {
    var a := HostStart(s, p);
    assert AfterWww(s, a).Some?;
    if StartsAt(s, a, "youtube.com/") {
      assert s[a] == s[a..a + 12][0];
    } else {
      assert s[a] == s[a..a + 9][0];
    }
  }

  /** Positions where no match starts are skipped by the search. */
  lemma {:induction false} SearchSkips(s: string, p: nat, m: nat)
    requires p <= m <= |s|
    requires forall q :: p <= q < m ==> MatchAt(s, q).None?
    ensures SearchFrom(s, p) == SearchFrom(s, m)
    decreases m - p
  {
    if p < m {
      SearchSkips(s, p + 1, m);
    }
  }

  /** An embed URL for a well-formed id, wherever it sits in a text, matches at
      its first character and captures the id. */
  lemma EmbedUrlMatches(s: string, p: nat, videoId: string)
    requires |videoId| == IdLength && forall k :: 0 <= k < IdLength ==> IsIdChar(videoId[k])
    requires p + 41 <= |s| && s[p..p + 41] == EmbedUrl(videoId)
    ensures MatchAt(s, p) == Some(p + 30)
    ensures s[p + 30..p + 41] == videoId
  {
    EmbedUrlParts(s, p, videoId);
    IdFollows(s, p + 30, videoId);
    EmbedPrefix(s, p + 24);
    HostSteps(s, p, p + 30);
  }

  /** The pieces of an embed URL, each where it stands in the text. */
  lemma EmbedUrlParts(s: string, p: nat, videoId: string)
    requires StartsAt(s, p, EmbedUrl(videoId))
    ensures StartsAt(s, p, "https://") && StartsAt(s, p + 8, "www.")
    ensures StartsAt(s, p + 12, "youtube.com/") && StartsAt(s, p + 24, "embed/")
    ensures StartsAt(s, p + 30, videoId)
  {
    var rest := "embed/" + videoId;
    assert EmbedUrl(videoId) == "https://" + ("www." + ("youtube.com/" + rest));
    StartsAtSplit(s, p, "https://", "www." + ("youtube.com/" + rest));
    StartsAtSplit(s, p + 8, "www.", "youtube.com/" + rest);
    StartsAtSplit(s, p + 12, "youtube.com/", rest);
    StartsAtSplit(s, p + 24, "embed/", videoId);
  }

  /** `https://www.youtube.com/` and then a path whose id starts at `q`: the
      match at `p` takes the scheme, the `www.` and the host in turn. */
  lemma HostSteps(s: string, p: nat, q: nat)
    requires StartsAt(s, p, "https://") && StartsAt(s, p + 8, "www.")
    requires StartsAt(s, p + 12, "youtube.com/") && AfterSlash(s, p + 24) == Some(q)
    ensures MatchAt(s, p) == Some(q)
  {
    assert AfterWww(s, p + 12) == Some(q);
    assert AfterScheme(s, p + 8) == Some(q);
  }

  /** A well-formed id written at `q` is an id there. */
  lemma IdFollows(s: string, q: nat, videoId: string)
    requires |videoId| == IdLength && forall k :: 0 <= k < IdLength ==> IsIdChar(videoId[k])
    requires StartsAt(s, q, videoId)
    ensures IdAt(s, q)
  {
    forall k | q <= k < q + IdLength ensures IsIdChar(s[k]) {
      assert s[q..q + IdLength][k - q] == s[k];
    }
  }

  /** `embed/` followed by an id: the id is taken after the prefix, since
      `watch?v=` cannot start where `embed/` does. */
  lemma EmbedPrefix(s: string, q: nat)
    requires StartsAt(s, q, "embed/") && IdAt(s, q + 6)
    ensures AfterSlash(s, q) == Some(q + 6)
  {
    assert !StartsAt(s, q, "watch?v=") by {
      assert s[q..q + 6][0] == s[q];
    }
  }

  /** A text that holds `a + b` at `p` holds `a` there and `b` right after it. */
  lemma StartsAtSplit(s: string, p: nat, a: string, b: string)
    requires StartsAt(s, p, a + b)
    ensures StartsAt(s, p, a) && StartsAt(s, p + |a|, b)
  {
    SubSlice(s, p, |a| + |b|, 0, |a|);
    SubSlice(s, p, |a| + |b|, |a|, |a| + |b|);
    assert (a + b)[0..|a|] == a && (a + b)[|a|..|a| + |b|] == b;
  }

  lemma SubSlice(s: string, p: nat, n: nat, i: nat, j: nat)
    requires p + n <= |s| && i <= j <= n
    ensures s[p..p + n][i..j] == s[p + i..p + j]
  {
    var t := s[p..p + n];
    assert |t[i..j]| == j - i;
    assert forall k :: 0 <= k < j - i ==> t[i..j][k] == s[p + i + k];
  }

  /** The id of an embed URL built for a well-formed id is that id. */
  lemma EmbedUrlRoundTrip(videoId: string)
    requires |videoId| == IdLength && forall k :: 0 <= k < IdLength ==> IsIdChar(videoId[k])
    ensures ExtractVideoId(EmbedUrl(videoId)) == Some(videoId)
  {
    var s := EmbedUrl(videoId);
    assert s[0..41] == s;
    EmbedUrlMatches(s, 0, videoId);
  }

  /** The iframe code for a well-formed id gives that id back: nothing in the
      markup before the URL can start a match. */
  lemma EmbedCodeRoundTrip(videoId: string)
    requires |videoId| == IdLength && forall k :: 0 <= k < IdLength ==> IsIdChar(videoId[k])
    ensures ExtractVideoId(EmbedCode(videoId)) == Some(videoId)
  {
    var s := EmbedCode(videoId);
    var h := |IframeHead|;
    assert s[h..h + 41] == EmbedUrl(videoId);
    IframeHeadNoMatch(s, EmbedUrl(videoId) + IframeTail);
    SearchSkips(s, 0, h);
    EmbedUrlMatches(s, h, videoId);
  }

  /** No match starts inside the iframe markup that precedes an embed URL:
      the first `y` of the text is twelve characters into the URL. */
  lemma IframeHeadNoMatch(s: string, rest: string)
    requires s == IframeHead + rest && |rest| >= 12 && rest[..12] == "https://www."
    ensures forall q :: 0 <= q < |IframeHead| ==> MatchAt(s, q).None?
  {
    var h := |IframeHead|;
    assert h == 38;
    assert forall k :: 0 <= k < h + 12 ==> s[k] != 'y' by {
      forall k | 0 <= k < h + 12 ensures s[k] != 'y' {
        if k < h {
          assert s[k] == IframeHead[k];
        } else {
          assert s[k] == rest[..12][k - h];
        }
      }
    }
    forall q | 0 <= q < h ensures MatchAt(s, q).None? {
      if MatchAt(s, q).Some? {
        MatchNeedsY(s, q);
        assert false;
      }
    }
  }

  /** The search stops at the first eleven id characters: whatever follows a
      longer id, a short link yields the first eleven. */
  lemma ShortLinkTakesFirstEleven(id: string, rest: string)
    requires |id| == IdLength && forall k :: 0 <= k < IdLength ==> IsIdChar(id[k])
    ensures ExtractVideoId("youtu.be/" + id + rest) == Some(id)
  {
    var s := "youtu.be/" + id + rest;
    assert s[..9] == "youtu.be/";
    assert !StartsAt(s, 0, "https://") by { assert s[0] == 'y'; }
    assert !StartsAt(s, 0, "http://") by { assert s[0] == 'y'; }
    assert !StartsAt(s, 0, "www.") by { assert s[0] == 'y'; }
    assert !StartsAt(s, 0, "youtube.com/") by { assert s[5] == '.'; }
    assert StartsAt(s, 0, "youtu.be/");
    assert !StartsAt(s, 9, "watch?v=") by { assert IsIdChar(s[14]); }
    assert !StartsAt(s, 9, "embed/") by { assert IsIdChar(s[14]); }
    assert !StartsAt(s, 9, "v/") by { assert IsIdChar(s[10]); }
    assert IdAt(s, 9);
    assert MatchAt(s, 0) == Some(9);
    assert s[9..20] == id;
  }
}
