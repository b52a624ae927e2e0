/** `combine`: laying the utterances of a translation end to end on one
    track per speaker, with silence on every other speaker's track while one
    speaks, a metadata entry per utterance on a running clock, the tracks
    mixed down into one waveform, and that waveform scaled to its peak.
    Samples are exact reals; seconds are sample counts over the sample rate. */
module Timeline {
  import opened Wrappers

  /** A sample rate as read from an audio file: positive. */
  type Rate = r: int | r > 0 witness 1

  /** An utterance as `combine` sees it: its speaker, its text, and the
      samples and sample rate read back from its audio file. */
  datatype Clip = Clip(speakerId: int, speakerName: string, text: string, samples: seq<real>, sampleRate: Rate)

  /** One entry of `metadata.json`. */
  datatype Meta = Meta(startSec: real, endSec: real, speakerId: int, speakerName: string, text: string)

  /** The mixed-down waveform scaled by its peak, or, when every sample is
      zero, the all-NaN array that `0 / 0` leaves behind. */
  datatype Levels = Scaled(samples: seq<real>) | NotANumber(length: nat)

  /** What `combine` builds before writing files: the speaker tracks, in the
      order their keys entered the dictionary, the metadata, the mix and its
      normalisation. */
  datatype Combined = Combined(order: seq<int>, tracks: map<int, seq<real>>, metadata: seq<Meta>,
                               mix: seq<real>, levels: Levels)

  function Zeros(n: nat): (r: seq<real>)
    ensures |r| == n && forall k :: 0 <= k < n ==> r[k] == 0.0
  {
    seq(n, k => 0.0)
  }

  /** Element-wise `a + b` of two arrays of one shape. */
  function Add(a: seq<real>, b: seq<real>): (r: seq<real>)
    requires |a| == |b|
    ensures |r| == |a| && forall k :: 0 <= k < |r| ==> r[k] == a[k] + b[k]
  {
    seq(|a|, k requires 0 <= k < |a| => a[k] + b[k])
  }

  /** `n_sample / sample_rate`. */
  function Duration(c: Clip): real
  {
    |c.samples| as real / c.sampleRate as real
  }

  /** The seconds the clips take end to end. */
  function Elapsed(cs: seq<Clip>): real
  {
    if cs == [] then 0.0 else Elapsed(cs[..|cs| - 1]) + Duration(cs[|cs| - 1])
  }

  function TotalSamples(cs: seq<Clip>): nat
  {
    if cs == [] then 0 else TotalSamples(cs[..|cs| - 1]) + |cs[|cs| - 1].samples|
  }

  /** The utterance waveforms one after the other, in program order. */
  function Concat(cs: seq<Clip>): (r: seq<real>)
    ensures |r| == TotalSamples(cs)
  {
    if cs == [] then [] else Concat(cs[..|cs| - 1]) + cs[|cs| - 1].samples
  }

  /** The waveforms end to end are empty exactly when every one of them is. */
  lemma {:induction false} ConcatEmpty(cs: seq<Clip>)
    ensures Concat(cs) == [] <==> forall k :: 0 <= k < |cs| ==> cs[k].samples == []
  {
    if cs != [] {
      var init := cs[..|cs| - 1];
      ConcatEmpty(init);
      assert forall k :: 0 <= k < |init| ==> init[k] == cs[k];
    }
  }

  function SpeakerIds(cs: seq<Clip>): set<int>
  {
    set k | 0 <= k < |cs| :: cs[k].speakerId
  }

  /** A clip's samples where its speaker is one of `owners`, silence of the
      same length elsewhere. */
  function Part(c: Clip, owners: set<int>): (r: seq<real>)
    ensures |r| == |c.samples|
  {
    if c.speakerId in owners then c.samples else Zeros(|c.samples|)
  }

  /** The clips laid end to end with only the speakers in `owners` audible.
      With a single owner this is that speaker's track. */
  function Masked(cs: seq<Clip>, owners: set<int>): (r: seq<real>)
    ensures |r| == TotalSamples(cs)
  {
    if cs == [] then [] else Masked(cs[..|cs| - 1], owners) + Part(cs[|cs| - 1], owners)
  }

  /** The track of speaker `s`. */
  function TrackOf(cs: seq<Clip>, s: int): (r: seq<real>)
    ensures |r| == TotalSamples(cs)
  {
    Masked(cs, {s})
  }

  /** The metadata entries for the clips, on a clock that starts at zero and
      advances by each clip's duration. */
  function MetadataOf(cs: seq<Clip>): (r: seq<Meta>)
    ensures |r| == |cs|
  {
    if cs == [] then []
    else
      var init, c := cs[..|cs| - 1], cs[|cs| - 1];
      MetadataOf(init) + [Meta(Elapsed(init), Elapsed(init) + Duration(c), c.speakerId, c.speakerName, c.text)]
  }

  /** The sum of the channels, adding one after the other onto silence. */
  function MixOf(chs: seq<seq<real>>, n: nat): (r: seq<real>)
    requires forall k :: 0 <= k < |chs| ==> |chs[k]| == n
    ensures |r| == n
  {
    if chs == [] then Zeros(n) else Add(MixOf(chs[..|chs| - 1], n), chs[|chs| - 1])
  }

  /** `list(project_audio_tracks.values())` for the keys in `order`. */
  function Channels(cs: seq<Clip>, order: seq<int>): (r: seq<seq<real>>)
    ensures |r| == |order| && forall k :: 0 <= k < |r| ==> r[k] == TrackOf(cs, order[k])
  {
    seq(|order|, k requires 0 <= k < |order| => TrackOf(cs, order[k]))
  }

  function Members(order: seq<int>): set<int>
  {
    set x | x in order
  }

  predicate Distinct(order: seq<int>)
  {
    forall i, j :: 0 <= i < j < |order| ==> order[i] != order[j]
  }

  function Abs(x: real): real
  {
    if x < 0.0 then -x else x
  }

  /** `np.abs(xs).max()`. */
  function Peak(xs: seq<real>): (p: real)
    requires xs != []
    ensures forall k :: 0 <= k < |xs| ==> Abs(xs[k]) <= p
    ensures exists k :: 0 <= k < |xs| && Abs(xs[k]) == p
  {
    if |xs| == 1 then Abs(xs[0])
    else
      var p := Peak(xs[..|xs| - 1]);
      var q := Abs(xs[|xs| - 1]);
      assert forall k :: 0 <= k < |xs| - 1 ==> xs[..|xs| - 1][k] == xs[k];
      if q > p then q else p
  }

  /** Element-wise `xs / p`. */
  function Scale(xs: seq<real>, p: real): (r: seq<real>)
    requires p != 0.0
    ensures |r| == |xs| && forall k :: 0 <= k < |xs| ==> r[k] == xs[k] / p
  {
    seq(|xs|, k requires 0 <= k < |xs| => xs[k] / p)
  }

  /** `xs /= np.abs(xs).max()`: `max` of an empty array raises `ValueError`,
      and nothing guards against a peak of zero. */
  function PeakNormalize(xs: seq<real>): (r: Result<Levels>)
    ensures r.Err? <==> xs == []
    ensures r.Err? ==> r.error == ValueError
  {
    if xs == [] then Err(ValueError)
    else
      var p := Peak(xs);
      if p == 0.0 then Ok(NotANumber(|xs|))
      else Ok(Scaled(Scale(xs, p)))
  }

  /** A sample over a positive peak it does not exceed lies in [-1, 1], at
      an end exactly when the sample reaches the peak. */
  lemma DivByPeak(x: real, p: real)
    requires p > 0.0 && Abs(x) <= p
    ensures (x / p) * p == x && -1.0 <= x / p <= 1.0
    ensures Abs(x) == p ==> Abs(x / p) == 1.0
  {
    var y := x / p;
    assert y * p == x;
    assert (1.0 - y) * p == p - x;
    assert (1.0 + y) * p == p + x;
    SignOfFactor(1.0 - y, p);
    SignOfFactor(1.0 + y, p);
    if x == p {
      assert p / p == 1.0;
    } else if x == -p {
      assert (-p) / p == -1.0;
    }
  }

  lemma SignOfFactor(a: real, p: real)
    requires p > 0.0 && a * p >= 0.0
    ensures a >= 0.0
  {
  }

  /** Normalisation yields NaN exactly on all-silent input; otherwise every
      sample is the input sample over the peak, within [-1, 1], and some
      sample reaches full scale. */
  lemma NormalizedLevels(xs: seq<real>)
    requires xs != []
    ensures PeakNormalize(xs).value.NotANumber? <==> forall k :: 0 <= k < |xs| ==> xs[k] == 0.0
    ensures PeakNormalize(xs).value.Scaled? ==>
      var ys := PeakNormalize(xs).value.samples;
      && |ys| == |xs|
      && (forall k :: 0 <= k < |xs| ==> ys[k] == xs[k] / Peak(xs) && -1.0 <= ys[k] <= 1.0)
      && (exists k :: 0 <= k < |xs| && Abs(ys[k]) == 1.0)
  {
    var p := Peak(xs);
    if p == 0.0 {
      forall k | 0 <= k < |xs| ensures xs[k] == 0.0 {
        assert Abs(xs[k]) <= p;
      }
    } else {
      var ys := PeakNormalize(xs).value.samples;
      var j :| 0 <= j < |xs| && Abs(xs[j]) == p;
      assert xs[j] != 0.0;
      assert ys == Scale(xs, p);
      forall k | 0 <= k < |xs| ensures ys[k] == xs[k] / p && -1.0 <= ys[k] <= 1.0 {
        assert ys[k] == xs[k] / p;
        DivByPeak(xs[k], p);
      }
      DivByPeak(xs[j], p);
    }
  }

  /** `project_audio_tracks[k].extend(xs)` on a `defaultdict(list)` whose
      keys entered in the order `order`. */
  function Extend(tracks: map<int, seq<real>>, order: seq<int>, k: int, xs: seq<real>): (r: (map<int, seq<real>>, seq<int>))
    ensures r.0.Keys == tracks.Keys + {k}
    ensures r.0[k] == (if k in tracks then tracks[k] else []) + xs
    ensures forall j :: j in tracks && j != k ==> r.0[j] == tracks[j]
    ensures r.1 == if k in tracks then order else order + [k]
  {
    if k in tracks then (tracks[k := tracks[k] + xs], order) else (tracks[k := xs], order + [k])
  }

  /** One more clip adds its entry to the metadata, its duration to the
      clock and its part to every track. */
  lemma MetaStep(cs: seq<Clip>, i: nat)
    requires i < |cs|
    ensures MetadataOf(cs[..i + 1]) == MetadataOf(cs[..i])
      + [Meta(Elapsed(cs[..i]), Elapsed(cs[..i]) + Duration(cs[i]), cs[i].speakerId, cs[i].speakerName, cs[i].text)]
    ensures Elapsed(cs[..i + 1]) == Elapsed(cs[..i]) + Duration(cs[i])
  {
    assert cs[..i + 1][..i] == cs[..i] && cs[..i + 1][i] == cs[i];
  }

  /** One more clip extends speaker `s`'s track by the clip's samples when
      the clip is `s`'s, and by as many zeros otherwise. */
  lemma TrackStep(cs: seq<Clip>, i: nat, s: int)
    requires i < |cs|
    ensures TrackOf(cs[..i + 1], s) == TrackOf(cs[..i], s)
      + (if s == cs[i].speakerId then cs[i].samples else Zeros(|cs[i].samples|))
  {
    assert cs[..i + 1][..i] == cs[..i] && cs[..i + 1][i] == cs[i];
  }

  function Get(tracks: map<int, seq<real>>, k: int): seq<real>
  {
    if k in tracks then tracks[k] else []
  }

  /** The key order lists each key of the tracks exactly once. */
  ghost predicate KeyOrder(tracks: map<int, seq<real>>, order: seq<int>)
  {
    Distinct(order) && forall s :: s in order <==> s in tracks
  }

  /** The inner loop of lines 265-266: every speaker in `others` gets
      `n` zeros appended to its track, created empty where missing. */
  method SilenceOthers(tracks: map<int, seq<real>>, order: seq<int>, others: set<int>, n: nat)
    returns (tracks': map<int, seq<real>>, order': seq<int>)
    requires KeyOrder(tracks, order)
    ensures KeyOrder(tracks', order')
    ensures tracks'.Keys == tracks.Keys + others
    ensures forall s :: s in tracks' ==> tracks'[s] == if s in others then Get(tracks, s) + Zeros(n) else tracks[s]
  {
    tracks', order' := tracks, order;
    var rest := others;
    while rest != {}
      invariant KeyOrder(tracks', order') && Silenced(tracks, others, n, tracks', rest)
      decreases rest
    {
      SomeMember(rest);
      var o :| o in rest;
      SilenceStep(tracks, others, n, tracks', order', rest, o);
      var ext := Extend(tracks', order', o, Zeros(n));
      tracks', order' := ext.0, ext.1;
      rest := rest - {o};
    }
  }

  /** Where the loop of `SilenceOthers` stands with `rest` still to visit:
      the visited speakers have their zeros, the others are untouched. */
  ghost predicate Silenced(tracks: map<int, seq<real>>, others: set<int>, n: nat, t: map<int, seq<real>>, rest: set<int>)
  {
    && rest <= others
    && t.Keys == tracks.Keys + (others - rest)
    && forall s :: s in t ==> t[s] == if s in others - rest then Get(tracks, s) + Zeros(n) else tracks[s]
  }

  /** One turn of the loop of `SilenceOthers` keeps its invariant. */
  lemma SilenceStep(tracks: map<int, seq<real>>, others: set<int>, n: nat,
                    t: map<int, seq<real>>, order: seq<int>, rest: set<int>, o: int)
    requires KeyOrder(t, order) && Silenced(tracks, others, n, t, rest) && o in rest
    ensures KeyOrder(Extend(t, order, o, Zeros(n)).0, Extend(t, order, o, Zeros(n)).1)
    ensures Silenced(tracks, others, n, Extend(t, order, o, Zeros(n)).0, rest - {o})
  {
    ExtendKeepsOrder(t, order, o, Zeros(n));
    var t' := Extend(t, order, o, Zeros(n)).0;
    var done := others - (rest - {o});
    assert t'.Keys == tracks.Keys + done;
    assert Get(t, o) == Get(tracks, o);
    forall s | s in t' ensures t'[s] == if s in done then Get(tracks, s) + Zeros(n) else tracks[s] {
      if s != o {
        assert t'[s] == t[s];
      }
    }
  }

  /** A non-empty set has a member for a `for` loop over it to visit next. */
  lemma SomeMember(s: set<int>)
    requires s != {}
    ensures exists x :: x in s
  {
    if forall x :: x !in s {
      assert false;
    }
  }

  /** Lines 285-288: the first channel, with every further channel added on. */
  method MixDown(chs: seq<seq<real>>, n: nat) returns (mix: seq<real>)
    requires chs != [] && forall k :: 0 <= k < |chs| ==> |chs[k]| == n
    ensures mix == MixOf(chs, n)
  {
    mix := chs[0];
    assert mix == MixOf(chs[..1], n);
    var k := 1;
    while k < |chs|
      invariant 1 <= k <= |chs|
      invariant mix == MixOf(chs[..k], n)
    {
      assert chs[..k + 1][..k] == chs[..k];
      mix := Add(mix, chs[k]);
      k := k + 1;
    }
    assert chs[..|chs|] == chs;
  }

  /** The tracks and their key order once the first `i` clips are laid
      down: each speaker met so far has a track holding those clips, and
      from the first clip on every speaker of the project has one. */
  ghost predicate Laid(tracks: map<int, seq<real>>, order: seq<int>, clips: seq<Clip>, i: nat)
    requires i <= |clips|
  {
    && KeyOrder(tracks, order)
    && tracks.Keys == (if i == 0 then {} else SpeakerIds(clips))
    && forall s :: s in tracks ==> tracks[s] == TrackOf(clips[..i], s)
  }

  /** One turn of the loop of lines 257-266 on the tracks: the clip's
      samples onto its speaker's track and as many zeros onto every other
      speaker's track. */
  method PlaceClip(tracks: map<int, seq<real>>, order: seq<int>, clips: seq<Clip>, i: nat)
    returns (tracks': map<int, seq<real>>, order': seq<int>)
    requires i < |clips| && Laid(tracks, order, clips, i)
    ensures Laid(tracks', order', clips, i + 1)
  {
    var c := clips[i];
    var o, n := c.speakerId, |c.samples|;
    var ext := Extend(tracks, order, o, c.samples);
    ExtendKeepsOrder(tracks, order, o, c.samples);
    tracks', order' := SilenceOthers(ext.0, ext.1, SpeakerIds(clips) - {o}, n);
    PlaceStep(tracks, order, clips, i, tracks');
  }

  /** The tracks after extending the clip's speaker and silencing all the
      other speakers hold the clips up to `i`. */
  lemma PlaceStep(tracks: map<int, seq<real>>, order: seq<int>, clips: seq<Clip>, i: nat, tracks': map<int, seq<real>>)
    requires i < |clips| && Laid(tracks, order, clips, i)
    requires var c := clips[i]; var t1 := Extend(tracks, order, c.speakerId, c.samples).0;
      var others := SpeakerIds(clips) - {c.speakerId};
      && tracks'.Keys == t1.Keys + others
      && forall s :: s in tracks' ==> tracks'[s] == if s in others then Get(t1, s) + Zeros(|c.samples|) else t1[s]
    ensures tracks'.Keys == SpeakerIds(clips)
    ensures forall s :: s in tracks' ==> tracks'[s] == TrackOf(clips[..i + 1], s)
  {
    var c := clips[i];
    var o, n := c.speakerId, |c.samples|;
    var t1 := Extend(tracks, order, o, c.samples).0;
    var others := SpeakerIds(clips) - {o};
    assert o in SpeakerIds(clips);
    KeysAfter(tracks.Keys, SpeakerIds(clips), o, t1.Keys, tracks'.Keys);
    TracksSoFar(tracks, clips, i);
    forall s | s in tracks' ensures tracks'[s] == TrackOf(clips[..i + 1], s) {
      PlaceOne(tracks, order, clips, i, s, tracks'[s]);
    }
  }

  /** Before the clip the tracks were none or all of the speakers; after
      it, with the clip's speaker and all the others added, they are all. */
  lemma KeysAfter(k0: set<int>, all: set<int>, o: int, k1: set<int>, k2: set<int>)
    requires (k0 == {} || k0 == all) && o in all
    requires k1 == k0 + {o} && k2 == k1 + (all - {o})
    ensures k2 == all
  {
  }

  /** The same for one speaker of the project. */
  lemma PlaceOne(tracks: map<int, seq<real>>, order: seq<int>, clips: seq<Clip>, i: nat, s: int, after: seq<real>)
    requires i < |clips| && s in SpeakerIds(clips)
    requires Get(tracks, s) == TrackOf(clips[..i], s)
    requires var c := clips[i]; var t1 := Extend(tracks, order, c.speakerId, c.samples).0;
      after == if s != c.speakerId then Get(t1, s) + Zeros(|c.samples|) else t1[s]
    ensures after == TrackOf(clips[..i + 1], s)
  {
    var c := clips[i];
    var t1 := Extend(tracks, order, c.speakerId, c.samples).0;
    assert Get(t1, s) == if s == c.speakerId then Get(tracks, s) + c.samples else Get(tracks, s);
    PlacedTrack(clips, i, s, Get(tracks, s), after);
  }

  /** A track that held the clips before clip `i`, extended by the clip's
      samples or by its length in zeros as the clip is the speaker's or not,
      holds the clips up to `i`. */
  lemma PlacedTrack(clips: seq<Clip>, i: nat, s: int, before: seq<real>, after: seq<real>)
    requires i < |clips| && before == TrackOf(clips[..i], s)
    requires after == before + (if s == clips[i].speakerId then clips[i].samples else Zeros(|clips[i].samples|))
    ensures after == TrackOf(clips[..i + 1], s)
  {
    TrackStep(clips, i, s);
  }

  /** Before clip `i` every speaker's track, present or not yet created,
      holds what the clips before it lay down. */
  lemma TracksSoFar(tracks: map<int, seq<real>>, clips: seq<Clip>, i: nat)
    requires i < |clips|
    requires tracks.Keys == if i == 0 then {} else SpeakerIds(clips)
    requires forall s :: s in tracks ==> tracks[s] == TrackOf(clips[..i], s)
    ensures forall s :: s in SpeakerIds(clips) ==> Get(tracks, s) == TrackOf(clips[..i], s)
  {
    assert clips[..0] == [];
  }

  /** Extending a track keeps the key order a list of the keys, each once. */
  lemma ExtendKeepsOrder(tracks: map<int, seq<real>>, order: seq<int>, k: int, xs: seq<real>)
    requires KeyOrder(tracks, order)
    ensures KeyOrder(Extend(tracks, order, k, xs).0, Extend(tracks, order, k, xs).1)
  {
  }

  /** `combine` up to writing files: the tracks, the metadata, the mix and
      its normalisation, or the `IndexError` of `project.utterances[0]`
      (line 250) on a translation without utterances. */
  method Combine(clips: seq<Clip>) returns (r: Result<Combined>)
    ensures clips == [] ==> r == Err(IndexError)
    ensures clips != [] ==> (r == Err(ValueError) <==> Concat(clips) == []) && (r.Ok? <==> Concat(clips) != [])
    ensures r.Ok? ==>
      var c := r.value;
      && Distinct(c.order)
      && (forall s :: s in c.order <==> s in SpeakerIds(clips))
      && c.tracks.Keys == SpeakerIds(clips)
      && (forall s :: s in c.tracks ==> c.tracks[s] == TrackOf(clips, s))
      && c.metadata == MetadataOf(clips)
      && c.mix == Concat(clips)
      && Ok(c.levels) == PeakNormalize(c.mix)
  {
    if |clips| == 0 {
      return Err(IndexError);
    }
    var tracks, order, metadata := LayTracks(clips);
    assert clips[0].speakerId in order;
    var total := TotalSamples(clips);
    var chs := Channels(clips, order);
    var mix := MixDown(chs, total);
    MixIsConcat(clips, order);
    var levels := PeakNormalize(mix);
    if levels.Err? {
      return Err(levels.error);
    }
    return Ok(Combined(order, tracks, metadata, mix, levels.value));
  }

  /** The loop of `combine_audio`: each clip in turn extends its speaker's
      track, silences the others for as long, and gets its metadata line. */
  method LayTracks(clips: seq<Clip>) returns (tracks: map<int, seq<real>>, order: seq<int>, metadata: seq<Meta>)
    requires clips != []
    ensures Distinct(order) && (forall s :: s in order <==> s in SpeakerIds(clips))
    ensures tracks.Keys == SpeakerIds(clips)
    ensures forall s :: s in tracks ==> tracks[s] == TrackOf(clips, s)
    ensures metadata == MetadataOf(clips)
  {
    tracks, order, metadata := map[], [], [];
    var startSec := 0.0;
    var i := 0;
    while i < |clips|
      invariant 0 <= i <= |clips| && Laid(tracks, order, clips, i)
      invariant metadata == MetadataOf(clips[..i]) && startSec == Elapsed(clips[..i])
    {
      var c := clips[i];
      tracks, order := PlaceClip(tracks, order, clips, i);
      MetaStep(clips, i);
      var endSec := startSec + Duration(c);
      metadata := metadata + [Meta(startSec, endSec, c.speakerId, c.speakerName, c.text)];
      startSec := endSec;
      i := i + 1;
    }
    assert clips[..|clips|] == clips;
  }

  // ---- What the tracks hold ----

  /** All-silent clips, or clips of no owner, lay down silence. */
  lemma {:induction false} MaskedNone(cs: seq<Clip>)
    ensures Masked(cs, {}) == Zeros(TotalSamples(cs))
  {
    if cs != [] {
      MaskedNone(cs[..|cs| - 1]);
    }
  }

  /** With every speaker of the clips audible, the masked clips are the
      plain concatenation. */
  lemma {:induction false} MaskedAll(cs: seq<Clip>, owners: set<int>)
    requires SpeakerIds(cs) <= owners
    ensures Masked(cs, owners) == Concat(cs)
  {
    if cs != [] {
      var init := cs[..|cs| - 1];
      assert SpeakerIds(init) <= SpeakerIds(cs) by {
        forall s | s in SpeakerIds(init) ensures s in SpeakerIds(cs) {
          var k :| 0 <= k < |init| && init[k].speakerId == s;
          assert cs[k] == init[k];
        }
      }
      MaskedAll(init, owners);
      assert cs[|cs| - 1].speakerId in SpeakerIds(cs);
    }
  }

  /** Adding one more speaker's track to the masked clips of a set of
      speakers without it makes that speaker audible too. */
  lemma {:induction false} AddTrack(cs: seq<Clip>, owners: set<int>, s: int)
    requires s !in owners
    ensures Add(Masked(cs, owners), TrackOf(cs, s)) == Masked(cs, owners + {s})
  {
    if cs != [] {
      var init, c := cs[..|cs| - 1], cs[|cs| - 1];
      AddTrack(init, owners, s);
      var a, b := Masked(init, owners), TrackOf(init, s);
      var pa, pb := Part(c, owners), Part(c, {s});
      AddConcat(a, pa, b, pb);
      assert Add(pa, pb) == Part(c, owners + {s});
    }
  }

  lemma AddConcat(a: seq<real>, pa: seq<real>, b: seq<real>, pb: seq<real>)
    requires |a| == |b| && |pa| == |pb|
    ensures Add(a + pa, b + pb) == Add(a, b) + Add(pa, pb)
  {
  }

  /** Mixing the tracks of distinct speakers masks in exactly those speakers. */
  lemma {:induction false} MixChannels(cs: seq<Clip>, order: seq<int>)
    requires Distinct(order)
    ensures MixOf(Channels(cs, order), TotalSamples(cs)) == Masked(cs, Members(order))
  {
    var chs := Channels(cs, order);
    var n := TotalSamples(cs);
    if order == [] {
      MaskedNone(cs);
      assert Members(order) == {} && chs == [];
    } else {
      var m := |order| - 1;
      var init := order[..m];
      MixChannels(cs, init);
      assert chs[..m] == Channels(cs, init);
      var owners := Members(init);
      assert order[m] !in owners;
      AddTrack(cs, owners, order[m]);
      assert order == init + [order[m]];
      assert Members(order) == owners + {order[m]};
    }
  }

  /** Before normalisation the sum of all speaker tracks is the utterance
      waveforms played one after the other. */
  lemma MixIsConcat(cs: seq<Clip>, order: seq<int>)
    requires Distinct(order)
    requires forall s :: s in order <==> s in SpeakerIds(cs)
    ensures MixOf(Channels(cs, order), TotalSamples(cs)) == Concat(cs)
  {
    MixChannels(cs, order);
    var owners := Members(order);
    assert SpeakerIds(cs) <= owners by {
      forall s | s in SpeakerIds(cs) ensures s in owners {
      }
    }
    MaskedAll(cs, owners);
  }

  /** Over the samples of clip `i` (from the total of the clips before it),
      a track holds that clip's samples when it is the clip's speaker's
      track and zeros otherwise. */
  lemma {:induction false} TrackAt(cs: seq<Clip>, s: int, i: nat)
    requires i < |cs|
    ensures TotalSamples(cs[..i]) + |cs[i].samples| <= TotalSamples(cs)
    ensures TrackOf(cs, s)[TotalSamples(cs[..i])..TotalSamples(cs[..i]) + |cs[i].samples|]
         == if cs[i].speakerId == s then cs[i].samples else Zeros(|cs[i].samples|)
  {
    var init := cs[..|cs| - 1];
    if i == |cs| - 1 {
      assert cs[..i] == init;
    } else {
      TrackAt(init, s, i);
      assert init[..i] == cs[..i] && init[i] == cs[i];
    }
  }

  // ---- The metadata ----

  /** One entry per clip, in order, carrying its speaker and text; the first
      starts at zero, each starts where the previous ended, and each lasts its
      clip's samples over its sample rate. */
  lemma {:induction false} MetadataChain(cs: seq<Clip>)
    ensures forall i :: 0 <= i < |cs| ==>
      && MetadataOf(cs)[i].speakerId == cs[i].speakerId && MetadataOf(cs)[i].speakerName == cs[i].speakerName
      && MetadataOf(cs)[i].text == cs[i].text
      && MetadataOf(cs)[i].endSec == MetadataOf(cs)[i].startSec + |cs[i].samples| as real / cs[i].sampleRate as real
    ensures cs != [] ==> MetadataOf(cs)[0].startSec == 0.0
    ensures forall i, j :: 0 <= i && j == i + 1 < |cs| ==> MetadataOf(cs)[j].startSec == MetadataOf(cs)[i].endSec
    ensures cs != [] ==> MetadataOf(cs)[|cs| - 1].endSec == Elapsed(cs)
  {
    if cs != [] {
      var init := cs[..|cs| - 1];
      MetadataChain(init);
      var m, mi := MetadataOf(cs), MetadataOf(init);
      assert m == mi + [m[|cs| - 1]];
      forall i | 0 <= i < |cs| - 1 ensures m[i] == mi[i] && cs[i] == init[i] {
      }
      if |init| > 0 {
        assert m[|cs| - 1].startSec == Elapsed(init) == mi[|init| - 1].endSec;
      }
    }
  }
}
