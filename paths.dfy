/** Where each artifact of a user's projects lives on disk: the naming rules of
    the ORM models, without the directory creation they perform on the way. */
module Paths {
  import opened Wrappers
  import opened Text

  /** A POSIX `pathlib` path: whether it starts at the root, and its
      components, none of them empty, `.` or holding a `/`. */
  datatype Path = Path(absolute: bool, parts: seq<string>)

  /** What `pathlib` keeps as one component. */
  predicate IsComponent(name: string)
  {
    name != "" && name != "." && '/' !in name
  }

  /** The pieces between separators, without the empty and `.` ones. */
  function Kept(pieces: seq<string>): (r: seq<string>)
    ensures |r| <= |pieces|
    ensures forall k :: 0 <= k < |r| ==> r[k] in pieces && r[k] != "" && r[k] != "."
  {
    if pieces == [] then []
    else if pieces[0] == "" || pieces[0] == "." then Kept(pieces[1..])
    else [pieces[0]] + Kept(pieces[1..])
  }

  /** The components `pathlib` parses out of a string. */
  function Components(name: string): (r: seq<string>)
    ensures forall k :: 0 <= k < |r| ==> IsComponent(r[k])
  {
    Kept(Split(name, '/'))
  }

  /** `p.joinpath(name)`: the name is split on `/` and its empty and `.`
      pieces dropped; a name starting with `/` replaces the whole path. */
  function Join(p: Path, name: string): (r: Path)
    ensures IsComponent(name) ==> r == Path(p.absolute, p.parts + [name])
    ensures name == [] ==> r == p
  {
    if name != [] && name[0] == '/' then Path(true, Components(name))
    else
      ComponentsOf(name);
      Path(p.absolute, p.parts + Components(name))
  }

  lemma ComponentsOf(name: string)
    ensures IsComponent(name) ==> Components(name) == [name]
    ensures name == [] ==> Components(name) == []
  {
    if IsComponent(name) {
      OneComponent(name);
    }
    if name == [] {
      assert Split(name, '/') == [""];
    }
  }

  /** `p.joinpath(c)` for a directory name the code spells out
      (`cross_projects`, `voices`), each of them one component. */
  function Child(p: Path, c: string): Path
  {
    Path(p.absolute, p.parts + [c])
  }

  /** A component parses as itself. */
  lemma OneComponent(name: string)
    requires IsComponent(name)
    ensures Components(name) == [name]
  {
    SplitNone(name, '/');
  }

  /** Two components with a separator between them parse as those two. */
  lemma TwoComponents(a: string, b: string)
    requires IsComponent(a) && IsComponent(b)
    ensures Components(a + "/" + b) == [a, b]
  {
    SplitFirst(a, '/', b);
    SplitNone(b, '/');
    assert Split(a + "/" + b, '/') == [a, b];
    assert [a, b][1..] == [b];
    assert Kept([b]) == [b];
  }

  /** `p.name`: the last component, or empty for a path without components. */
  function Name(p: Path): string
  {
    if p.parts == [] then "" else p.parts[|p.parts| - 1]
  }

  /** `p.parent`. */
  function Parent(p: Path): Path
  {
    if p.parts == [] then p else Path(p.absolute, p.parts[..|p.parts| - 1])
  }

  /** Where `name.suffix` starts: at the last '.', unless that dot is the first
      or the last character, in which case the name has no suffix. */
  function SuffixStart(name: string): (i: nat)
    ensures i <= |name|
    ensures i < |name| ==> 0 < i < |name| - 1 && name[i] == '.'
    ensures i < |name| ==> forall k :: i < k < |name| ==> name[k] != '.'
  {
    LastDotBefore(name, |name|)
  }

  function LastDotBefore(name: string, n: nat): (i: nat)
    requires n <= |name|
    requires forall k :: n <= k < |name| ==> name[k] != '.'
    ensures i <= |name|
    ensures i < |name| ==> 0 < i < |name| - 1 && name[i] == '.'
    ensures i < |name| ==> forall k :: i < k < |name| ==> name[k] != '.'
    decreases n
  {
    if n == 0 then |name|
    else if name[n - 1] == '.' then (if 0 < n - 1 < |name| - 1 then n - 1 else |name|)
    else LastDotBefore(name, n - 1)
  }

  /** `p.stem`: the name without its suffix. */
  function Stem(name: string): (r: string)
    ensures r == name[..SuffixStart(name)]
  {
    name[..SuffixStart(name)]
  }

  /** `p.with_suffix(ext)`: the final suffix of the name replaced by `ext`;
      pathlib raises `ValueError` for a path with an empty name. */
  function WithSuffix(p: Path, ext: string): (r: Result<Path>)
    ensures r.Err? <==> Name(p) == ""
    ensures r.Ok? ==> Parent(r.value) == Parent(p) && Name(r.value) == Stem(Name(p)) + ext
  {
    if Name(p) == "" then Err(ValueError)
    else Ok(Path(p.absolute, p.parts[..|p.parts| - 1] + [Stem(Name(p)) + ext]))
  }

  datatype User = User(id: int, name: string)
  datatype CrossProject = CrossProject(title: string, mediaName: string, owner: User)
  datatype Translation = Translation(id: int, lang: string, project: CrossProject)
  datatype Speaker = Speaker(name: string, project: CrossProject)
  datatype Utterance = Utterance(utteranceIdx: int, translation: Translation)

  function Zeros(k: int): (r: string)
    ensures |r| == if k < 0 then 0 else k
    ensures forall i :: 0 <= i < |r| ==> r[i] == '0'
  {
    seq(if k < 0 then 0 else k, _ => '0')
  }

  /** `f"{n:03}"`: the decimal digits zero-padded to a width of three, the
      sign (if any) counting toward the width. */
  function Pad3(n: int): string
  {
    var digits := NatToString(if n < 0 then -n else n);
    if n < 0 then "-" + Zeros(2 - |digits|) + digits else Zeros(3 - |digits|) + digits
  }

  /** `User.get_user_data_root`: `<data root>/<id:03>_<lower-cased name>`. */
  function UserDataRoot(dataRoot: Path, u: User): Path
  {
    Join(dataRoot, Pad3(u.id) + "_" + Lower(u.name))
  }

  /** `CrossProject.get_data_root`. */
  function ProjectDataRoot(dataRoot: Path, p: CrossProject): Path
  {
    Join(Child(UserDataRoot(dataRoot, p.owner), "cross_projects"), Strip(p.title))
  }

  /** `CrossProject.get_media_path`. */
  function MediaPath(dataRoot: Path, p: CrossProject): Path
  {
    Join(ProjectDataRoot(dataRoot, p), p.mediaName)
  }

  /** The extension `get_raw_wav_path` puts on the media name: a truthy
      sample rate (present and non-zero) is written into it. */
  function RawWavExt(sampleRate: Option<int>): string
  {
    if sampleRate.Some? && sampleRate.value != 0 then "." + IntToString(sampleRate.value) + ".wav" else ".wav"
  }

  /** `CrossProject.get_raw_wav_path(sample_rate)`. */
  function RawWavPath(dataRoot: Path, p: CrossProject, sampleRate: Option<int>): Result<Path>
  {
    WithSuffix(MediaPath(dataRoot, p), RawWavExt(sampleRate))
  }

  /** `CrossProject.get_vocals_wav_path`. */
  function VocalsWavPath(dataRoot: Path, p: CrossProject): Path
  {
    var media := MediaPath(dataRoot, p);
    Join(Parent(media), "htdemucs/" + Stem(Name(media)) + ".vocals.wav")
  }

  /** `Translation.get_data_root`. */
  function TranslationDataRoot(dataRoot: Path, t: Translation): Path
  {
    Join(ProjectDataRoot(dataRoot, t.project), "translation_" + IntToString(t.id))
  }

  /** `Translation.get_path`. */
  function TranslationPath(dataRoot: Path, t: Translation): Path
  {
    Join(TranslationDataRoot(dataRoot, t), "translation." + t.lang + ".txt")
  }

  /** `Speaker.get_speaker_data_root`. */
  function SpeakerDataRoot(dataRoot: Path, s: Speaker): Path
  {
    Join(Child(ProjectDataRoot(dataRoot, s.project), "voices"), Lower(s.name))
  }

  /** `Utterance.get_audio_path`. */
  function UtteranceAudioPath(dataRoot: Path, u: Utterance): Path
  {
    Join(TranslationDataRoot(dataRoot, u.translation), IntToString(u.utteranceIdx) + ".wav")
  }

  // ---------------------------------------------------------------------------
  // What the naming rules guarantee.

  lemma {:induction false} LeadingZerosValue(z: string, d: string)
    requires forall i :: 0 <= i < |z| ==> z[i] == '0'
    requires AllDigits(d)
    ensures AllDigits(z + d) && DigitsValue(z + d) == DigitsValue(d)
    decreases |d|
  {
    if d == [] {
      assert z + d == z;
      ZerosValue(z);
    } else {
      var s := z + d;
      assert s[..|s| - 1] == z + d[..|d| - 1];
      LeadingZerosValue(z, d[..|d| - 1]);
    }
  }

  lemma {:induction false} ZerosValue(z: string)
    requires forall i :: 0 <= i < |z| ==> z[i] == '0'
    ensures AllDigits(z) && DigitsValue(z) == 0
    decreases |z|
  {
    if z != [] { ZerosValue(z[..|z| - 1]); }
  }

  /** Python's `str(n)` holds no separator. */
  lemma IntNoSlash(n: int)
    ensures '/' !in IntToString(n)
  {
    if n < 0 {
      assert IntToString(n) == "-" + NatToString(-n);
    }
  }

  /** Lower-casing neither makes nor unmakes a component. */
  lemma LowerComponent(s: string)
    ensures IsComponent(Lower(s)) <==> IsComponent(s)
  {
    assert forall i :: 0 <= i < |s| ==> (Lower(s)[i] == '/' <==> s[i] == '/');
    if |s| == 1 {
      assert Lower(s) == [LowerChar(s[0])];
    }
  }

  /** A name without separator stays so after a join. */
  lemma NameAfterJoin(p: Path, name: string)
    requires '/' !in Name(p)
    ensures '/' !in Name(Join(p, name))
  {
    var c := Components(name);
    if !(name != [] && name[0] == '/') && c == [] {
      assert Join(p, name).parts == p.parts;
    }
  }

  /** A non-negative id zero-padded: at least three digits, spelling the id. */
  lemma PaddedId(id: nat)
    ensures var k := if |NatToString(id)| < 3 then 3 else |NatToString(id)|;
      |Pad3(id)| == k && AllDigits(Pad3(id)) && DigitsValue(Pad3(id)) == id
  {
    var digits := NatToString(id);
    LeadingZerosValue(Zeros(3 - |digits|), digits);
    NatToStringValue(id);
  }

  /** For a non-negative id, the user directory name is a run of at least
      three digits spelling the id, an underscore, then the lower-cased name;
      `joinpath` cuts it at every `/` of the name, so it is one component
      exactly when the name holds no `/`. */
  lemma UserDirName(dataRoot: Path, u: User)
    requires u.id >= 0
    ensures var dir := Pad3(u.id) + "_" + Lower(u.name);
            var k := if |NatToString(u.id)| < 3 then 3 else |NatToString(u.id)|;
            && k < |dir| && AllDigits(dir[..k]) && DigitsValue(dir[..k]) == u.id
            && dir[k] == '_' && dir[k + 1..] == Lower(u.name)
            && UserDataRoot(dataRoot, u) == Path(dataRoot.absolute, dataRoot.parts + Components(dir))
            && (IsComponent(dir) <==> '/' !in u.name)
            && ('/' !in u.name ==> UserDataRoot(dataRoot, u).parts == dataRoot.parts + [dir])
  {
    var pad, low := Pad3(u.id), Lower(u.name);
    PaddedId(u.id);
    var dir := pad + "_" + low;
    assert dir[..|pad|] == pad && dir[|pad|] == '_' && dir[|pad| + 1..] == low;
    assert dir[0] != '/' && dir != ".";
    assert '/' in dir <==> '/' in low by {
      assert forall i :: 0 <= i < |pad| ==> dir[i] != '/';
      assert forall i :: 0 <= i < |low| ==> dir[|pad| + 1 + i] == low[i];
    }
    assert '/' in low <==> '/' in u.name by {
      assert forall i :: 0 <= i < |u.name| ==> (low[i] == '/' <==> u.name[i] == '/');
    }
  }

  /** Projects are filed under the title exactly as validation returns it:
      the raw title and its validated form name the same directory. A title
      starting with `/` replaces the whole path, one with `/` inside makes
      several components, and one that is a single component makes exactly
      that one under `cross_projects`. */
  lemma ProjectRootUsesValidatedTitle(dataRoot: Path, p: CrossProject)
    ensures ProjectDataRoot(dataRoot, p) == ProjectDataRoot(dataRoot, p.(title := Strip(p.title)))
    ensures var t, base := Strip(p.title), UserDataRoot(dataRoot, p.owner);
      && (t != [] && t[0] == '/' ==> ProjectDataRoot(dataRoot, p) == Path(true, Components(t)))
      && (t == [] || t[0] != '/' ==>
            ProjectDataRoot(dataRoot, p) == Path(base.absolute, base.parts + ["cross_projects"] + Components(t)))
      && (IsComponent(t) ==> ProjectDataRoot(dataRoot, p).parts == base.parts + ["cross_projects", t])
  {
    StripIdempotent(p.title);
    var base := UserDataRoot(dataRoot, p.owner);
  }

  /** A sample rate of 0 is falsy and names the same file as no sample rate. */
  lemma RawWavZeroIsNone(dataRoot: Path, p: CrossProject)
    ensures RawWavPath(dataRoot, p, Some(0)) == RawWavPath(dataRoot, p, None)
    ensures RawWavExt(None) == ".wav"
  {
  }

  /** Distinct non-zero sample rates never share a raw wav file. */
  lemma RawWavPathsDistinct(dataRoot: Path, p: CrossProject, a: int, b: int)
    requires a != 0 && b != 0 && a != b
    requires RawWavPath(dataRoot, p, Some(a)).Ok?
    ensures RawWavPath(dataRoot, p, Some(b)).Ok?
    ensures RawWavPath(dataRoot, p, Some(a)) != RawWavPath(dataRoot, p, Some(b))
  {
    var media := MediaPath(dataRoot, p);
    var ea, eb := RawWavExt(Some(a)), RawWavExt(Some(b));
    if RawWavPath(dataRoot, p, Some(a)) == RawWavPath(dataRoot, p, Some(b)) {
      var stem := Stem(Name(media));
      assert stem + ea == stem + eb;
      assert ea == (stem + ea)[|stem|..] == (stem + eb)[|stem|..] == eb;
      var sa, sb := IntToString(a), IntToString(b);
      assert ea == "." + sa + ".wav" && eb == "." + sb + ".wav";
      assert |sa| == |sb|;
      assert sa == ea[1..1 + |sa|] == eb[1..1 + |sb|] == sb;
      IntToStringInjective(a, b);
    }
  }

  /** The vocals file name parses as the `htdemucs` directory and the file. */
  lemma VocalsName(n: string)
    requires '/' !in n
    ensures Components("htdemucs/" + Stem(n) + ".vocals.wav") == ["htdemucs", Stem(n) + ".vocals.wav"]
  {
    var v := Stem(n) + ".vocals.wav";
    assert forall i :: 0 <= i < |Stem(n)| ==> Stem(n)[i] == n[i];
    assert v[|v| - 1] == 'v';
    assert IsComponent(v);
    TwoComponents("htdemucs", v);
    assert "htdemucs/" + Stem(n) + ".vocals.wav" == "htdemucs" + "/" + v;
  }

  /** The media file's name holds no separator. */
  lemma MediaName(dataRoot: Path, p: CrossProject)
    ensures '/' !in Name(MediaPath(dataRoot, p))
  {
    var base := Child(UserDataRoot(dataRoot, p.owner), "cross_projects");
    NameAfterJoin(base, Strip(p.title));
    NameAfterJoin(ProjectDataRoot(dataRoot, p), p.mediaName);
  }

  /** The vocals track sits in an `htdemucs` directory beside the media
      file and keeps its stem; when the media name is one component, the
      media file lies directly in the project directory. */
  lemma VocalsBesideMedia(dataRoot: Path, p: CrossProject)
    ensures var media := MediaPath(dataRoot, p);
            && VocalsWavPath(dataRoot, p)
               == Path(media.absolute, Parent(media).parts + ["htdemucs", Stem(Name(media)) + ".vocals.wav"])
            && (IsComponent(p.mediaName) ==> Parent(media) == ProjectDataRoot(dataRoot, p) && Name(media) == p.mediaName)
  {
    var root := ProjectDataRoot(dataRoot, p);
    var media := MediaPath(dataRoot, p);
    MediaName(dataRoot, p);
    VocalsName(Name(media));
    if IsComponent(p.mediaName) {
      assert (root.parts + [p.mediaName])[..|root.parts|] == root.parts;
    }
  }

  /** Under the voices directory, two speakers share a directory exactly
      when their lower-cased names parse to the same components (so "a" and
      "a/" share one); for names that are single components, exactly when
      they are equal after lower-casing. */
  lemma SpeakerDirCaseInsensitive(dataRoot: Path, s1: Speaker, s2: Speaker)
    requires s1.project == s2.project
    ensures var n1, n2 := Lower(s1.name), Lower(s2.name);
      (n1 == [] || n1[0] != '/') && (n2 == [] || n2[0] != '/') ==>
        (SpeakerDataRoot(dataRoot, s1) == SpeakerDataRoot(dataRoot, s2) <==> Components(n1) == Components(n2))
    ensures IsComponent(s1.name) && IsComponent(s2.name) ==>
      (SpeakerDataRoot(dataRoot, s1) == SpeakerDataRoot(dataRoot, s2) <==> Lower(s1.name) == Lower(s2.name))
  {
    var base := Child(ProjectDataRoot(dataRoot, s1.project), "voices");
    var n1, n2 := Lower(s1.name), Lower(s2.name);
    if (n1 == [] || n1[0] != '/') && (n2 == [] || n2[0] != '/') {
      var c1, c2 := Components(n1), Components(n2);
      if SpeakerDataRoot(dataRoot, s1) == SpeakerDataRoot(dataRoot, s2) {
        assert c1 == (base.parts + c1)[|base.parts|..] == (base.parts + c2)[|base.parts|..] == c2;
      }
    }
    if IsComponent(s1.name) && IsComponent(s2.name) {
      LowerComponent(s1.name);
      LowerComponent(s2.name);
      OneComponent(n1);
      OneComponent(n2);
      assert Components(n1) == Components(n2) <==> n1 == n2;
    }
  }

  /** The speakers "a" and "a/" of one project share a voices directory. */
  lemma SpeakerDirTrailingSlash(dataRoot: Path, p: CrossProject)
    ensures SpeakerDataRoot(dataRoot, Speaker("a", p)) == SpeakerDataRoot(dataRoot, Speaker("a/", p))
  {
    SplitFirst("a", '/', "");
    assert "a" + ['/'] + "" == "a/" && Lower("a/") == "a/" && Lower("a") == "a";
    assert Split("", '/') == [""];
    assert Components("a/") == Kept(["a", ""]) == ["a"];
    OneComponent("a");
  }

  /** Within one translation, distinct utterance indices never share an audio file. */
  lemma UtteranceAudioPathsDistinct(dataRoot: Path, u1: Utterance, u2: Utterance)
    requires u1.translation == u2.translation
    ensures UtteranceAudioPath(dataRoot, u1) == UtteranceAudioPath(dataRoot, u2) <==> u1.utteranceIdx == u2.utteranceIdx
  {
    var f1, f2 := IntToString(u1.utteranceIdx) + ".wav", IntToString(u2.utteranceIdx) + ".wav";
    IntNoSlash(u1.utteranceIdx);
    IntNoSlash(u2.utteranceIdx);
    assert IsComponent(f1) && IsComponent(f2);
    if UtteranceAudioPath(dataRoot, u1) == UtteranceAudioPath(dataRoot, u2) {
      var base := TranslationDataRoot(dataRoot, u1.translation);
      var n := |base.parts|;
      assert f1 == (base.parts + [f1])[n] == (base.parts + [f2])[n] == f2;
      assert IntToString(u1.utteranceIdx) == f1[..|f1| - 4] == f2[..|f2| - 4] == IntToString(u2.utteranceIdx);
      IntToStringInjective(u1.utteranceIdx, u2.utteranceIdx);
    }
  }

  /** Translations of one project with distinct ids get distinct directories,
      and each translation's text file lies inside its own directory, directly
      when the language code holds no `/`. */
  lemma TranslationRootsDistinct(dataRoot: Path, t1: Translation, t2: Translation)
    requires t1.project == t2.project
    ensures TranslationDataRoot(dataRoot, t1) == TranslationDataRoot(dataRoot, t2) <==> t1.id == t2.id
    ensures var root, file := TranslationDataRoot(dataRoot, t1), "translation." + t1.lang + ".txt";
      && TranslationPath(dataRoot, t1) == Path(root.absolute, root.parts + Components(file))
      && ('/' !in t1.lang ==> TranslationPath(dataRoot, t1).parts == root.parts + [file])
  {
    var d1, d2 := "translation_" + IntToString(t1.id), "translation_" + IntToString(t2.id);
    IntNoSlash(t1.id);
    IntNoSlash(t2.id);
    assert IsComponent(d1) && IsComponent(d2);
    var file := "translation." + t1.lang + ".txt";
    if '/' !in t1.lang {
      assert IsComponent(file);
    }
    if TranslationDataRoot(dataRoot, t1) == TranslationDataRoot(dataRoot, t2) {
      var base := ProjectDataRoot(dataRoot, t1.project);
      var n := |base.parts|;
      assert d1 == (base.parts + [d1])[n] == (base.parts + [d2])[n] == d2;
      assert IntToString(t1.id) == d1[12..] == d2[12..] == IntToString(t2.id);
      IntToStringInjective(t1.id, t2.id);
    }
  }
}
