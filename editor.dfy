/** The editor's entry points over one translation: `read` expands raw text
    into a program of utterances, synthesises and scores each one and can
    repair repetitions afterwards; `load` scores the program and picks one
    page of it; `combine` lays the program out on speaker tracks. The speech
    models and the text helpers they rely on are opaque and come in as
    `Models`; the database rows as a `Translation` object; the clock as
    `now`. */
module Editor {
  import opened Wrappers
  import StringUtils
  import Stt
  import PyList
  import Paging
  import Timeline

  /** One utterance of the program before synthesis: where it sits in the
      source media, who says it, and what. */
  datatype RawUtterance = RawUtterance(timecode: string, speaker: string, text: string)

  /** A speaker row of the project. */
  datatype SpeakerRow = SpeakerRow(id: int, name: string)

  /** An utterance row, with the name of its speaker joined in. */
  datatype Row = Row(id: int, utteranceIdx: nat, text: string, speakerId: int, speakerName: string, timecode: string)

  /** The foreign collaborators, `R` being whatever the repetition finder
      reports and the aligner takes back. */
  datatype Models<!R> = Models(
    splitRaw: string -> seq<RawUtterance>,     // split_on_raw_utterances
    splitText: string -> seq<string>,          // split_and_recombine_text
    tts: (string, string) -> seq<real>,        // the text to speech model, for a text and a speaker's voice
    transcribe: seq<real> -> string,           // the speech to text model
    similarity: (string, string) -> real,      // compute_string_similarity
    normalize: string -> string,               // normalize_text
    findRepetition: (string, string) -> Option<R>,  // find_single_repetition; `None` when it finds none
    redact: (seq<real>, R) -> seq<real>)       // the aligner cutting the repetition out of a waveform

  /** One utterance on the editor page: its row, its score and its samples. */
  datatype Entry = Entry(row: Row, score: real, audio: seq<real>)

  /** What `load` puts on the page before the widgets: the validated title,
      the number of utterances, the project's mean score and the page. */
  datatype EditorPage = EditorPage(title: string, count: nat, avgScore: real, entries: seq<Entry>)

  const AlreadySynthesized := "Project already synthesized or in progress, navigate to Edit tab"

  function NoSuchSpeaker(name: string): string
  {
    "No such speaker " + name
  }

  function OnlyExisting(title: string): string
  {
    "At the moment only " + title + " existing translations are supported."
  }

  function NoSuchProject(title: string): string
  {
    "no such project " + title + ". Provide valid project title"
  }

  // ---- Expanding the raw text ----

  /** The pieces `split_and_recombine_text` cuts one raw utterance into. */
  function Pieces(timecode: string, speaker: string, texts: seq<string>): (r: seq<RawUtterance>)
    ensures |r| == |texts|
  {
    seq(|texts|, k requires 0 <= k < |texts| => RawUtterance(timecode, speaker, texts[k]))
  }

  /** The program `read` expands the raw utterances into, each cut into
      pieces under the database name of its speaker, with the speaker ids
      by name as first met; or the error of the first raw utterance whose
      speaker the project does not have. */
  function Expand(lines: seq<RawUtterance>, speakers: map<string, SpeakerRow>, splitText: string -> seq<string>)
    : (r: Result<(seq<RawUtterance>, map<string, int>)>)
  {
    if lines == [] then Ok(([], map[]))
    else
      var u := lines[|lines| - 1];
      match Expand(lines[..|lines| - 1], speakers, splitText)
      case Err(e) => Err(e)
      case Ok(done) =>
        if u.speaker !in speakers then Err(Raised(NoSuchSpeaker(u.speaker)))
        else
          var s := speakers[u.speaker];
          var ids := if s.name in done.1 then done.1 else done.1[s.name := s.id];
          Ok((done.0 + Pieces(u.timecode, s.name, splitText(u.text)), ids))
  }

  /** The expansion fails exactly when some raw utterance names a speaker
      the project does not have, with the error of the first such one. */
  lemma {:induction false} ExpandOutcome(lines: seq<RawUtterance>, speakers: map<string, SpeakerRow>, splitText: string -> seq<string>)
    ensures Expand(lines, speakers, splitText).Ok? <==> forall k :: 0 <= k < |lines| ==> lines[k].speaker in speakers
    ensures Expand(lines, speakers, splitText).Err? ==>
      exists k :: && 0 <= k < |lines| && lines[k].speaker !in speakers
                  && (forall j :: 0 <= j < k ==> lines[j].speaker in speakers)
                  && Expand(lines, speakers, splitText).error == Raised(NoSuchSpeaker(lines[k].speaker))
  {
    if lines != [] {
      var init, u := lines[..|lines| - 1], lines[|lines| - 1];
      ExpandOutcome(init, speakers, splitText);
      assert forall k :: 0 <= k < |init| ==> init[k] == lines[k];
      var prior := Expand(init, speakers, splitText);
      if prior.Err? {
        var k :| && 0 <= k < |init| && init[k].speaker !in speakers
                 && (forall j :: 0 <= j < k ==> init[j].speaker in speakers)
                 && prior.error == Raised(NoSuchSpeaker(init[k].speaker));
        assert lines[k] == init[k];
      } else if u.speaker !in speakers {
        assert lines[|lines| - 1] == u;
      }
    }
  }

  /** Every piece's speaker has an id. */
  predicate PiecesNamed(data: seq<RawUtterance>, ids: map<string, int>)
  {
    forall k :: 0 <= k < |data| ==> data[k].speaker in ids
  }

  /** Every id is that of the project's speaker of its name, met in `lines`. */
  ghost predicate IdsOfSpeakers(lines: seq<RawUtterance>, speakers: map<string, SpeakerRow>, ids: map<string, int>)
  {
    forall name :: name in ids ==> exists k :: && 0 <= k < |lines| && lines[k].speaker in speakers
                                                 && speakers[lines[k].speaker] == SpeakerRow(ids[name], name)
  }

  /** A successful expansion gives every piece's speaker an id, the id of
      the project's speaker of that name. */
  lemma {:induction false} ExpandIds(lines: seq<RawUtterance>, speakers: map<string, SpeakerRow>, splitText: string -> seq<string>)
    ensures Expand(lines, speakers, splitText).Ok? ==>
      && PiecesNamed(Expand(lines, speakers, splitText).value.0, Expand(lines, speakers, splitText).value.1)
      && IdsOfSpeakers(lines, speakers, Expand(lines, speakers, splitText).value.1)
  {
    if lines != [] {
      var init, u := lines[..|lines| - 1], lines[|lines| - 1];
      ExpandIds(init, speakers, splitText);
      var prior := Expand(init, speakers, splitText);
      if prior.Ok? && u.speaker in speakers {
        var s := speakers[u.speaker];
        var (data, ids) := Expand(lines, speakers, splitText).value;
        var data0, ids0 := prior.value.0, prior.value.1;
        assert data == data0 + Pieces(u.timecode, s.name, splitText(u.text));
        forall k | 0 <= k < |data| ensures data[k].speaker in ids {
          if k < |data0| {
            assert data[k] == data0[k];
          }
        }
        forall name | name in ids
          ensures exists k :: && 0 <= k < |lines| && lines[k].speaker in speakers
                              && speakers[lines[k].speaker] == SpeakerRow(ids[name], name)
        {
          if name == s.name && s.name !in prior.value.1 {
            assert lines[|lines| - 1] == u;
          } else {
            assert name in ids0 && ids[name] == ids0[name];
            var k :| && 0 <= k < |init| && init[k].speaker in speakers
                     && speakers[init[k].speaker] == SpeakerRow(ids0[name], name);
            assert lines[k] == init[k];
          }
        }
      }
    }
  }

  /** Lines 47-65: the loop over the raw utterances and their pieces. */
  method ExpandLines(lines: seq<RawUtterance>, speakers: map<string, SpeakerRow>, splitText: string -> seq<string>)
    returns (r: Result<(seq<RawUtterance>, map<string, int>)>)
    ensures r == Expand(lines, speakers, splitText)
  {
    var ids: map<string, int> := map[];
    var data: seq<RawUtterance> := [];
    var i := 0;
    while i < |lines|
      invariant 0 <= i <= |lines|
      invariant Expand(lines[..i], speakers, splitText) == Ok((data, ids))
    {
      var u := lines[i];
      if u.speaker !in speakers {
        r := Err(Raised(NoSuchSpeaker(u.speaker)));
        ExpandStep(lines, speakers, splitText, i);
        ExpandStops(lines, speakers, splitText, i + 1);
        return;
      }
      ExpandStep(lines, speakers, splitText, i);
      var s := speakers[u.speaker];
      if s.name !in ids {
        ids := ids[s.name := s.id];
      }
      var texts := splitText(u.text);
      ghost var before := data;
      var j := 0;
      while j < |texts|
        invariant 0 <= j <= |texts|
        invariant data == before + Pieces(u.timecode, s.name, texts)[..j]
      {
        data := data + [RawUtterance(u.timecode, s.name, texts[j])];
        j := j + 1;
      }
      assert Pieces(u.timecode, s.name, texts)[..|texts|] == Pieces(u.timecode, s.name, texts);
      i := i + 1;
    }
    assert lines[..|lines|] == lines;
    r := Ok((data, ids));
  }

  /** One more raw utterance: the error of its unknown speaker, or its
      pieces appended and its speaker's name given an id if it had none. */
  lemma ExpandStep(lines: seq<RawUtterance>, speakers: map<string, SpeakerRow>, splitText: string -> seq<string>, i: nat)
    requires i < |lines| && Expand(lines[..i], speakers, splitText).Ok?
    ensures var done := Expand(lines[..i], speakers, splitText).value;
      var u := lines[i];
      Expand(lines[..i + 1], speakers, splitText)
        == if u.speaker !in speakers then Err(Raised(NoSuchSpeaker(u.speaker)))
           else
             var s := speakers[u.speaker];
             Ok((done.0 + Pieces(u.timecode, s.name, splitText(u.text)),
                 if s.name in done.1 then done.1 else done.1[s.name := s.id]))
  {
    assert lines[..i + 1][..i] == lines[..i];
  }

  /** An error in the expansion of a prefix is the error of the whole. */
  lemma {:induction false} ExpandStops(lines: seq<RawUtterance>, speakers: map<string, SpeakerRow>, splitText: string -> seq<string>, i: nat)
    requires i <= |lines| && Expand(lines[..i], speakers, splitText).Err?
    ensures Expand(lines, speakers, splitText) == Expand(lines[..i], speakers, splitText)
    decreases |lines| - i
  {
    if i < |lines| {
      assert lines[..i + 1][..i] == lines[..i];
      ExpandStops(lines, speakers, splitText, i + 1);
    } else {
      assert lines[..i] == lines;
    }
  }

  // ---- The translation ----

  /** The rows `read` creates for the program: numbered from zero in program
      order, with ids from `firstId` on. */
  function NewRows(data: seq<RawUtterance>, ids: map<string, int>, firstId: int): (r: seq<Row>)
    requires forall k :: 0 <= k < |data| ==> data[k].speaker in ids
    ensures |r| == |data|
  {
    seq(|data|, k requires 0 <= k < |data| =>
      Row(firstId + k, k, data[k].text, ids[data[k].speaker], data[k].speaker, data[k].timecode))
  }

  /** The waveform synthesised for piece `k`. */
  function Voice<R>(data: seq<RawUtterance>, m: Models<R>, k: nat): seq<real>
    requires k < |data|
  {
    m.tts(data[k].text, data[k].speaker)
  }

  /** The audio files of the first `n` pieces, by utterance index. */
  function Voices<R>(data: seq<RawUtterance>, m: Models<R>, n: nat): (r: map<nat, seq<real>>)
    requires n <= |data|
    ensures forall k: nat :: k in r <==> k < n
  {
    map k: nat | k < n :: Voice(data, m, k)
  }

  /** The record `compute_and_store_score` stores for the row of piece `k`. */
  function FirstRecord<R>(data: seq<RawUtterance>, m: Models<R>, firstId: int, now: int, k: nat): (x: Stt.SttRecord)
    requires k < |data|
    ensures x.origUtteranceId == firstId + k && x.date == now
    ensures x.score == m.similarity(data[k].text, m.transcribe(Voice(data, m, k)))
  {
    Stt.Scored(Stt.Utterance(firstId + k, data[k].text, Voice(data, m, k)), m.transcribe, m.similarity, now)
  }

  function FirstRecords<R>(data: seq<RawUtterance>, m: Models<R>, firstId: int, now: int, n: nat): (r: seq<Stt.SttRecord>)
    requires n <= |data|
    ensures |r| == n
  {
    seq(n, k requires 0 <= k < n => FirstRecord(data, m, firstId, now, k))
  }

  /** What the speech to text side sees of a row: its id, text and audio. */
  function View(row: Row, audio: map<nat, seq<real>>): Stt.Utterance
    requires row.utteranceIdx in audio
  {
    Stt.Utterance(row.id, row.text, audio[row.utteranceIdx])
  }

  function Views(rows: seq<Row>, audio: map<nat, seq<real>>): (r: seq<Stt.Utterance>)
    requires forall k :: 0 <= k < |rows| ==> rows[k].utteranceIdx in audio
    ensures |r| == |rows| && forall k :: 0 <= k < |rows| ==> r[k] == View(rows[k], audio)
  {
    seq(|rows|, k requires 0 <= k < |rows| => View(rows[k], audio))
  }

  /** What `combine` reads back for each row, all written at one rate. */
  function Clips(rows: seq<Row>, audio: map<nat, seq<real>>, rate: Timeline.Rate): (r: seq<Timeline.Clip>)
    requires forall k :: 0 <= k < |rows| ==> rows[k].utteranceIdx in audio
    ensures |r| == |rows|
  {
    seq(|rows|, k requires 0 <= k < |rows| =>
      Timeline.Clip(rows[k].speakerId, rows[k].speakerName, rows[k].text, audio[rows[k].utteranceIdx], rate))
  }

  /** The gate of lines 87-103 for one row whose audio file holds `wav`: the
      newest record of the row is read (an `IndexError` when there is none);
      a perfect score or no repetition found leaves the row alone; otherwise
      the redacted waveform and its record are proposed when the new score
      beats the newest one. */
  function Repair<R>(row: Row, wav: seq<real>, records: seq<Stt.SttRecord>, m: Models<R>, now: int)
    : (r: Result<Option<(seq<real>, Stt.SttRecord)>>)
    ensures r.Err? <==> Stt.RecordsFor(records, row.id) == []
    ensures r.Err? ==> r.error == IndexError
    ensures r.Ok? && Stt.Newest(Stt.RecordsFor(records, row.id)).score == 1.0 ==> r.value == None
    ensures r.Ok? && r.value.Some? ==>
      var (fixed, x) := r.value.value;
      var latest := Stt.Newest(Stt.RecordsFor(records, row.id));
      && x == Stt.Scored(Stt.Utterance(row.id, row.text, fixed), m.transcribe, m.similarity, now)
      && x.score > latest.score
      && m.findRepetition(m.normalize(latest.text), m.normalize(row.text)).Some?
      && fixed == m.redact(wav, m.findRepetition(m.normalize(latest.text), m.normalize(row.text)).value)
  {
    var mine := Stt.RecordsFor(records, row.id);
    if mine == [] then Err(IndexError)
    else
      var latest := Stt.Newest(mine);
      if latest.score == 1.0 then Ok(None)
      else
        match m.findRepetition(m.normalize(latest.text), m.normalize(row.text))
        case None => Ok(None)
        case Some(res) =>
          var fixed := m.redact(wav, res);
          var x := Stt.Scored(Stt.Utterance(row.id, row.text, fixed), m.transcribe, m.similarity, now);
          if x.score > latest.score then Ok(Some((fixed, x))) else Ok(None)
  }

  /** An accepted repair, stored at a time no earlier than the row's records,
      becomes the row's newest record, so the row's newest score strictly
      rises and no other row's records change. */
  lemma RepairRaisesScore<R>(row: Row, wav: seq<real>, records: seq<Stt.SttRecord>, m: Models<R>, now: int)
    requires Repair(row, wav, records, m, now).Ok? && Repair(row, wav, records, m, now).value.Some?
    requires forall y :: y in records ==> y.date <= now
    ensures var x := Repair(row, wav, records, m, now).value.value.1;
      && Stt.Newest(Stt.RecordsFor(records + [x], row.id)) == x
      && Stt.Newest(Stt.RecordsFor(records + [x], row.id)).score > Stt.Newest(Stt.RecordsFor(records, row.id)).score
      && forall id :: id != row.id ==> Stt.RecordsFor(records + [x], id) == Stt.RecordsFor(records, id)
  {
    var x := Repair(row, wav, records, m, now).value.value.1;
    var mine := Stt.RecordsFor(records, row.id);
    forall id ensures Stt.RecordsFor(records + [x], id) == Stt.RecordsFor(records, id) + (if x.origUtteranceId == id then [x] else []) {
      Stt.RecordsForAppend(records, x, id);
    }
    forall y | y in mine ensures y.date <= x.date {
      Stt.RecordsForMembers(records, row.id, y);
    }
    Stt.AppendedIsNewest(mine, x);
  }

  /** One more piece adds its row. */
  lemma RowsStep(data: seq<RawUtterance>, ids: map<string, int>, firstId: int, idx: nat)
    requires idx < |data|
    requires forall k :: 0 <= k < |data| ==> data[k].speaker in ids
    ensures NewRows(data, ids, firstId)[..idx + 1] == NewRows(data, ids, firstId)[..idx]
      + [Row(firstId + idx, idx, data[idx].text, ids[data[idx].speaker], data[idx].speaker, data[idx].timecode)]
  {
    var r := NewRows(data, ids, firstId);
    assert r[..idx + 1] == r[..idx] + [r[idx]];
  }

  /** One more piece adds its audio file under its index. */
  lemma VoicesStep<R>(data: seq<RawUtterance>, m: Models<R>, idx: nat, start: map<nat, seq<real>>)
    requires idx < |data|
    ensures (start + Voices(data, m, idx))[idx := Voice(data, m, idx)] == start + Voices(data, m, idx + 1)
  {
    var a, b := (start + Voices(data, m, idx))[idx := Voice(data, m, idx)], start + Voices(data, m, idx + 1);
    forall k | k in a ensures k in b && a[k] == b[k] {
      if k != idx && k in Voices(data, m, idx) {
        assert k in Voices(data, m, idx + 1);
      }
    }
    forall k | k in b ensures k in a {
      if k != idx && k in Voices(data, m, idx + 1) {
        assert k in Voices(data, m, idx);
      }
    }
  }

  /** One more piece adds its record. */
  lemma RecordsStep<R>(data: seq<RawUtterance>, m: Models<R>, firstId: int, now: int, idx: nat)
    requires idx < |data|
    ensures FirstRecords(data, m, firstId, now, idx + 1)
         == FirstRecords(data, m, firstId, now, idx) + [FirstRecord(data, m, firstId, now, idx)]
  {
    var a, b := FirstRecords(data, m, firstId, now, idx + 1), FirstRecords(data, m, firstId, now, idx);
    assert a == b + [a[idx]];
  }

  /** The rows of one translation, the audio file of each row by utterance
      index, and the id the utterance table hands out next. */
  class Translation {
    var rows: seq<Row>
    var audio: map<nat, seq<real>>
    var nextId: int

    constructor(firstId: int)
      ensures rows == [] && audio == map[] && nextId == firstId
    {
      rows := [];
      audio := map[];
      nextId := firstId;
    }

    /** Every row has its audio file. */
    ghost predicate Valid()
      reads this
    {
      forall k :: 0 <= k < |rows| ==> rows[k].utteranceIdx in audio
    }

    /** Lines 67-81: one row per piece, numbered from zero in program order,
        its audio synthesised in its speaker's voice and written under its
        index, and one scored record appended to the log for it. */
    method Synthesize<R>(data: seq<RawUtterance>, ids: map<string, int>, m: Models<R>, log: Stt.SttLog, now: int)
      requires rows == []
      requires forall k :: 0 <= k < |data| ==> data[k].speaker in ids
      modifies this, log
      ensures rows == NewRows(data, ids, old(nextId))
      ensures nextId == old(nextId) + |data|
      ensures audio == old(audio) + Voices(data, m, |data|)
      ensures log.records == old(log.records) + FirstRecords(data, m, old(nextId), now, |data|)
      ensures Valid()
    {
      var firstId := nextId;
      var idx := 0;
      while idx < |data|
        invariant 0 <= idx <= |data|
        invariant rows == NewRows(data, ids, firstId)[..idx]
        invariant nextId == firstId + idx
        invariant audio == old(audio) + Voices(data, m, idx)
        invariant log.records == old(log.records) + FirstRecords(data, m, firstId, now, idx)
      {
        RecordsStep(data, m, firstId, now, idx);
        AddPiece(data, ids, m, log, now, firstId, idx, old(audio));
        idx := idx + 1;
      }
      forall k | 0 <= k < |rows| ensures rows[k].utteranceIdx in audio {
        assert rows[k].utteranceIdx == k;
      }
    }

    /** One turn of the loop of lines 67-81: the row of piece `idx`, its
        audio file under its index and its scored record. */
    method AddPiece<R>(data: seq<RawUtterance>, ids: map<string, int>, m: Models<R>, log: Stt.SttLog, now: int,
                       firstId: int, idx: nat, ghost start: map<nat, seq<real>>)
      requires idx < |data|
      requires forall k :: 0 <= k < |data| ==> data[k].speaker in ids
      requires rows == NewRows(data, ids, firstId)[..idx] && nextId == firstId + idx
      requires audio == start + Voices(data, m, idx)
      modifies this, log
      ensures rows == NewRows(data, ids, firstId)[..idx + 1] && nextId == firstId + idx + 1
      ensures audio == start + Voices(data, m, idx + 1)
      ensures log.records == old(log.records) + [FirstRecord(data, m, firstId, now, idx)]
    {
      var u := data[idx];
      var gen := m.tts(u.text, u.speaker);
      var row := Row(nextId, idx, u.text, ids[u.speaker], u.speaker, u.timecode);
      RowsStep(data, ids, firstId, idx);
      VoicesStep(data, m, idx, start);
      rows := rows + [row];
      nextId := nextId + 1;
      audio := audio[idx := gen];
      assert View(row, audio) == Stt.Utterance(firstId + idx, u.text, Voice(data, m, idx));
      var score := log.ComputeAndStoreScore(View(row, audio), m.transcribe, m.similarity, now);
    }

    /** One turn of the loop of lines 87-111: apply the gate to `row`; an
        accepted repair appends exactly its record and overwrites the row's
        audio file, anything else changes nothing. */
    method RepairUtterance<R>(row: Row, m: Models<R>, log: Stt.SttLog, now: int) returns (r: Result<bool>)
      requires row.utteranceIdx in audio
      modifies this, log
      ensures rows == old(rows) && nextId == old(nextId)
      ensures var gate := Repair(row, old(audio)[row.utteranceIdx], old(log.records), m, now);
        match gate
        case Err(e) => r == Err(e) && audio == old(audio) && log.records == old(log.records)
        case Ok(None) => r == Ok(false) && audio == old(audio) && log.records == old(log.records)
        case Ok(Some((fixed, x))) =>
          && r == Ok(true)
          && audio == old(audio)[row.utteranceIdx := fixed]
          && log.records == old(log.records) + [x]
    {
      var mine := Stt.RecordsFor(log.records, row.id);
      if |mine| == 0 {
        return Err(IndexError);
      }
      var latest := PyList.SortBy(mine, Stt.DateKey)[|mine| - 1];
      Stt.SortedLastIsNewest(mine);
      if latest.score == 1.0 {
        return Ok(false);
      }
      var textNorm := m.normalize(row.text);
      var textSttNorm := m.normalize(latest.text);
      var res := m.findRepetition(textSttNorm, textNorm);
      if res.None? {
        return Ok(false);
      }
      var wav := audio[row.utteranceIdx];
      var newWav := m.redact(wav, res.value);
      var newTextStt := m.transcribe(newWav);
      var newScore := m.similarity(row.text, newTextStt);
      if newScore > latest.score {
        log.records := log.records + [Stt.SttRecord(row.id, newTextStt, newScore, now)];
        audio := audio[row.utteranceIdx := newWav];
        return Ok(true);
      }
      return Ok(false);
    }

    /** Lines 85-111: the gate applied to every row in order; the rows stay,
        the audio files stay where they are, and each row gains at most one
        record, dated `now`. */
    method RepairAll<R>(m: Models<R>, log: Stt.SttLog, now: int) returns (r: Result<()>)
      requires Valid()
      modifies this, log
      ensures rows == old(rows) && nextId == old(nextId) && Valid()
      ensures audio.Keys == old(audio).Keys
      ensures r.Err? ==> r.error == IndexError
      ensures old(log.records) <= log.records && |log.records| <= |old(log.records)| + |rows|
      ensures forall k :: |old(log.records)| <= k < |log.records| ==>
        && log.records[k].date == now
        && exists i :: 0 <= i < |rows| && log.records[k].origUtteranceId == rows[i].id
    {
      var i := 0;
      while i < |rows|
        invariant 0 <= i <= |rows|
        invariant rows == old(rows) && nextId == old(nextId) && Valid()
        invariant audio.Keys == old(audio).Keys
        invariant old(log.records) <= log.records && |log.records| <= |old(log.records)| + i
        invariant forall k :: |old(log.records)| <= k < |log.records| ==>
          && log.records[k].date == now
          && exists j :: 0 <= j < i && log.records[k].origUtteranceId == rows[j].id
      {
        ghost var before := log.records;
        var fixed := RepairUtterance(rows[i], m, log, now);
        if fixed.Err? {
          return Err(fixed.error);
        }
        assert log.records == before || log.records == before + [log.records[|before|]];
        i := i + 1;
      }
      return Ok(());
    }
  }

  // ---- The entry points ----

  /** `read`: validate the title; refuse a missing translation and one that
      already has utterances; expand the raw text, refusing unknown
      speakers; then synthesise and score the program, numbered from zero,
      and, when asked to, run the repair pass. Nothing changes before the
      expansion has succeeded. */
  method Read<R>(title: string, t: Translation?, rawText: string, speakers: map<string, SpeakerRow>,
                 m: Models<R>, log: Stt.SttLog, now: int, checkForRepetitions: bool) returns (r: Result<string>)
    modifies t, log
    ensures var v := StringUtils.ValidateAndPreprocessTitle(title);
      var expanded := Expand(m.splitRaw(rawText), speakers, m.splitText);
      && (v.Err? ==> r == Err(v.error))
      && (v.Ok? && t == null ==> r == Err(Raised(OnlyExisting(v.value))))
      && (v.Ok? && t != null && old(t.rows) != [] ==> r == Err(Raised(AlreadySynthesized)))
      && (v.Ok? && t != null && old(t.rows) == [] && expanded.Err? ==> r == Err(expanded.error))
      && (v.Ok? && t != null && old(t.rows) == [] && expanded.Ok? && !checkForRepetitions ==> r == Ok(v.value))
    ensures r.Err? && (r.error.Raised? || r.error == ValueError) ==>
      log.records == old(log.records) && (t != null ==> t.rows == old(t.rows) && t.audio == old(t.audio))
    ensures r.Ok? ==>
      var (data, ids) := Expand(m.splitRaw(rawText), speakers, m.splitText).value;
      && t != null && t.Valid()
      && (forall k :: 0 <= k < |data| ==> data[k].speaker in ids)
      && t.rows == NewRows(data, ids, old(t.nextId))
      && (forall k :: 0 <= k < |t.rows| ==>
            && t.rows[k].utteranceIdx == k && t.rows[k].text == data[k].text
            && t.rows[k].speakerName == data[k].speaker)
      && old(log.records) + FirstRecords(data, m, old(t.nextId), now, |data|) <= log.records
      && (!checkForRepetitions ==>
            && log.records == old(log.records) + FirstRecords(data, m, old(t.nextId), now, |data|)
            && t.audio == old(t.audio) + Voices(data, m, |data|))
  {
    var v := StringUtils.ValidateAndPreprocessTitle(title);
    if v.Err? {
      return Err(v.error);
    }
    if t == null {
      return Err(Raised(OnlyExisting(v.value)));
    }
    if |t.rows| > 0 {
      return Err(Raised(AlreadySynthesized));
    }
    var expanded := ExpandLines(m.splitRaw(rawText), speakers, m.splitText);
    if expanded.Err? {
      ExpandOutcome(m.splitRaw(rawText), speakers, m.splitText);
      return Err(expanded.error);
    }
    var (data, ids) := expanded.value;
    ExpandIds(m.splitRaw(rawText), speakers, m.splitText);
    t.Synthesize(data, ids, m, log, now);
    if checkForRepetitions {
      var repaired := t.RepairAll(m, log, now);
      if repaired.Err? {
        return Err(repaired.error);
      }
    }
    return Ok(v.value);
  }

  /** `load`: validate the title; refuse a missing translation; score every
      utterance and take the mean (a `ZeroDivisionError` without
      utterances); then, with a positive threshold, only the utterances
      scoring above it, worst first; and one page of those, each with its
      newest score and its audio. */
  method Load(title: string, t: Translation?, fromIdx: int, threshold: real, maxUtterance: int,
              transcribe: seq<real> -> string, similarity: (string, string) -> real,
              log: Stt.SttLog, now: int) returns (r: Result<EditorPage>)
    requires t != null ==> t.Valid()
    modifies log
    ensures var v := StringUtils.ValidateAndPreprocessTitle(title);
      && (v.Err? ==> r == Err(v.error) && log.records == old(log.records))
      && (v.Ok? && t == null ==> r == Err(Raised(NoSuchProject(v.value))) && log.records == old(log.records))
      && (v.Ok? && t != null && t.rows == [] ==> r == Err(ZeroDivisionError))
      && (v.Ok? && t != null && t.rows != [] ==> r.Ok? && r.value.title == v.value)
    ensures old(log.records) <= log.records
    ensures t != null ==> FirstScores(old(log.records), log.records, t.rows, t.audio, transcribe, similarity, now)
    ensures r.Ok? ==> t != null && r.value.count == |t.rows|
    ensures r.Ok? ==>
      exists scores: seq<real> {:trigger RowScores(log.records, t.rows, scores)} ::
        && RowScores(log.records, t.rows, scores) && Stt.Mean(scores) == Ok(r.value.avgScore)
        && |r.value.entries| == |Paging.Page(Paging.Shown(scores, t.rows, threshold), fromIdx, maxUtterance)|
        && (forall k :: 0 <= k < |r.value.entries| ==>
              r.value.entries[k].row == Paging.Page(Paging.Shown(scores, t.rows, threshold), fromIdx, maxUtterance)[k])
    ensures r.Ok? ==> forall k :: 0 <= k < |r.value.entries| ==>
      var e := r.value.entries[k];
      && e.row in t.rows && e.row.utteranceIdx in t.audio && e.audio == t.audio[e.row.utteranceIdx]
      && Stt.RecordsFor(log.records, e.row.id) != []
      && e.score == Stt.Newest(Stt.RecordsFor(log.records, e.row.id)).score
  {
    var v := StringUtils.ValidateAndPreprocessTitle(title);
    if v.Err? {
      return Err(v.error);
    }
    if t == null {
      return Err(Raised(NoSuchProject(v.value)));
    }
    ghost var before := log.records;
    var projectScore := log.CalculateProjectScore(Views(t.rows, t.audio), transcribe, similarity, now);
    ScoredViews(before, log.records, t.rows, t.audio, transcribe, similarity, now);
    ghost var scored := log.records;
    if projectScore.Err? {
      return Err(projectScore.error);
    }
    var (avg, scores) := projectScore.value;
    ScoresOfViews(log.records, t.rows, t.audio, scores);
    var utterances := Paging.Page(Paging.Shown(scores, t.rows, threshold), fromIdx, maxUtterance);
    Paging.PageFromUtterances(scores, t.rows, threshold, fromIdx, maxUtterance);
    var entries := PageEntries(t, utterances, transcribe, similarity, log, now);
    assert log.records == scored;
    r := Ok(EditorPage(v.value, |t.rows|, avg, entries));
    assert RowScores(log.records, t.rows, scores) && Stt.Mean(scores) == Ok(r.value.avgScore);
  }

  /** Every record from `before` on is the first of its row: scored from
      the row's text and audio by the recogniser and the similarity, for a
      row that had no record before, and no row gains two. */
  ghost predicate FirstScores(before: seq<Stt.SttRecord>, after: seq<Stt.SttRecord>, rows: seq<Row>, audio: map<nat, seq<real>>,
                              transcribe: seq<real> -> string, similarity: (string, string) -> real, now: int)
    requires forall k :: 0 <= k < |rows| ==> rows[k].utteranceIdx in audio
  {
    && (forall k :: |before| <= k < |after| ==>
          && Stt.RecordsFor(before, after[k].origUtteranceId) == []
          && exists i :: 0 <= i < |rows| && after[k] == Stt.Scored(View(rows[i], audio), transcribe, similarity, now))
    && forall k, l :: |before| <= k < l < |after| ==> after[k].origUtteranceId != after[l].origUtteranceId
  }

  /** Records scored from the rows' views are scored from the rows. */
  lemma ScoredViews(before: seq<Stt.SttRecord>, after: seq<Stt.SttRecord>, rows: seq<Row>, audio: map<nat, seq<real>>,
                    transcribe: seq<real> -> string, similarity: (string, string) -> real, now: int)
    requires forall k :: 0 <= k < |rows| ==> rows[k].utteranceIdx in audio
    requires forall k :: |before| <= k < |after| ==>
      Stt.RecordsFor(before, after[k].origUtteranceId) == [] && Stt.ScoredFrom(after[k], Views(rows, audio), transcribe, similarity, now)
    requires forall k, l :: |before| <= k < l < |after| ==> after[k].origUtteranceId != after[l].origUtteranceId
    ensures FirstScores(before, after, rows, audio, transcribe, similarity, now)
  {
    forall k | |before| <= k < |after|
      ensures exists i :: 0 <= i < |rows| && after[k] == Stt.Scored(View(rows[i], audio), transcribe, similarity, now)
    {
      assert Stt.ScoredFrom(after[k], Views(rows, audio), transcribe, similarity, now);
      var i :| 0 <= i < |rows| && after[k] == Stt.Scored(Views(rows, audio)[i], transcribe, similarity, now);
      assert Views(rows, audio)[i] == View(rows[i], audio);
      assert after[k] == Stt.Scored(View(rows[i], audio), transcribe, similarity, now);
    }
  }

  /** `scores[i]` is the score of the newest record of row `i`. */
  ghost predicate RowScores(records: seq<Stt.SttRecord>, rows: seq<Row>, scores: seq<real>)
  {
    && |scores| == |rows|
    && forall i :: 0 <= i < |rows| ==>
         Stt.RecordsFor(records, rows[i].id) != [] && scores[i] == Stt.Newest(Stt.RecordsFor(records, rows[i].id)).score
  }

  /** Scores of the rows' views are scores of the rows: a view keeps its row's id. */
  lemma ScoresOfViews(records: seq<Stt.SttRecord>, rows: seq<Row>, audio: map<nat, seq<real>>, scores: seq<real>)
    requires forall k :: 0 <= k < |rows| ==> rows[k].utteranceIdx in audio
    requires |scores| == |rows|
    requires forall i :: 0 <= i < |rows| ==>
      Stt.RecordsFor(records, Views(rows, audio)[i].id) != []
      && scores[i] == Stt.Newest(Stt.RecordsFor(records, Views(rows, audio)[i].id)).score
    ensures RowScores(records, rows, scores)
  {
    forall i | 0 <= i < |rows| ensures Views(rows, audio)[i].id == rows[i].id {
    }
  }

  /** Lines 178-187: each utterance on the page with its score, which its
      newest record already holds, and its audio. */
  method PageEntries(t: Translation, utterances: seq<Row>, transcribe: seq<real> -> string,
                     similarity: (string, string) -> real, log: Stt.SttLog, now: int) returns (entries: seq<Entry>)
    requires t.Valid()
    requires forall u :: u in utterances ==> u in t.rows && Stt.RecordsFor(log.records, u.id) != []
    modifies log
    ensures log.records == old(log.records)
    ensures |entries| == |utterances|
    ensures forall j :: 0 <= j < |entries| ==>
      && entries[j].row == utterances[j] && entries[j].audio == t.audio[utterances[j].utteranceIdx]
      && entries[j].score == Stt.Newest(Stt.RecordsFor(log.records, utterances[j].id)).score
  {
    entries := [];
    var k := 0;
    while k < |utterances|
      invariant 0 <= k <= |utterances| && |entries| == k
      invariant log.records == old(log.records)
      invariant forall j :: 0 <= j < k ==>
        && entries[j].row == utterances[j] && entries[j].audio == t.audio[utterances[j].utteranceIdx]
        && entries[j].score == Stt.Newest(Stt.RecordsFor(log.records, utterances[j].id)).score
    {
      var u := utterances[k];
      assert u in t.rows;
      var score := log.GetOrComputeScore(View(u, t.audio), transcribe, similarity, now);
      entries := entries + [Entry(u, score, t.audio[u.utteranceIdx])];
      k := k + 1;
    }
  }

  /** `combine` on a translation: a missing one is refused (the title is not
      validated here), otherwise the rows' audio, read back at the rate it
      was written at, is laid out as `Timeline.Combine` does. */
  method CombineProject(title: string, t: Translation?, rate: Timeline.Rate) returns (r: Result<Timeline.Combined>)
    requires t != null ==> t.Valid()
    ensures t == null ==> r == Err(Raised(NoSuchProject(title)))
    ensures t != null && t.rows == [] ==> r == Err(IndexError)
    ensures t != null && t.rows != [] ==>
      var mix := Timeline.Concat(Clips(t.rows, t.audio, rate));
      (r == Err(ValueError) <==> mix == []) && (r.Ok? <==> mix != [])
    ensures r.Ok? ==>
      var clips := Clips(t.rows, t.audio, rate);
      && r.value.tracks.Keys == Timeline.SpeakerIds(clips)
      && (forall s :: s in r.value.tracks ==> r.value.tracks[s] == Timeline.TrackOf(clips, s))
      && r.value.metadata == Timeline.MetadataOf(clips)
      && r.value.mix == Timeline.Concat(clips)
      && Ok(r.value.levels) == Timeline.PeakNormalize(r.value.mix)
  {
    if t == null {
      return Err(Raised(NoSuchProject(title)));
    }
    r := Timeline.Combine(Clips(t.rows, t.audio, rate));
  }
}
