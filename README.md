# cross-lingual: a Dafny model of the editor pipeline and its helpers

This project models the logic of the cross-lingual dubbing editor. The editor
turns a translated script into synthesised speech, one utterance at a time.
It then checks each utterance with speech recognition, keeps a log of those
checks, shows the utterances page by page, and mixes them into one track per
speaker. The project also models the small parsers and naming rules around
the editor:
- the speaker-tag splitter;
- title validation;
- the artifact path names;
- YouTube id extraction;
- RSS audio-link selection;
- the multilingual-podcaster report.

The speech models, the string-similarity scorer, the text normaliser, the
repetition finder, the raw-utterance splitter and the sentence splitter are
all foreign code. Each one is a function parameter, and no property depends
on what it computes. The database rows become Dafny values and objects. The
clock becomes an integer parameter `now`. Audio samples are exact reals.

Modules:
- `Wrappers`: `Option`, and `Result` carrying the Python exception class the
  code raises.
- `Text`: the Python string builtins that the code uses (`strip`, ASCII
  `lower`, `int()`, `str()`, `split`).
- `PyList`: the stable `sorted`, `bisect_right` with a key, and slicing with
  negative indices and clamping.
- `StringUtils`: title validation.
- `Paths`: the path builders of the database models.
- `Media`: the YouTube link pattern and the embed code.
- `Rss`: `get_audio_link`.
- `Podindex`: the multilingual-podcaster grouping.
- `SpeakerTags`: `split_on_speaker_change`.
- `Stt`: the verification ledger, a `SttLog` class whose `records` field is
  the STT table.
- `Timecode`: `time_to_sec`.
- `Paging`: the score threshold and the page that `load` shows.
- `Timeline`: `combine`, covering the per-speaker tracks, the metadata
  clock, the mix-down and the peak normalisation.
- `Editor`: `read`, `load` and `combine` over a `Translation` object. That
  object holds the utterance rows and their audio files. This module also
  holds the repetition-repair gate.

Behaviour of the code that the model keeps:
- `load` keeps the utterances scoring strictly **above** the threshold
  (editor_app/tts.py:171-174).
- The project mean divides by zero when there are no utterances, which
  raises `ZeroDivisionError` (editor_app/stt.py:45).
- The normalisation has no guard against all-silent input. It yields NaN,
  modelled as `Levels.NotANumber` (editor_app/tts.py:290).
- `split_on_speaker_change` never returns `[(None, raw_text)]`, because its
  `if not speaker_matches` test is applied to an iterator. Input with no tag
  raises `StopIteration` from `next` (utils.py:10-14).
- `split_on_speaker_change` returns a `zip`, which the unit test indexes like
  a dictionary (tests/test_text_utils.py:14). The model returns the list of
  pairs.
- The `combine` used by `CombineProject` does not validate the title.

## Model

| member | source | states |
|---|---|---|
| `PyList.SortBy` | editor_app/tts.py:172 | `sorted` with a key: the result is a permutation of the input (same length, same multiset) and is ordered by the key |
| `PyList.SortByLast` | editor_app/stt.py:32-35 | the last element after the stable sort is the last of the elements tied on the largest key |
| `PyList.BisectRight` | editor_app/tts.py:173 | the insertion point: every key before it is at most `x`, and every key from it on is greater than `x` |
| `Text.StripIdempotent` | string_utils.py:7 | `strip` applied twice strips nothing more |
| `Text.ParseNatToString` | editor_app/tts.py:314 | `int(str(n)) == n` for every natural number |
| `Text.IntToStringInjective` | db/models.py:18 | different integers print differently |
| `StringUtils.ValidateAndPreprocessTitle` | string_utils.py:4-10 | accepted exactly when the title is not all whitespace; the result is the stripped title, non-empty, with no whitespace at either end; otherwise the "empty string" exception |
| `StringUtils.ValidateIdempotent` | string_utils.py:7-10 | validating a validated title returns it unchanged |
| `Paths.WithSuffix` | db/models.py:49 | `with_suffix` fails on an empty name; otherwise it keeps the parent and replaces the final suffix of the name with `ext` |
| `Paths.Join` | db/models.py:19 | `joinpath` appends a name that is one component as it is, and an empty name leaves the path unchanged |
| `Paths.UserDirName` | db/models.py:17-21 | the user directory name is the id zero-padded to at least 3 digits (which read back as the id), `_`, and the lower-cased name; `joinpath` cuts it at every `/`, so it is one component under the data root exactly when the name holds no `/` |
| `Paths.ProjectRootUsesValidatedTitle` | db/models.py:36-39 | the project directory depends only on the stripped title; a stripped title starting with `/` replaces the whole path; otherwise the title's components follow `<user root>/cross_projects`, and a title that is one component is exactly that last component |
| `Paths.RawWavZeroIsNone` | db/models.py:44-49 | a sample rate of 0 gives the same raw wav path as no sample rate, and the extension is `.wav` |
| `Paths.RawWavPathsDistinct` | db/models.py:44-49 | distinct non-zero sample rates give distinct raw wav paths |
| `Paths.VocalsBesideMedia` | db/models.py:51-53 | the vocals file is `htdemucs/<media stem>.vocals.wav` under the media file's parent, wherever the media file lies; when the media name is one component, that parent is the project directory |
| `Paths.SpeakerDirCaseInsensitive` | db/models.py:102-105 | for names not starting with `/`, two speakers of one project share a directory exactly when their lower-cased names parse to the same components; for single-component names, exactly when the names are equal after lower-casing |
| `Paths.SpeakerDirTrailingSlash` | db/models.py:102-105 | the speakers "a" and "a/" share one voices directory |
| `Paths.UtteranceAudioPathsDistinct` | db/models.py:123-124 | in one translation, two utterances share an audio path exactly when they share an index |
| `Paths.TranslationRootsDistinct` | db/models.py:81-87 | translations of one project share a directory exactly when they share an id; the text file is the components of `translation.<lang>.txt` under that directory, directly in it when the language code holds no `/` |
| `Media.ExtractVideoId` | media_utils.py:62-77 | a found id is 11 characters from `[A-Za-z0-9_-]` |
| `Media.ExtractFound` | media_utils.py:72-75 | a found id is the 11 characters that follow `youtube.com/` or `youtu.be/` and an optional `watch?v=`, `embed/` or `v/` in the string (scheme and `www.` being optional, the search needs neither), and that host is the leftmost such link: none starts before it, as `re.search` takes the leftmost match |
| `Media.NoLinkBefore` | media_utils.py:72-73 | no host followed by an id starts before the host of the match the search returns: an earlier one would be a match the search passed over, or a `y` inside the scheme or `www.` |
| `Media.ExtractNone` | media_utils.py:72-77 | `None` exactly when the string contains no such link anywhere |
| `Media.ShortLinkTakesFirstEleven` | media_utils.py:72-73 | the match is unanchored at the end: a longer id after `youtu.be/` yields its first 11 characters |
| `Media.EmbedUrlRoundTrip` | media_utils.py:57-75 | extracting the id from the embed URL built for an 11-character id returns that id |
| `Media.EmbedCodeRoundTrip` | media_utils.py:57-75 | extracting the id from the whole iframe code returns that id |
| `Rss.GetAudioLink` | rss_utils.py:4-13 | `None` with no entry; only the first entry's links are read; the href of the last `audio/mpeg` link, `None` when there is none, and the `KeyError` of the first link missing `type`, or an audio link missing `href` |
| `Podindex.LanguageCode` | podindex/main.py:20 | the code is the lower-cased language cut before its first `-` |
| `Podindex.RunCodesAre` | podindex/main.py:16-20 | each author group after sorting holds exactly that author's language codes |
| `Podindex.RunsDistinct` | podindex/main.py:16-18 | after sorting by author, no two groups share an author |
| `Podindex.KeepRuns` | podindex/main.py:18-30 | the loop over the author groups keeps, in group order, exactly the entries of the groups with more than one language code including `en` |
| `Podindex.MostLanguagesFirst` | podindex/main.py:32 | sorted on the negated language count, the podcasters go from most languages to fewest |
| `Podindex.MultilingualPodcasters` | podindex/main.py:16-32 | each kept author has their own codes, which include `en` and more than one code; every such author is kept, once; the result is ordered by number of languages, most first |
| `SpeakerTags.TagsAreTags` | utils.py:9 | each tag found is `{`, one or more word or whitespace characters, then `}` |
| `SpeakerTags.NextTagLeftmost` | utils.py:9-10 | the search finds the leftmost tag: no tag starts earlier |
| `SpeakerTags.SpeakerSegments` | utils.py:9-28 | one pair per tag found; with no tag, `StopIteration` |
| `SpeakerTags.SplitOnSpeakerChange` | utils.py:4-28 | the loop over the matches returns exactly the pairs described tag by tag |
| `SpeakerTags.PairsAreSegments` | utils.py:14-28 | the zipped lists are the per-tag pairs: speaker `i` is tag `i` without its braces; segment `i` runs from the end of tag `i` to the start of tag `i+1`, and the last segment runs to the end of the text |
| `SpeakerTags.TagsApart` | utils.py:9-10 | the tags the search yields do not overlap: each one starts no earlier than the previous one ends |
| `SpeakerTags.RemoveAllRemoves` | utils.py:16 | after `replace(c, '')` the text holds no `c` |
| `SpeakerTags.TagSpeaker` | utils.py:16-22 | the speaker name is the tag with its braces removed, and it is non-empty |
| `SpeakerTags.RejoinFromFirstTag` | utils.py:14-27 | rejoining `{speaker}` + segment over all pairs gives back the text from the first tag on, so the text before the first tag is dropped |
| `SpeakerTags.SingleTag` | utils.py:14-28 | a text with one tag gives exactly one pair: the name and everything after the tag |
| `SpeakerTags.SingleTaggedParagraph` | tests/test_text_utils.py:8-15 | a single tagged paragraph gives one pair whose stripped segment is the paragraph |
| `Stt.Scored` | editor_app/stt.py:20-27 | the stored record carries the utterance id, the transcript of its audio, the similarity of its text to that transcript, and the time |
| `Stt.RecordsForMembers` | db/models.py:121 | an utterance's records are exactly the log's records carrying its id |
| `Stt.NewestIsLatest` | editor_app/stt.py:32-35 | the newest record is in the log, and no record is dated later |
| `Stt.SortedLastIsNewest` | editor_app/stt.py:32-35 | `sorted(records, key=date)[-1]` is the newest record; among records tied on the latest date, the one that comes last in the log wins |
| `Stt.AppendedIsNewest` | editor_app/stt.py:23-27 | a record stored no earlier than every record in the log becomes the newest one |
| `Stt.Mean` | editor_app/stt.py:45 | fails exactly on an empty list, with `ZeroDivisionError` |
| `Stt.MeanBounds` | editor_app/stt.py:45 | the mean lies between any lower and upper bound of the scores |
| `Stt.SttLog.ComputeAndStoreScore` | editor_app/stt.py:20-28 | exactly one record is appended: the scored record of the utterance; the stored score is returned |
| `Stt.SttLog.GetOrComputeScore` | editor_app/stt.py:31-38 | with records for the utterance, the log is unchanged and the newest record's score is returned; without any, exactly one scored record is appended and its score returned |
| `Stt.SttLog.CalculateProjectScore` | editor_app/stt.py:41-45 | one score per utterance in program order, each the newest score of its utterance, and their mean; `ZeroDivisionError` when there are no utterances; the log only gains first records of utterances that had none, and no utterance gains two |
| `Stt.ScoreTwice` | editor_app/stt.py:31-38 | asking twice gives the same score; an utterance without records ends with exactly one; otherwise the log is untouched |
| `Timecode.TimeToSec` | editor_app/tts.py:311-314 | every failure is `ValueError`; fails unless there are exactly two `:`; success needs exactly one `.` in the seconds field |
| `Timecode.DigitsTimestamp` | editor_app/tts.py:311-314 | digit fields `H:M:S.F` read as `H*3600 + M*60 + S + F/1000`, with leading zeros allowed, so `.5` is 5 ms |
| `Timecode.TimestampRoundTrip` | editor_app/tts.py:311-314 | the timestamp printed from `h, m, s, ms` reads back as `h*3600 + m*60 + s + ms/1000` seconds |
| `Timecode.MissingFraction` | editor_app/tts.py:313 | without a `.` in the seconds field the unpacking raises `ValueError` |
| `Paging.Zip` | editor_app/tts.py:172 | `zip` stops at the shorter list and pairs equal positions |
| `Paging.KeptAboveThreshold` | editor_app/tts.py:171-174 | the kept pairs are in ascending score order, all score strictly above the threshold, and as a multiset they are exactly the pairs scoring above it |
| `Paging.AboveOfPartition` | editor_app/tts.py:173-174 | once the scores are sorted, the pairs from the bisection point on are exactly those above the threshold |
| `Paging.NoThresholdShowsAll` | editor_app/tts.py:171 | without a positive threshold, every utterance is shown in program order |
| `Paging.PageWindow` | editor_app/tts.py:176 | the page is the window of at most `max_utterance` utterances from `from_idx`, cut at the end, and it is empty past the end |
| `Paging.PageFromUtterances` | editor_app/tts.py:171-176 | everything shown, and so everything on the page, is an utterance of the program |
| `Timeline.Zeros` | editor_app/tts.py:264 | `np.zeros_like`: `n` zero samples |
| `Timeline.Add` | editor_app/tts.py:288 | element-wise sum of two arrays of one shape |
| `Timeline.Concat` | editor_app/tts.py:253-266 | the waveforms end to end have the total sample count |
| `Timeline.ConcatEmpty` | editor_app/tts.py:262-290 | the waveforms end to end are empty exactly when every utterance's waveform is empty |
| `Timeline.TrackOf` | editor_app/tts.py:253-266 | every speaker track has the total sample count of all utterances |
| `Timeline.Peak` | editor_app/tts.py:290 | `np.abs(x).max()`: no sample's magnitude exceeds it, and some sample reaches it |
| `Timeline.PeakNormalize` | editor_app/tts.py:290 | fails exactly on an empty waveform, with `ValueError` |
| `Timeline.NormalizedLevels` | editor_app/tts.py:290 | NaN exactly when every sample is zero; otherwise every sample is divided by the peak, lies in [-1, 1], and some sample reaches full scale |
| `Timeline.Extend` | editor_app/tts.py:262 | `defaultdict(list)[k].extend(xs)`: a new key enters the key order last; the key's list gains `xs`; no other list changes |
| `Timeline.SilenceOthers` | editor_app/tts.py:264-266 | every speaker in the set gets `n` zeros on its track, created empty where missing; the key order stays a duplicate-free list of the keys |
| `Timeline.MixDown` | editor_app/tts.py:285-288 | the mix is the first channel with every further channel added |
| `Timeline.PlaceClip` | editor_app/tts.py:257-266 | after utterance `i`, the keys are all speakers, each once in the key order, and every speaker's track is its track over the utterances up to `i` |
| `Timeline.LayTracks` | editor_app/tts.py:253-276 | after the loop, the key order lists every speaker once; each speaker's track is its samples where it speaks and zeros elsewhere; the metadata is the chain over all utterances |
| `Timeline.Combine` | editor_app/tts.py:241-290 | `IndexError` without utterances; `ValueError` exactly when the utterances hold no samples at all; otherwise one track per speaker with each track right, the metadata chain, the mix equal to the concatenation, and the normalised levels |
| `Timeline.MaskedAll` | editor_app/tts.py:262-266 | with every speaker audible, the masked clips are the plain concatenation |
| `Timeline.AddTrack` | editor_app/tts.py:287-288 | adding one speaker's track to a mix of other speakers makes that speaker audible too |
| `Timeline.MixChannels` | editor_app/tts.py:285-288 | mixing the tracks of distinct speakers masks in exactly those speakers |
| `Timeline.MixIsConcat` | editor_app/tts.py:262-288 | before normalisation, the sum of all speaker tracks is the utterance waveforms in program order |
| `Timeline.TrackAt` | editor_app/tts.py:262-266 | over utterance `i`'s range, its speaker's track holds exactly its samples and every other track holds zeros |
| `Timeline.MetadataChain` | editor_app/tts.py:256-276 | one entry per utterance, in order, with its speaker and text; the first starts at 0; each starts where the previous ended; each lasts `n_sample / sample_rate`; the last ends at the total duration |
| `Editor.ExpandOutcome` | editor_app/tts.py:49-65 | the expansion fails exactly when some raw utterance names an unknown speaker, with the "No such speaker" error of the first one |
| `Editor.ExpandIds` | editor_app/tts.py:49-65 | after a successful expansion every piece's speaker has an id, the id of the project's speaker of that name |
| `Editor.ExpandLines` | editor_app/tts.py:47-65 | the loop over raw utterances and their pieces computes the expansion |
| `Editor.FirstRecord` | editor_app/tts.py:76-81 | the record stored for piece `k` carries row id `first + k`, the time, and the similarity of the piece's text to the transcript of its synthesised audio |
| `Editor.Repair` | editor_app/tts.py:86-111 | `IndexError` exactly when the row has no record; a perfect newest score leaves the row alone; a proposed repair redacts the found repetition from the audio, is scored like any record, and beats the newest score |
| `Editor.RepairRaisesScore` | editor_app/tts.py:103-110 | an accepted repair, stored no earlier than the row's records, becomes its newest record, so the row's newest score strictly rises; no other row's records change |
| `Editor.Translation.AddPiece` | editor_app/tts.py:67-81 | one turn of the loop: the row of piece `idx` with the next id, its synthesised audio under index `idx`, and its scored record appended to the log |
| `Editor.Translation.Synthesize` | editor_app/tts.py:67-81 | one row per piece, numbered 0..n-1 in program order with consecutive ids; each piece's audio is synthesised in its speaker's voice and stored under its index; exactly one scored record per row, in order |
| `Editor.Translation.RepairUtterance` | editor_app/tts.py:87-111 | the gate's outcome: an accepted repair appends exactly its record and overwrites that row's audio; anything else changes nothing |
| `Editor.Translation.RepairAll` | editor_app/tts.py:85-111 | rows and audio keys stay; each row gains at most one record, dated now; only `IndexError` can stop the pass |
| `Editor.Read` | editor_app/tts.py:33-114 | in order, the title error, the missing-translation error, the refusal of a translation that already has utterances, and the unknown-speaker error, none of which changes anything; on success, the rows numbered 0..n-1 in program order with texts and speakers from the expansion, each with one first record, and the validated title returned |
| `Editor.Load` | editor_app/tts.py:156-200 | the title error; the missing-project error; `ZeroDivisionError` without utterances; every record the call appends is the first of its row, scored by the recogniser and the similarity from that row's text and audio, and no row gains two; on success, the count, the mean of the newest scores, and the page of the shown utterances, each with its newest score and audio |
| `Editor.PageEntries` | editor_app/tts.py:178-187 | each page utterance comes with the score of its newest record, which leaves the log unchanged, and with its audio |
| `Editor.CombineProject` | editor_app/tts.py:241-290 | a missing project is refused; a translation without rows gives `IndexError`; `ValueError` exactly when the rows' audio holds no samples; otherwise the tracks, metadata and mix of `combine` over the rows' audio |

## Left out

- Speech synthesis, recognition, alignment, diarization, DeepL, the text
  normaliser, the similarity scorer, `find_single_repetition`,
  `split_on_raw_utterances` and `split_and_recombine_text` are foreign or not
  shown. They are function parameters, so nothing is proved about what they
  compute.
- The language argument of `transcribe_utterance`, and the `lang` that
  `reread` passes, are not modelled. The recogniser is one function of the
  audio.
- File and media I/O is not modelled: `sf.read`/`sf.write`, `json.dump`,
  `mkdir`, the ffmpeg conversion and muxing, and the media download helpers.
  Audio files are a map from utterance index to samples. A read of a missing
  file is excluded by `Translation.Valid`.
- Every audio file is written at one sample rate, the configured one, and
  `combine` reads it back at that rate. A file with another rate is not
  modelled.
- Floating point is not modelled. Samples and seconds are exact reals, so
  rounding, the `:.3f` formatting of the metadata and NaN arithmetic are
  absent. An all-zero mix yields `NotANumber` instead of a NaN array.
- `timecode_to_timerange` and `timecode_based_combine` are not modelled. The
  first depends on `time_re`, which is not shown. The second is called from
  nowhere.
- The video branch of `combine` is not modelled; it depends on ffmpeg probing
  and `timecode_to_timerange`.
- The Gradio widget updates of `load` are not modelled: the textboxes, audio
  players, buttons and padding rows. The page is returned as entries.
- `get_speakers`, `project.text` and the user lookup by e-mail are left out
  of `load` and `read`. A translation lookup is a nullable `Translation`
  argument. A speaker lookup is a map from the name asked for to the speaker
  row.
- `date_started` and `date_completed` are not modelled. All records written
  by one call carry the one clock reading `now`.
- Database ids are assumed to be handed out consecutively by the utterance
  table. The model keeps the next id in `Translation.nextId`.
- The ORM relationships `utterance.utterance_stt` and `translation.utterances`
  (db/models.py:79, which has no `order_by`) are assumed to list rows in
  insertion order. The model filters the log in its own order, and `load`,
  `combine` and the repair pass take a translation's rows in the order they
  were added.
- `reread`, `playground_read` and `load_translation` are not modelled. They
  are UI flows around the same calls.
- The `isinstance(title, str)` check in title validation is not modelled,
  because titles are always strings here.
- `str.lower` and `str.isspace` are modelled for ASCII and the Unicode
  whitespace set only. The regex class `\w` is modelled as ASCII letters,
  digits and `_`.
- Text.ParseInt: `int()` is modelled for ASCII digits only. Python also accepts
  every other Unicode decimal digit (`int("١")` is 1); the model raises
  `ValueError` for those, so `time_to_sec` fails on timestamps written with
  them.
- The `assert utter_audio.ndim == 1` of `combine` (tts.py line 260) is not
  modelled. Audio is a sequence of samples, so it is mono by construction,
  and the `AssertionError` it would raise never arises.
- Paths are POSIX `pathlib` paths. The special root `//` (exactly two leading
  slashes) and Windows drives are not modelled. The directory names that
  the code spells out (`cross_projects`, `voices`) are joined as the single
  components they are.
- Ties in the stable sorts of `podindex` and of the threshold filter are not
  ordered by any proved property.
- Editor.Translation.RepairAll: its contract states only that each row gains
  at most one record dated `now`. The per-row gate is stated by
  `RepairUtterance`, and its consequence for the newest score by
  `RepairRaisesScore`.
- Editor.Read: with the repair pass switched on, the contract states only
  that the first records are a prefix of the log. The pass itself is
  specified by `RepairAll`. The source switches the pass off (tts.py line 34);
  here it is the `checkForRepetitions` argument.
