# Speaker-attributed transcription: timeline fusion

This project models the core of the `/transcribe` endpoint of a Whisper +
pyannote service. After the speech recogniser has produced timed text
segments `(start, end, text)` and the diarizer has produced timed speaker
turns `(start, end, speaker)`, the handler fuses the two timelines:

- **Alignment.** Each turn scans the whole segment list on its own. It
  collects a segment when the segment's start lies in `[turn.start, turn.end)`
  or its end lies in `(turn.start, turn.end]`. A segment that spans the whole
  turn, with neither endpoint inside it, is not collected. One segment can be
  collected by several turns.
- **Composition.** A turn that collected at least one segment becomes an
  entry. The entry holds the turn's start, end and speaker, the collected
  texts joined with single spaces and then stripped, and the duration
  `end - start`. A turn whose collected texts are all whitespace still
  yields an entry, with text `""`.
- **Aggregation.** The reply reports the audio length in seconds (milliseconds
  / 1000) and the number of distinct speaker labels over all turns. It falls
  back to language `"ko"` and processing time `0` when the recogniser does
  not report them.
- **Short-circuit.** Without a diarization pipeline the handler returns the
  fixed `InitializationError` reply and aligns nothing.

Files:

- `text.dfy` (module `Text`): Python's `" ".join` and `str.strip()`. The
  whitespace set is exactly the characters for which `str.isspace()` holds.
- `alignment.dfy` (module `Alignment`): the records, the overlap test, the
  collection of a turn's texts, composition and the transcript. Collection and
  emission are both one left-to-right filter-and-map pass, `Keep`. Its order
  and counting lemmas are proved once and used for both.
- `stt_router.dfy` (module `SttRouter`): the reply type, the speaker set, and
  `Transcribe`. `Transcribe` is the handler body: the nested loops of the
  source, proved equal to `Transcript`.
- `scenarios.dfy` (module `Scenarios`): concrete timelines for the boundary
  cases.

Times are Dafny `real` seconds, so they are exact. The audio length is a
natural number of milliseconds, which is what the audio library's `len`
returns.

The handler drops a turn only when it collected no segment (`if
segment_text:`, apis/_router/stt_router.py:158). It does not drop a turn whose
joined text strips to empty, so `Alignment.WhitespaceTurnKept` and
`Scenarios.WhitespaceOnlyTurn` state the entry with text `""`.

## Model

| member | source | states |
|---|---|---|
| `Alignment.Overlaps` | apis/_router/stt_router.py:149-155 | the overlap test, comparison for comparison: the segment starts in `[turn.start, turn.end)` or ends in `(turn.start, turn.end]` |
| `Alignment.SpanningSegmentNotCollected` | apis/_router/stt_router.py:149-155 | a segment that starts before a turn and ends after it fails the overlap test |
| `Alignment.CollectedSegmentMeetsTurn` | apis/_router/stt_router.py:149-155 | a collected well-formed segment meets the turn as closed intervals do (the converse fails) |
| `Alignment.Collect` | apis/_router/stt_router.py:149-156 | one inner-loop step: a segment contributes its text to the turn exactly when it passes the overlap test |
| `Alignment.MatchedTexts` | apis/_router/stt_router.py:146-156 | a turn collects at most as many texts as there are segments; it collects none exactly when no segment passes the overlap test |
| `Alignment.MatchedTextsStep` | apis/_router/stt_router.py:147-156 | scanning one more segment appends its text exactly when it overlaps the turn |
| `Alignment.MatchedTextsAt` | apis/_router/stt_router.py:147-156 | every overlapping segment's text is collected, after the texts of all earlier segments |
| `Alignment.MatchedTextsFrom` | apis/_router/stt_router.py:147-156 | every collected text comes from an overlapping segment, in segment order |
| `Alignment.SharedSegment` | apis/_router/stt_router.py:144-156 | a segment overlapping two turns is collected by both (no deduplication) |
| `Alignment.Compose` | apis/_router/stt_router.py:159-166 | an entry carries the turn's start, end and speaker; duration is end minus start and is non-negative for a well-formed turn; its text is empty exactly when every collected text is whitespace |
| `Alignment.Emit` | apis/_router/stt_router.py:158-166 | one outer-loop step: a turn contributes its composed entry exactly when it collected at least one text |
| `Alignment.Transcript` | apis/_router/stt_router.py:141-167 | the transcript never has more entries than there are turns |
| `Alignment.TranscriptStep` | apis/_router/stt_router.py:144-167 | processing one more turn appends its composed entry exactly when it collected a segment |
| `Alignment.TranscriptOfOneTurn` | apis/_router/stt_router.py:158-167 | a single turn yields its composed entry if it collected a segment, and nothing otherwise |
| `Alignment.TranscriptLength` | apis/_router/stt_router.py:158-159 | the number of entries equals the number of turns that collected at least one segment |
| `Alignment.TranscriptAt` | apis/_router/stt_router.py:144-166 | every turn that collected a segment yields its composed entry, placed after the entries of all earlier turns |
| `Alignment.TranscriptFrom` | apis/_router/stt_router.py:144-166 | every entry was composed from one turn that collected a segment, at the position given by the earlier turns |
| `Alignment.TranscriptInTurnOrder` | apis/_router/stt_router.py:144-167 | entries appear in the order of the turns that produced them |
| `Alignment.WhitespaceTurnKept` | apis/_router/stt_router.py:158-164 | a turn whose collected texts are all whitespace is not dropped; its entry has empty text and the turn's speaker |
| `Alignment.Keep` | apis/_router/stt_router.py:146-159 | a filter-and-map pass keeps at most one value per element, and none exactly when no element is kept |
| `Alignment.KeepPrefix` | apis/_router/stt_router.py:146-159 | a pass over a prefix keeps a prefix of the values |
| `Alignment.KeepAt` | apis/_router/stt_router.py:146-159 | a kept element's value sits after the values kept from the elements before it |
| `Alignment.KeepFrom` | apis/_router/stt_router.py:146-159 | every kept value comes from a kept element, in order |
| `Alignment.KeepLength` | apis/_router/stt_router.py:146-159 | one value is kept per kept element |
| `Text.LeadingSpaces` | apis/_router/stt_router.py:164 | the count of leading characters `strip()` removes covers only whitespace and stops at the first non-space |
| `Text.TrailingSpaces` | apis/_router/stt_router.py:164 | the count of trailing characters `strip()` removes covers only whitespace and stops at the last non-space |
| `Text.Strip` | apis/_router/stt_router.py:164 | `strip()` gives the empty string exactly when the input is all whitespace |
| `Text.StripSlice` | apis/_router/stt_router.py:164 | `strip()` keeps one contiguous slice of the input with only whitespace before and after it |
| `Text.StripEnds` | apis/_router/stt_router.py:164 | a non-empty result of `strip()` starts and ends with a non-space |
| `Text.StripUnchanged` | apis/_router/stt_router.py:164 | `strip()` leaves a string that neither starts nor ends with whitespace unchanged |
| `Text.Join` | apis/_router/stt_router.py:164 | `" ".join`: the parts in order, a single space between neighbours, `""` for no parts |
| `Text.JoinAllSpace` | apis/_router/stt_router.py:164 | `" ".join` of the texts is all whitespace exactly when every text is |
| `Text.JoinAppend` | apis/_router/stt_router.py:164 | `" ".join` puts the texts in order with exactly one space between neighbours |
| `SttRouter.Speakers` | apis/_router/stt_router.py:176-178 | the set of speaker labels over all turns, whose size is the reported speaker count |
| `SttRouter.SpeakersAtMostTurns` | apis/_router/stt_router.py:176-178 | the speaker count is at most the number of turns |
| `SttRouter.TranscriptSpeakersCounted` | apis/_router/stt_router.py:176-178 | every speaker in the transcript is counted; the count is at least the number of speakers shown in the transcript and at most the number of turns |
| `SttRouter.SubsetCardinality` | apis/_router/stt_router.py:176-178 | a subset of the speaker labels is no larger than the set |
| `SttRouter.Response.Status` | apis/_router/stt_router.py:173 | the `status` field: `"success"` for a successful reply, and `"error"` otherwise, as in the reply of line 111 |
| `SttRouter.DefaultLanguage` | apis/_router/stt_router.py:179 | the language `"ko"` reported when the recogniser names none |
| `SttRouter.InitializationFailure` | apis/_router/stt_router.py:110-114 | the fixed error reply with its message and the detail `InitializationError` |
| `SttRouter.Transcribe` | apis/_router/stt_router.py:108-181 | without a pipeline the reply is exactly the InitializationError reply; otherwise it succeeds with the transcript, the distinct speaker count over all turns, the audio length in ms / 1000, and the language and processing time with fallbacks `"ko"` and `0` |
| `Scenarios.BoundaryContactsCollected` | apis/_router/stt_router.py:149-156 | for the turn [2.0, 5.0), a segment ending at 2.0 is excluded, one starting at 2.0 or at 4.9 and ending past 5.0 is included, in segment order |
| `Scenarios.BoundaryContactsText` | apis/_router/stt_router.py:164 | joining and stripping "hello" and "world" gives "hello world" |
| `Scenarios.BoundaryContactsTranscript` | apis/_router/stt_router.py:158-167 | that turn yields the single entry (2.0, 5.0, speaker, "hello world", 3.0) |
| `Scenarios.SpanningSegmentDropsTurn` | apis/_router/stt_router.py:149-159 | a turn covered only by a segment spanning it from outside produces no entry |
| `Scenarios.WhitespaceOnlyTurn` | apis/_router/stt_router.py:158-167 | a turn whose only collected text is whitespace yields an entry with empty text |
| `Scenarios.OnlyFirstTurnMatches` | apis/_router/stt_router.py:149-158 | of two turns, only the one containing the segment collects it, so the matching turns are exactly `{0}` |
| `Scenarios.SilentSpeakerDropped` | apis/_router/stt_router.py:158-159 | with two turns of which only one collects a segment, there is one entry |
| `Scenarios.SilentSpeakerCounted` | apis/_router/stt_router.py:176-178 | the speaker of the turn that produced no entry is still counted: two speakers |

## Left out

- Model loading, token lookup, environment and cache-directory setup, and the cached Whisper loader (apis/_router/stt_router.py:23-96). These are process-wide singletons built by foreign libraries. Whether the diarization pipeline loaded is the `pipelineLoaded` parameter of `Transcribe`.
- `load_audio` (apis/_router/stt_router.py:99-104): audio decoding and floating-point sample scaling in a foreign library.
- Writing the upload to a temporary file, converting it to 16 kHz mono WAV, the Whisper and pyannote inference calls, and the deletion of the temporary files (apis/_router/stt_router.py:116-138, 187-192). These are file I/O and opaque predictors. Their outputs are the inputs of `Transcribe`: the recogniser's `Transcription`, the diarizer's turns, and the audio length in milliseconds.
- The catch-all conversion of an exception into an error reply (apis/_router/stt_router.py:183-185). It only wraps failures of the external steps above. The modelled steps are total.
- `Alignment.Compose`: does not model Python's `round(x, 2)` on `start`, `end` and `duration`. Times are exact reals, and the entry carries the unrounded turn times (apis/_router/stt_router.py:161-162, 165).
- `SttRouter.Transcribe`: does not model `round(total_duration, 2)`. It reports the exact `audioMs / 1000` (apis/_router/stt_router.py:175).
- Floating-point behaviour of the time comparisons (NaN, infinities) is not modelled. Times are reals.
- The diarizer's `itertracks` iteration is modelled as one sequence of turns. The source iterates it twice, once to align and once to count speakers, and the model assumes both passes yield the same turns.
- The JSON serialisation of the reply and the HTTP routing (_core/api.py) are not modelled. The health endpoint (apis/_router/health_router.py) is not part of this model.
