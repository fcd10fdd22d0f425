/**
  The `/transcribe` handler once the recogniser and the diarizer have run:
  it refuses to work without a diarization pipeline, fuses the two timelines
  into the transcript, and reports the session figures next to it.
*/
module SttRouter {
  import opened Text
  import opened Alignment

  /** What the recogniser returns: its segments and the optional report fields. */
  datatype Transcription = Transcription(segments: seq<Segment>, language: Option<string>, processingTime: Option<real>)

  /** The handler's reply body. */
  datatype Response =
    | Success(processingTime: real, totalDuration: real, speakerCount: nat, language: string, results: seq<Utterance>)
    | Error(message: string, detail: string)
  {
    /** The `status` field of the reply. */
    function Status(): string {
      if Success? then "success" else "error"
    }
  }

  /** The language reported when the recogniser does not name one. */
  const DefaultLanguage: string := "ko"

  /** The reply when the diarization pipeline failed to load. */
  const InitializationFailure: Response :=
    Error("Diarization pipeline not initialized. Please check model access.", "InitializationError")

  /** The distinct speaker labels of a diarization. */
  function Speakers(turns: seq<Turn>): set<string> {
    set t | t in turns :: t.speaker
  }

  /** There are never more distinct speakers than turns. */
  lemma {:induction false} SpeakersAtMostTurns(turns: seq<Turn>)
    ensures |Speakers(turns)| <= |turns|
  {
    if turns != [] {
      var n := |turns| - 1;
      SpeakersAtMostTurns(turns[..n]);
      assert turns == turns[..n] + [turns[n]];
      assert Speakers(turns) == Speakers(turns[..n]) + {turns[n].speaker};
    } else {
      assert Speakers(turns) == {};
    }
  }

  /**
    Every speaker of the transcript is a speaker of the diarization, so the
    reported count is at least the number of speakers the transcript shows;
    a speaker whose turns produced no entry is still counted.
  */
  lemma TranscriptSpeakersCounted(turns: seq<Turn>, segments: seq<Segment>)
    ensures (set u | u in Transcript(turns, segments) :: u.speaker) <= Speakers(turns)
    ensures |set u | u in Transcript(turns, segments) :: u.speaker| <= |Speakers(turns)| <= |turns|
  {
    var out := Transcript(turns, segments);
    forall u | u in out ensures u.speaker in Speakers(turns) {
      var k :| 0 <= k < |out| && out[k] == u;
      TranscriptFrom(turns, segments, k);
      var i :| 0 <= i < |turns| && MatchedTexts(turns[i], segments) != []
               && out[k] == Compose(turns[i], MatchedTexts(turns[i], segments));
      assert turns[i] in turns;
    }
    SubsetCardinality(set u | u in out :: u.speaker, Speakers(turns));
    SpeakersAtMostTurns(turns);
  }

  /** A subset is no larger than its superset. */
  lemma {:induction false} SubsetCardinality<T>(a: set<T>, b: set<T>)
    requires a <= b
    ensures |a| <= |b|
    decreases |a|
  {
    if a != {} {
      var x :| x in a;
      SubsetCardinality(a - {x}, b - {x});
    }
  }

  /**
    The handler body: the short-circuit on a missing pipeline, then for each
    turn a scan of every segment, then the session figures. `audioMs` is the
    length of the decoded audio in milliseconds.
  */
  method Transcribe(pipelineLoaded: bool, transcription: Transcription, turns: seq<Turn>, audioMs: nat)
    returns (r: Response)
    ensures !pipelineLoaded ==> r == InitializationFailure
    ensures pipelineLoaded ==> r.Success?
    ensures r.Success? ==> r.results == Transcript(turns, transcription.segments)
    ensures r.Success? ==> r.speakerCount == |Speakers(turns)|
    ensures r.Success? ==> r.totalDuration == audioMs as real / 1000.0
    ensures r.Success? ==> r.language == (if transcription.language.Some? then transcription.language.value else DefaultLanguage)
    ensures r.Success? ==> r.processingTime == (if transcription.processingTime.Some? then transcription.processingTime.value else 0.0)
  {
    if !pipelineLoaded {
      return InitializationFailure;
    }
    var segments := transcription.segments;
    var formatted: seq<Utterance> := [];
    var i := 0;
    while i < |turns|
      invariant 0 <= i <= |turns|
      invariant formatted == Transcript(turns[..i], segments)
    {
      var turn := turns[i];
      var segmentText: seq<string> := [];
      var j := 0;
      while j < |segments|
        invariant 0 <= j <= |segments|
        invariant segmentText == MatchedTexts(turn, segments[..j])
      {
        var seg := segments[j];
        if Overlaps(seg, turn) {
          segmentText := segmentText + [seg.text];
        }
        MatchedTextsStep(turn, segments, j);
        j := j + 1;
      }
      assert segments[..j] == segments;
      if segmentText != [] {
        formatted := formatted + [Compose(turn, segmentText)];
      }
      TranscriptStep(turns, segments, i);
      i := i + 1;
    }
    assert turns[..i] == turns;
    var totalDuration := audioMs as real / 1000.0;
    var language := if transcription.language.Some? then transcription.language.value else DefaultLanguage;
    var processingTime := if transcription.processingTime.Some? then transcription.processingTime.value else 0.0;
    r := Success(processingTime, totalDuration, |Speakers(turns)|, language, formatted);
  }
}
