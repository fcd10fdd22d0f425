/**
  Concrete timelines that pin down the edge cases of the alignment: which
  boundary contacts count as overlap, the whitespace-only turn that is kept,
  and the speaker that is counted without producing an entry.
*/
module Scenarios {
  import opened Text
  import opened Alignment
  import opened SttRouter

  /** A turn over [2.0, 5.0). */
  const Turn25 := Turn(2.0, 5.0, "SPEAKER_00")

  /**
    Around Turn25: a segment ending exactly where the turn starts, one starting
    exactly where it starts, one starting inside and running past its end, and
    one entirely before it.
  */
  const Around25 := [Segment(1.0, 2.0, "before"), Segment(2.0, 3.0, "hello"),
                     Segment(4.9, 6.0, "world"), Segment(0.0, 1.0, "early")]

  /** Only the second and third segments are collected, in segment order. */
  lemma BoundaryContactsCollected()
    ensures MatchedTexts(Turn25, Around25) == ["hello", "world"]
  {
    MatchedTextsStep(Turn25, Around25, 0);
    MatchedTextsStep(Turn25, Around25, 1);
    MatchedTextsStep(Turn25, Around25, 2);
    MatchedTextsStep(Turn25, Around25, 3);
    assert Around25[..0] == [];
    assert Around25[..4] == Around25;
  }

  /** Joining and stripping the two collected texts gives "hello world". */
  lemma BoundaryContactsText()
    ensures Strip(Join(["hello", "world"])) == "hello world"
  {
    assert Join(["hello", "world"]) == "hello world";
    StripUnchanged("hello world");
  }

  /** The collected texts become the turn's single entry. */
  lemma BoundaryContactsTranscript()
    ensures Transcript([Turn25], Around25) == [Utterance(2.0, 5.0, "SPEAKER_00", "hello world", 3.0)]
  {
    BoundaryContactsCollected();
    BoundaryContactsText();
    TranscriptOfOneTurn(Turn25, Around25);
  }

  /** A segment covering the whole turn from outside is not collected, so the turn is dropped. */
  lemma SpanningSegmentDropsTurn()
    ensures Transcript([Turn25], [Segment(1.0, 6.0, "across")]) == []
  {
    var segments := [Segment(1.0, 6.0, "across")];
    assert !Overlaps(segments[0], Turn25);
    assert MatchedTexts(Turn25, segments) == [];
    TranscriptOfOneTurn(Turn25, segments);
  }

  /** A turn whose only collected text is whitespace yields an entry with empty text. */
  lemma WhitespaceOnlyTurn()
    ensures Transcript([Turn25], [Segment(2.0, 2.5, "  ")])
            == [Utterance(2.0, 5.0, "SPEAKER_00", "", 3.0)]
  {
    var segments := [Segment(2.0, 2.5, "  ")];
    MatchedTextsStep(Turn25, segments, 0);
    assert segments[..0] == [] && segments[..1] == segments;
    assert AllSpace("  ");
    TranscriptOfOneTurn(Turn25, segments);
  }

  /** A diarization with two speakers of which only the first is heard in the transcription. */
  const TwoSpeakers := [Turn(0.0, 1.0, "SPEAKER_00"), Turn(3.0, 4.0, "SPEAKER_01")]
  const FirstSpeakerOnly := [Segment(0.0, 0.8, "hi")]

  /** The segment falls in the first turn and in no other. */
  lemma OnlyFirstTurnMatches()
    ensures MatchingTurns(TwoSpeakers, FirstSpeakerOnly) == {0}
  {
    assert MatchedTexts(TwoSpeakers[0], FirstSpeakerOnly) != [] by {
      assert Overlaps(FirstSpeakerOnly[0], TwoSpeakers[0]);
    }
    assert MatchedTexts(TwoSpeakers[1], FirstSpeakerOnly) == [];
  }

  /** Only the first speaker's turn produces an entry. */
  lemma SilentSpeakerDropped()
    ensures |Transcript(TwoSpeakers, FirstSpeakerOnly)| == 1
  {
    OnlyFirstTurnMatches();
    TranscriptLength(TwoSpeakers, FirstSpeakerOnly);
  }

  /** Both speakers are counted, the silent one included. */
  lemma SilentSpeakerCounted()
    ensures |Speakers(TwoSpeakers)| == 2
  {
    assert Speakers(TwoSpeakers) == {"SPEAKER_00", "SPEAKER_01"};
  }
}
