/**
  Fusion of the two timelines produced for one recording: the speech
  recogniser's timed text segments and the diarizer's timed speaker turns.
  For every turn the segments whose boundaries fall inside it are collected
  in segment order; a turn that collected at least one segment becomes an
  utterance carrying the turn's times and speaker and the collected texts
  joined by spaces and stripped. Times are seconds, kept exact.
*/
module Alignment {
  import opened Text

  /** A timed piece of recognised text, as the recogniser reports it. */
  datatype Segment = Segment(start: real, end: real, text: string)

  /** A stretch of audio attributed to one speaker label by the diarizer. */
  datatype Turn = Turn(start: real, end: real, speaker: string)

  /** One entry of the transcript: a turn together with the text spoken in it. */
  datatype Utterance = Utterance(start: real, end: real, speaker: string, text: string, duration: real)

  /**
    The overlap test deciding whether a segment belongs to a turn: its start
    lies in [turn.start, turn.end) or its end lies in (turn.start, turn.end].
  */
  predicate Overlaps(seg: Segment, turn: Turn) {
    || (seg.start >= turn.start && seg.start < turn.end)
    || (seg.end > turn.start && seg.end <= turn.end)
  }

  /** A segment that begins before a turn and ends after it is not collected. */
  lemma SpanningSegmentNotCollected(seg: Segment, turn: Turn)
    requires seg.start < turn.start && turn.end < seg.end
    ensures !Overlaps(seg, turn)
  {
  }

  /**
    A collected segment always meets the turn as closed intervals do; the
    converse fails (see SpanningSegmentNotCollected).
  */
  lemma CollectedSegmentMeetsTurn(seg: Segment, turn: Turn)
    requires seg.start <= seg.end
    requires Overlaps(seg, turn)
    ensures seg.start <= turn.end && turn.start <= seg.end
  {
  }

  datatype Option<T> = None | Some(value: T)

  /**
    The values `f` keeps from `xs`, in the order of `xs`: a filter and a map
    done in one left-to-right pass. Both the collection of a turn's texts and
    the emission of entries are passes of this shape.
  */
  function Keep<A, B>(xs: seq<A>, f: A -> Option<B>): (ys: seq<B>)
    ensures |ys| <= |xs|
    ensures ys == [] <==> forall j :: 0 <= j < |xs| ==> f(xs[j]).None?
  {
    if xs == [] then []
    else
      var last := xs[|xs| - 1];
      Keep(xs[..|xs| - 1], f) + (if f(last).Some? then [f(last).value] else [])
  }

  /** A pass over a prefix of `xs` keeps a prefix of the values. */
  lemma {:induction false} KeepPrefix<A, B>(xs: seq<A>, f: A -> Option<B>, j: nat)
    requires j <= |xs|
    ensures Keep(xs[..j], f) <= Keep(xs, f)
    decreases |xs|
  {
    if j < |xs| {
      var n := |xs| - 1;
      assert xs[..n][..j] == xs[..j];
      KeepPrefix(xs[..n], f, j);
    } else {
      assert xs[..j] == xs;
    }
  }

  /** A kept element's value sits after the values kept from the elements before it. */
  lemma KeepAt<A, B>(xs: seq<A>, f: A -> Option<B>, j: nat)
    requires j < |xs| && f(xs[j]).Some?
    ensures |Keep(xs[..j], f)| < |Keep(xs, f)|
    ensures Keep(xs, f)[|Keep(xs[..j], f)|] == f(xs[j]).value
  {
    assert xs[..j + 1][..j] == xs[..j];
    KeepPrefix(xs, f, j + 1);
  }

  /** Every kept value comes from an element that `f` keeps, in order. */
  lemma {:induction false} KeepFrom<A, B>(xs: seq<A>, f: A -> Option<B>, k: nat)
    requires k < |Keep(xs, f)|
    ensures exists j :: 0 <= j < |xs| && f(xs[j]).Some? && |Keep(xs[..j], f)| == k
                        && Keep(xs, f)[k] == f(xs[j]).value
    decreases |xs|
  {
    var n := |xs| - 1;
    var front := xs[..n];
    var kept := Keep(front, f);
    assert Keep(xs, f) == kept + (if f(xs[n]).Some? then [f(xs[n]).value] else []);
    if k < |kept| {
      KeepFrom(front, f, k);
      var j :| 0 <= j < |front| && f(front[j]).Some? && |Keep(front[..j], f)| == k
               && kept[k] == f(front[j]).value;
      assert front[..j] == xs[..j];
      assert xs[j] == front[j];
    } else {
      assert xs[..n] == front;
      assert Keep(xs, f)[k] == f(xs[n]).value;
    }
  }

  /** The indices of the elements that `f` keeps. */
  function KeptIndices<A, B>(xs: seq<A>, f: A -> Option<B>): set<nat> {
    set j: nat | j < |xs| && f(xs[j]).Some?
  }

  /** One value is kept per element that `f` keeps. */
  lemma {:induction false} KeepLength<A, B>(xs: seq<A>, f: A -> Option<B>)
    ensures |Keep(xs, f)| == |KeptIndices(xs, f)|
    decreases |xs|
  {
    if xs != [] {
      var n := |xs| - 1;
      KeepLength(xs[..n], f);
      var before := KeptIndices(xs[..n], f);
      if f(xs[n]).Some? {
        assert KeptIndices(xs, f) == before + {n};
      } else {
        assert KeptIndices(xs, f) == before;
      }
    } else {
      assert KeptIndices(xs, f) == {};
    }
  }

  /** The text a segment contributes to `turn`, if it overlaps it. */
  function Collect(turn: Turn): Segment -> Option<string> {
    seg => if Overlaps(seg, turn) then Some(seg.text) else None
  }

  /**
    The texts of the segments that overlap `turn`, in segment order. Each turn
    scans the whole segment list on its own, so nothing is deduplicated.
  */
  function MatchedTexts(turn: Turn, segments: seq<Segment>): (texts: seq<string>)
    ensures |texts| <= |segments|
    ensures texts == [] <==> forall j :: 0 <= j < |segments| ==> !Overlaps(segments[j], turn)
  {
    Keep(segments, Collect(turn))
  }

  /**
    Every overlapping segment contributes its text, at the position given by
    the number of texts collected from the segments before it.
  */
  lemma MatchedTextsAt(turn: Turn, segments: seq<Segment>, j: nat)
    requires j < |segments| && Overlaps(segments[j], turn)
    ensures |MatchedTexts(turn, segments[..j])| < |MatchedTexts(turn, segments)|
    ensures MatchedTexts(turn, segments)[|MatchedTexts(turn, segments[..j])|] == segments[j].text
  {
    KeepAt(segments, Collect(turn), j);
  }

  /** Every collected text comes from an overlapping segment, in segment order. */
  lemma MatchedTextsFrom(turn: Turn, segments: seq<Segment>, k: nat)
    requires k < |MatchedTexts(turn, segments)|
    ensures exists j :: 0 <= j < |segments| && Overlaps(segments[j], turn)
                        && |MatchedTexts(turn, segments[..j])| == k
                        && MatchedTexts(turn, segments)[k] == segments[j].text
  {
    KeepFrom(segments, Collect(turn), k);
  }

  /** Scanning one more segment appends its text exactly when it overlaps the turn. */
  lemma MatchedTextsStep(turn: Turn, segments: seq<Segment>, j: nat)
    requires j < |segments|
    ensures MatchedTexts(turn, segments[..j + 1])
            == MatchedTexts(turn, segments[..j]) + (if Overlaps(segments[j], turn) then [segments[j].text] else [])
  {
    assert segments[..j + 1][..j] == segments[..j];
  }

  /**
    One segment overlapping two turns is collected by both, each time at the
    position given by the texts that turn collected from the earlier segments.
  */
  lemma SharedSegment(t1: Turn, t2: Turn, segments: seq<Segment>, j: nat)
    requires j < |segments| && Overlaps(segments[j], t1) && Overlaps(segments[j], t2)
    ensures |MatchedTexts(t1, segments[..j])| < |MatchedTexts(t1, segments)|
    ensures MatchedTexts(t1, segments)[|MatchedTexts(t1, segments[..j])|] == segments[j].text
    ensures |MatchedTexts(t2, segments[..j])| < |MatchedTexts(t2, segments)|
    ensures MatchedTexts(t2, segments)[|MatchedTexts(t2, segments[..j])|] == segments[j].text
  {
    MatchedTextsAt(t1, segments, j);
    MatchedTextsAt(t2, segments, j);
  }

  /**
    The entry emitted for a turn that collected `texts`: the turn's times and
    speaker, its length as duration, and the texts joined and stripped. The
    text is empty exactly when every collected text is whitespace; such an
    entry is still emitted.
  */
  function Compose(turn: Turn, texts: seq<string>): (u: Utterance)
    ensures u.start == turn.start && u.end == turn.end && u.speaker == turn.speaker
    ensures u.duration == u.end - u.start
    ensures turn.start <= turn.end ==> u.duration >= 0.0
    ensures u.text == [] <==> forall k :: 0 <= k < |texts| ==> AllSpace(texts[k])
  {
    JoinAllSpace(texts);
    Utterance(turn.start, turn.end, turn.speaker, Strip(Join(texts)), turn.end - turn.start)
  }

  /** The entry a turn contributes to the transcript, if it collected any segment. */
  function Emit(segments: seq<Segment>): Turn -> Option<Utterance> {
    turn => var texts := MatchedTexts(turn, segments);
            if texts != [] then Some(Compose(turn, texts)) else None
  }

  /** The transcript: one entry per turn that collected a segment, in turn order. */
  function Transcript(turns: seq<Turn>, segments: seq<Segment>): (out: seq<Utterance>)
    ensures |out| <= |turns|
  {
    Keep(turns, Emit(segments))
  }

  /** Processing one more turn appends its entry exactly when it collected a segment. */
  lemma TranscriptStep(turns: seq<Turn>, segments: seq<Segment>, i: nat)
    requires i < |turns|
    ensures var texts := MatchedTexts(turns[i], segments);
            Transcript(turns[..i + 1], segments)
            == Transcript(turns[..i], segments) + (if texts != [] then [Compose(turns[i], texts)] else [])
  {
    assert turns[..i + 1][..i] == turns[..i];
  }

  /** A single turn yields one entry or none. */
  lemma TranscriptOfOneTurn(turn: Turn, segments: seq<Segment>)
    ensures var texts := MatchedTexts(turn, segments);
            Transcript([turn], segments) == if texts != [] then [Compose(turn, texts)] else []
  {
    TranscriptStep([turn], segments, 0);
    assert [turn][..0] == [] && [turn][..1] == [turn];
  }

  /** The indices of the turns that collected at least one segment. */
  function MatchingTurns(turns: seq<Turn>, segments: seq<Segment>): set<nat> {
    set i: nat | i < |turns| && MatchedTexts(turns[i], segments) != []
  }

  /** The transcript has exactly one entry per turn that collected a segment. */
  lemma TranscriptLength(turns: seq<Turn>, segments: seq<Segment>)
    ensures |Transcript(turns, segments)| == |MatchingTurns(turns, segments)|
  {
    KeepLength(turns, Emit(segments));
    assert KeptIndices(turns, Emit(segments)) == MatchingTurns(turns, segments);
  }

  /**
    Each turn that collected a segment yields its composed entry, placed after
    the entries of all earlier turns.
  */
  lemma TranscriptAt(turns: seq<Turn>, segments: seq<Segment>, i: nat)
    requires i < |turns| && MatchedTexts(turns[i], segments) != []
    ensures |Transcript(turns[..i], segments)| < |Transcript(turns, segments)|
    ensures Transcript(turns, segments)[|Transcript(turns[..i], segments)|]
            == Compose(turns[i], MatchedTexts(turns[i], segments))
  {
    KeepAt(turns, Emit(segments), i);
  }

  /** Every entry of the transcript was composed from one turn that collected a segment. */
  lemma TranscriptFrom(turns: seq<Turn>, segments: seq<Segment>, k: nat)
    requires k < |Transcript(turns, segments)|
    ensures exists i :: 0 <= i < |turns| && MatchedTexts(turns[i], segments) != []
                        && |Transcript(turns[..i], segments)| == k
                        && Transcript(turns, segments)[k] == Compose(turns[i], MatchedTexts(turns[i], segments))
  {
    KeepFrom(turns, Emit(segments), k);
  }

  /** Entries appear in the order of the turns that produced them. */
  lemma TranscriptInTurnOrder(turns: seq<Turn>, segments: seq<Segment>, i1: nat, i2: nat)
    requires i1 < i2 < |turns|
    requires MatchedTexts(turns[i1], segments) != [] && MatchedTexts(turns[i2], segments) != []
    ensures |Transcript(turns[..i1], segments)| < |Transcript(turns[..i2], segments)|
  {
    var before := turns[..i2];
    assert before[i1] == turns[i1];
    assert before[..i1] == turns[..i1];
    TranscriptAt(before, segments, i1);
  }

  /**
    A turn whose collected texts are all whitespace is not dropped: it yields
    an entry whose text is empty.
  */
  lemma WhitespaceTurnKept(turns: seq<Turn>, segments: seq<Segment>, i: nat)
    requires i < |turns| && MatchedTexts(turns[i], segments) != []
    requires forall k :: 0 <= k < |MatchedTexts(turns[i], segments)| ==> AllSpace(MatchedTexts(turns[i], segments)[k])
    ensures |Transcript(turns[..i], segments)| < |Transcript(turns, segments)|
    ensures Transcript(turns, segments)[|Transcript(turns[..i], segments)|].text == ""
    ensures Transcript(turns, segments)[|Transcript(turns[..i], segments)|].speaker == turns[i].speaker
  {
    TranscriptAt(turns, segments, i);
  }
}
