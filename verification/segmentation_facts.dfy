/** What the bar segmentation of src/jot.ts guarantees: full bars, the total
    length rounded up to a whole bar, the flat stream of fragments, and the
    ways it fails. */
module SegmentationFacts {
  import opened Wrappers
  import opened Durations
  import opened Segmentation

  // ---------------------------------------------------------------------------
  // Sequences of notes

  lemma ValuesAppend(a: seq<Note>, b: seq<Note>)
    ensures Values(a + b) == Values(a) + Values(b)
  {
    assert forall i :: 0 <= i < |a + b| ==> Values(a + b)[i] == (Values(a) + Values(b))[i];
  }

  lemma LengthAppend(a: seq<Note>, b: seq<Note>)
    ensures Length(a + b) == Length(a) + Length(b)
  {
    ValuesAppend(a, b);
    TotalAppend(Values(a), Values(b));
  }

  lemma LengthSingle(n: Note)
    ensures Length([n]) == Weight(n.value)
  {
    assert Values([n]) == [n.value];
    assert [n.value][1..] == [];
    assert Total([n.value]) == Weight(n.value) + Total([]);
  }

  lemma LengthCons(ns: seq<Note>)
    requires ns != []
    ensures Length(ns) == Weight(ns[0].value) + Length(ns[1..])
  {
    assert ns == [ns[0]] + ns[1..];
    LengthAppend([ns[0]], ns[1..]);
    LengthSingle(ns[0]);
  }

  lemma {:induction false} TotalEmpty(vs: seq<Value>)
    ensures Total(vs) == 0 <==> vs == []
  {
    if vs != [] {
      assert Weight(vs[0]) >= 1;
    }
  }

  /** A sequence of notes has length zero exactly when it is empty. */
  lemma LengthEmpty(ns: seq<Note>)
    ensures Length(ns) == 0 <==> ns == []
  {
    TotalEmpty(Values(ns));
  }

  /** Rests and split fragments have the values they were built from. */
  lemma RestsValues(vs: seq<Value>)
    ensures Values(Rests(vs)) == vs && Length(Rests(vs)) == Total(vs)
  {
    assert Values(Rests(vs)) == vs;
  }

  lemma SplitValues(note: Note, vs: seq<Value>)
    ensures Values(Split(note, vs)) == vs && Length(Split(note, vs)) == Total(vs)
  {
    assert Values(Split(note, vs)) == vs;
  }

  /** The split fragments, written out: the first keeps the note's fields. */
  lemma SplitShape(note: Note, vs: seq<Value>)
    requires vs != []
    ensures Split(note, vs) == [note.(value := vs[0])] + Rests(vs[1..])
  {
  }

  lemma FlattenAppend(bars: seq<Bar>, b: Bar)
    ensures Flatten(bars + [b]) == Flatten(bars) + b
  {
    assert (bars + [b])[..|bars|] == bars;
  }

  /** Bars that are all full add up to whole bars. */
  lemma {:induction false} FlattenLength(bars: seq<Bar>, barLength: int)
    requires forall i :: 0 <= i < |bars| ==> Length(bars[i]) == barLength
    ensures Length(Flatten(bars)) == |bars| * barLength
  {
    if bars != [] {
      var init := bars[..|bars| - 1];
      FlattenLength(init, barLength);
      LengthAppend(Flatten(init), bars[|bars| - 1]);
      MulSucc(|init|, barLength);
    }
  }

  lemma MulSucc(k: int, b: int)
    ensures (k + 1) * b == k * b + b
  {
  }

  // ---------------------------------------------------------------------------
  // The invariant of the loop

  /** Every closed bar is full and `currentLength` is the length of `currentBar`. */
  ghost predicate Consistent(barLength: int, s: Segmenter)
  {
    (forall i :: 0 <= i < |s.bars| ==> Length(s.bars[i]) == barLength)
    && Length(s.currentBar) == s.currentLength
  }

  /** One turn keeps the invariant and adds the note's length to what has been laid out. */
  lemma StepConsistent(barLength: int, s: Segmenter, note: Note)
    requires Consistent(barLength, s)
    requires Step(barLength, s, note).Success?
    ensures var next := Step(barLength, s, note).value;
      Consistent(barLength, next)
      && Length(Flatten(next.bars)) + next.currentLength
         == Length(Flatten(s.bars)) + s.currentLength + Weight(note.value)
  {
    var w := Weight(note.value);
    var next := Step(barLength, s, note).value;
    if s.currentLength + w == barLength {
      assert next == Segmenter(s.bars + [s.currentBar + [note]], [], 0);
      StepConsistentClose(barLength, s, note);
    } else if s.currentLength + w > barLength {
      var before := DecomposeSixteenths(barLength - s.currentLength).value;
      var after := DecomposeSixteenths(s.currentLength + w - barLength).value;
      assert next == Segmenter(s.bars + [s.currentBar + Split(note, before)], Rests(after), s.currentLength + w - barLength);
      DecomposeSixteenthsTotal(barLength - s.currentLength);
      DecomposeSixteenthsTotal(s.currentLength + w - barLength);
      StepConsistentSplit(barLength, s, note, before, after);
    } else {
      assert next == Segmenter(s.bars, s.currentBar + [note], s.currentLength + w);
      StepConsistentAppend(barLength, s, note);
    }
  }

  /** The note fits in the current bar and is appended. */
  lemma StepConsistentAppend(barLength: int, s: Segmenter, note: Note)
    requires Consistent(barLength, s)
    ensures var next := Segmenter(s.bars, s.currentBar + [note], s.currentLength + Weight(note.value));
      Consistent(barLength, next)
      && Length(Flatten(next.bars)) + next.currentLength
         == Length(Flatten(s.bars)) + s.currentLength + Weight(note.value)
  {
    LengthAppend(s.currentBar, [note]);
    LengthSingle(note);
  }

  /** The note closes the bar exactly. */
  lemma StepConsistentClose(barLength: int, s: Segmenter, note: Note)
    requires Consistent(barLength, s)
    requires s.currentLength + Weight(note.value) == barLength
    ensures var next := Segmenter(s.bars + [s.currentBar + [note]], [], 0);
      Consistent(barLength, next)
      && Length(Flatten(next.bars)) + next.currentLength
         == Length(Flatten(s.bars)) + s.currentLength + Weight(note.value)
  {
    var closed := s.currentBar + [note];
    LengthAppend(s.currentBar, [note]);
    LengthSingle(note);
    FlattenAppend(s.bars, closed);
    LengthAppend(Flatten(s.bars), closed);
    assert Values([]) == [];
    var bars := s.bars + [closed];
    assert forall i :: 0 <= i < |bars| ==> Length(bars[i]) == barLength by {
      assert forall i :: 0 <= i < |s.bars| ==> bars[i] == s.bars[i];
    }
  }

  /** The note crosses the bar line and is split into pieces of the given totals. */
  lemma StepConsistentSplit(barLength: int, s: Segmenter, note: Note, before: seq<Value>, after: seq<Value>)
    requires Consistent(barLength, s)
    requires Total(before) == barLength - s.currentLength
    requires Total(after) == s.currentLength + Weight(note.value) - barLength
    ensures var next := Segmenter(s.bars + [s.currentBar + Split(note, before)], Rests(after),
                                  s.currentLength + Weight(note.value) - barLength);
      Consistent(barLength, next)
      && Length(Flatten(next.bars)) + next.currentLength
         == Length(Flatten(s.bars)) + s.currentLength + Weight(note.value)
  {
    var closed := s.currentBar + Split(note, before);
    var bars := s.bars + [closed];
    SplitValues(note, before);
    RestsValues(after);
    LengthAppend(s.currentBar, Split(note, before));
    FlattenAppend(s.bars, closed);
    LengthAppend(Flatten(s.bars), closed);
    assert forall i :: 0 <= i < |bars| ==> Length(bars[i]) == barLength by {
      assert forall i :: 0 <= i < |s.bars| ==> bars[i] == s.bars[i];
    }
  }

  lemma {:induction false} RunConsistent(barLength: int, s: Segmenter, notes: seq<Note>)
    requires Consistent(barLength, s)
    requires Run(barLength, s, notes).Success?
    ensures var last := Run(barLength, s, notes).value;
      Consistent(barLength, last)
      && Length(Flatten(last.bars)) + last.currentLength
         == Length(Flatten(s.bars)) + s.currentLength + Length(notes)
    decreases |notes|
  {
    if notes != [] {
      StepConsistent(barLength, s, notes[0]);
      var next := Step(barLength, s, notes[0]).value;
      RunConsistent(barLength, next, notes[1..]);
      LengthCons(notes);
    }
  }

  lemma StartConsistent(barLength: int)
    ensures Consistent(barLength, Start)
  {
    assert Values([]) == [];
  }

  // ---------------------------------------------------------------------------
  // Properties of a successful segmentation

  /** Every emitted bar is exactly one bar long. */
  lemma SegmentBarsFull(time: TimeSignature, notes: seq<Note>)
    requires Segment(time, notes).Success?
    ensures var bars := Segment(time, notes).value;
      forall i :: 0 <= i < |bars| ==> Length(bars[i]) == BarLength(time)
  {
    var bl := BarLength(time);
    StartConsistent(bl);
    RunConsistent(bl, Start, notes);
    var last := Run(bl, Start, notes).value;
    if |last.currentBar| > 0 || (last.currentLength == 0 && |notes| == 0) {
      var fill := Greedy(bl - last.currentLength);
      GreedyTotal(bl - last.currentLength);
      RestsValues(fill);
      LengthAppend(last.currentBar, Rests(fill));
    }
  }

  lemma MulMonotone(a: int, b: int, c: int)
    requires a <= b && c >= 0
    ensures a * c <= b * c
  {
    assert (b - a) * c >= 0;
  }

  /** The output is the input rounded up to whole bars: never shorter, less
      than one bar longer, and an empty track gets one bar of rests. */
  lemma SegmentTotal(time: TimeSignature, notes: seq<Note>)
    requires BarLength(time) > 0
    requires Segment(time, notes).Success?
    ensures var bars := Segment(time, notes).value;
      Length(Flatten(bars)) == |bars| * BarLength(time)
      && (notes == [] ==> bars == [Rests(Greedy(BarLength(time)))])
      && (notes != [] ==> Length(notes) <= Length(Flatten(bars)) < Length(notes) + BarLength(time))
  {
    var bl := BarLength(time);
    var bars := Segment(time, notes).value;
    SegmentBarsFull(time, notes);
    FlattenLength(bars, bl);
    StartConsistent(bl);
    RunConsistent(bl, Start, notes);
    var last := Run(bl, Start, notes).value;
    assert Length(Flatten(Start.bars)) == 0 by { assert Values([]) == []; }
    LengthEmpty(last.currentBar);
    if notes == [] {
      assert last == Start;
      assert [] + Rests(Greedy(bl)) == Rests(Greedy(bl));
    } else if |last.currentBar| > 0 {
      var fill := Greedy(bl - last.currentLength);
      GreedyTotal(bl - last.currentLength);
      RestsValues(fill);
      LengthAppend(last.currentBar, Rests(fill));
      FlattenAppend(last.bars, last.currentBar + Rests(fill));
      LengthAppend(Flatten(last.bars), last.currentBar + Rests(fill));
    }
  }

  /** A track that ends exactly on a bar line gets no extra bar: its length
      in bars is the number of bars. */
  lemma SegmentWholeBars(time: TimeSignature, notes: seq<Note>, k: int)
    requires BarLength(time) > 0
    requires notes != [] && Length(notes) == k * BarLength(time)
    requires Segment(time, notes).Success?
    ensures |Segment(time, notes).value| == k
    ensures Length(Flatten(Segment(time, notes).value)) == Length(notes)
  {
    var bl := BarLength(time);
    var n := |Segment(time, notes).value|;
    SegmentTotal(time, notes);
    if n > k {
      MulMonotone(k + 1, n, bl);
      MulSucc(k, bl);
    } else if n < k {
      MulMonotone(n + 1, k, bl);
      MulSucc(n, bl);
    }
  }

  // ---------------------------------------------------------------------------
  // Failure

  /** From a state that carries more than a bar of overflow, the rest of the
      track fails: the next split or the final fill asks for a negative length. */
  lemma OverflowFails(barLength: int, s: Segmenter, notes: seq<Note>, trackEmpty: bool)
    requires 0 <= barLength < s.currentLength
    requires Length(s.currentBar) == s.currentLength
    ensures Resume(barLength, s, notes, trackEmpty) == Failure(NoSubtractableNote(barLength - s.currentLength))
  {
    if notes == [] {
      LengthEmpty(s.currentBar);
    }
  }

  /** Running the loop over two pieces of a track one after the other. */
  lemma {:induction false} RunAppend(barLength: int, s: Segmenter, a: seq<Note>, b: seq<Note>)
    ensures Run(barLength, s, a + b) ==
      match Run(barLength, s, a)
      case Failure(e) => Failure(e)
      case Success(middle) => Run(barLength, middle, b)
    decreases |a|
  {
    if a == [] {
      assert a + b == b;
    } else {
      assert (a + b)[0] == a[0] && (a + b)[1..] == a[1..] + b;
      match Step(barLength, s, a[0])
      case Failure(_) =>
      case Success(next) => RunAppend(barLength, next, a[1..], b);
    }
  }

  /** If the notes up to some point leave more than a bar of overflow, the
      whole track fails with a negative-length error. */
  lemma SegmentOverflowFails(time: TimeSignature, notes: seq<Note>, k: nat)
    requires BarLength(time) >= 0
    requires k <= |notes|
    requires Run(BarLength(time), Start, notes[..k]).Success?
    requires Run(BarLength(time), Start, notes[..k]).value.currentLength > BarLength(time)
    ensures Segment(time, notes).Failure?
    ensures Segment(time, notes).error.NoSubtractableNote?
  {
    var bl := BarLength(time);
    assert notes == notes[..k] + notes[k..];
    RunAppend(bl, Start, notes[..k], notes[k..]);
    StartConsistent(bl);
    RunConsistent(bl, Start, notes[..k]);
    var middle := Run(bl, Start, notes[..k]).value;
    OverflowFails(bl, middle, notes[k..], |notes| == 0);
  }

  // ---------------------------------------------------------------------------
  // The flat stream of fragments

  /** The position in the bar after a note of weight `w` that starts at `offset`. */
  function NextOffset(barLength: int, offset: int, w: int): int
  {
    if offset + w >= barLength then offset + w - barLength else offset + w
  }

  /** Every position the loop reaches, before each note and at the end of the
      track, is at most one bar past the last bar line. */
  predicate Segmentable(barLength: int, offset: int, notes: seq<Note>)
    decreases |notes|
  {
    offset <= barLength
    && (notes == [] || Segmentable(barLength, NextOffset(barLength, offset, Weight(notes[0].value)), notes[1..]))
  }

  /** Every note is at most one bar long. */
  ghost predicate Fits(barLength: int, notes: seq<Note>)
  {
    forall i :: 0 <= i < |notes| ==> Weight(notes[i].value) <= barLength
  }

  /** Where a note starting `offset` into its bar ends up: whole if it does
      not cross the bar line; otherwise its split fragments up to the bar line
      (none when the bar is already full), then the overflow as rests. */
  function Pieces(barLength: int, offset: int, note: Note): seq<Note>
    requires 0 <= offset <= barLength
  {
    var w := Weight(note.value);
    if offset + w <= barLength then [note]
    else Split(note, Greedy(barLength - offset)) + Rests(Greedy(offset + w - barLength))
  }

  /** The fragments of all notes, in input order. */
  function Expand(barLength: int, offset: int, notes: seq<Note>): seq<Note>
    requires 0 <= offset && Segmentable(barLength, offset, notes)
    decreases |notes|
  {
    if notes == [] then []
    else
      Pieces(barLength, offset, notes[0])
      + Expand(barLength, NextOffset(barLength, offset, Weight(notes[0].value)), notes[1..])
  }

  /** The position in the bar where the notes end. */
  function EndOffset(barLength: int, offset: int, notes: seq<Note>): (r: int)
    requires 0 <= offset && Segmentable(barLength, offset, notes)
    ensures 0 <= r <= barLength
    decreases |notes|
  {
    if notes == [] then offset
    else EndOffset(barLength, NextOffset(barLength, offset, Weight(notes[0].value)), notes[1..])
  }

  /** The rests that complete the last bar; an empty track gets a full bar of them. */
  function Padding(barLength: int, end: int, trackEmpty: bool): seq<Note>
    requires 0 <= end <= barLength
  {
    if end == 0 && !trackEmpty then [] else Rests(Greedy(barLength - end))
  }

  /** From a position at most one bar in, one turn always succeeds and lays
      out the note's pieces. */
  lemma StepStream(barLength: int, s: Segmenter, note: Note)
    requires 0 <= s.currentLength <= barLength
    requires Length(s.currentBar) == s.currentLength
    ensures Step(barLength, s, note).Success?
    ensures var next := Step(barLength, s, note).value;
      Flatten(next.bars) + next.currentBar == Flatten(s.bars) + s.currentBar + Pieces(barLength, s.currentLength, note)
      && next.currentLength == NextOffset(barLength, s.currentLength, Weight(note.value))
      && Length(next.currentBar) == next.currentLength
  {
    var w := Weight(note.value);
    if s.currentLength + w == barLength {
      StepStreamClose(barLength, s, note);
    } else if s.currentLength + w > barLength {
      StepStreamSplit(barLength, s, note);
    } else {
      var next := Segmenter(s.bars, s.currentBar + [note], s.currentLength + w);
      assert Step(barLength, s, note) == Success(next);
      LengthAppend(s.currentBar, [note]);
      LengthSingle(note);
    }
  }

  lemma StepStreamClose(barLength: int, s: Segmenter, note: Note)
    requires s.currentLength + Weight(note.value) == barLength
    ensures Step(barLength, s, note).Success?
    ensures var next := Step(barLength, s, note).value;
      Flatten(next.bars) + next.currentBar == Flatten(s.bars) + s.currentBar + [note]
      && next.currentLength == 0 && Length(next.currentBar) == 0
  {
    var next := Segmenter(s.bars + [s.currentBar + [note]], [], 0);
    assert Step(barLength, s, note) == Success(next);
    FlattenAppend(s.bars, s.currentBar + [note]);
    LengthEmpty([]);
  }

  lemma StepStreamSplit(barLength: int, s: Segmenter, note: Note)
    requires 0 <= s.currentLength <= barLength < s.currentLength + Weight(note.value)
    ensures Step(barLength, s, note).Success?
    ensures var next := Step(barLength, s, note).value;
      Flatten(next.bars) + next.currentBar == Flatten(s.bars) + s.currentBar + Pieces(barLength, s.currentLength, note)
      && next.currentLength == s.currentLength + Weight(note.value) - barLength
      && Length(next.currentBar) == next.currentLength
  {
    var overflow := s.currentLength + Weight(note.value) - barLength;
    var before := Greedy(barLength - s.currentLength);
    var after := Greedy(overflow);
    var closed := s.currentBar + Split(note, before);
    var next := Segmenter(s.bars + [closed], Rests(after), overflow);
    assert Step(barLength, s, note) == Success(next);
    assert Pieces(barLength, s.currentLength, note) == Split(note, before) + Rests(after);
    assert Length(Rests(after)) == overflow by {
      GreedyTotal(overflow);
      RestsValues(after);
    }
    ClosedStream(s.bars, s.currentBar, Split(note, before), Rests(after));
  }

  /** Closing a bar and opening the next keeps the fragments in order. */
  lemma ClosedStream(bars: seq<Bar>, currentBar: Bar, tail: seq<Note>, next: seq<Note>)
    ensures Flatten(bars + [currentBar + tail]) + next == Flatten(bars) + currentBar + (tail + next)
  {
    FlattenAppend(bars, currentBar + tail);
    AppendAssoc(Flatten(bars), currentBar, tail);
    AppendAssoc(Flatten(bars) + currentBar, tail, next);
  }

  lemma {:induction false} RunStream(barLength: int, s: Segmenter, notes: seq<Note>)
    requires 0 <= s.currentLength
    requires Length(s.currentBar) == s.currentLength
    requires Segmentable(barLength, s.currentLength, notes)
    ensures Run(barLength, s, notes).Success?
    ensures var last := Run(barLength, s, notes).value;
      Flatten(last.bars) + last.currentBar == Flatten(s.bars) + s.currentBar + Expand(barLength, s.currentLength, notes)
      && last.currentLength == EndOffset(barLength, s.currentLength, notes)
      && Length(last.currentBar) == last.currentLength
    decreases |notes|
  {
    if notes == [] {
      assert Flatten(s.bars) + s.currentBar + [] == Flatten(s.bars) + s.currentBar;
    } else {
      var note := notes[0];
      assert Step(barLength, s, note).Success? by {
        StepStream(barLength, s, note);
      }
      var next := Step(barLength, s, note).value;
      var pieces := Pieces(barLength, s.currentLength, note);
      assert Flatten(next.bars) + next.currentBar == Flatten(s.bars) + s.currentBar + pieces
        && next.currentLength == NextOffset(barLength, s.currentLength, Weight(note.value))
        && Length(next.currentBar) == next.currentLength by {
        StepStream(barLength, s, note);
      }
      RunStream(barLength, next, notes[1..]);
      assert Run(barLength, s, notes) == Run(barLength, next, notes[1..]) by {
        RunCons(barLength, s, notes);
      }
      var rest := Expand(barLength, next.currentLength, notes[1..]);
      var last := Run(barLength, next, notes[1..]).value;
      var laidOut := Flatten(s.bars) + s.currentBar;
      assert Expand(barLength, s.currentLength, notes) == pieces + rest;
      assert EndOffset(barLength, s.currentLength, notes) == EndOffset(barLength, next.currentLength, notes[1..]);
      assert Flatten(last.bars) + last.currentBar == laidOut + pieces + rest;
      AppendAssoc(laidOut, pieces, rest);
    }
  }

  /** A position more than a bar in, reached before a note or at the end of
      the track, makes the rest of the segmentation fail. */
  lemma {:induction false} UnsegmentableFails(barLength: int, s: Segmenter, notes: seq<Note>, trackEmpty: bool)
    requires 0 <= barLength && 0 <= s.currentLength
    requires Length(s.currentBar) == s.currentLength
    requires !Segmentable(barLength, s.currentLength, notes)
    ensures Resume(barLength, s, notes, trackEmpty).Failure?
    decreases |notes|
  {
    if s.currentLength > barLength {
      OverflowFails(barLength, s, notes, trackEmpty);
    } else {
      var note := notes[0];
      StepStream(barLength, s, note);
      var next := Step(barLength, s, note).value;
      UnsegmentableFails(barLength, next, notes[1..], trackEmpty);
      RunCons(barLength, s, notes);
    }
  }

  lemma AppendAssoc(a: seq<Note>, b: seq<Note>, c: seq<Note>)
    ensures a + b + c == a + (b + c)
  {
  }

  lemma RunCons(barLength: int, s: Segmenter, notes: seq<Note>)
    requires notes != [] && Step(barLength, s, notes[0]).Success?
    ensures Run(barLength, s, notes) == Run(barLength, Step(barLength, s, notes[0]).value, notes[1..])
  {
  }

  /** A segmentation whose loop succeeds ends with the final fill. */
  lemma SegmentFinish(time: TimeSignature, notes: seq<Note>)
    requires Run(BarLength(time), Start, notes).Success?
    ensures Segment(time, notes) == Finish(BarLength(time), Run(BarLength(time), Start, notes).value, notes == [])
  {
  }

  /** The loop over a segmentable track lays out its fragments in order. */
  lemma RunStreamFromStart(bl: int, notes: seq<Note>)
    requires Segmentable(bl, 0, notes)
    ensures Run(bl, Start, notes).Success?
    ensures var last := Run(bl, Start, notes).value;
      Flatten(last.bars) + last.currentBar == Expand(bl, 0, notes)
      && last.currentLength == EndOffset(bl, 0, notes)
      && Length(last.currentBar) == last.currentLength
  {
    StartConsistent(bl);
    RunStream(bl, Start, notes);
    assert Flatten(Start.bars) + Start.currentBar == [];
  }

  /** The final fill appends exactly the padding to the laid-out fragments. */
  lemma FinishStream(bl: int, last: Segmenter, trackEmpty: bool, expanded: seq<Note>)
    requires 0 <= last.currentLength <= bl
    requires Length(last.currentBar) == last.currentLength
    requires Flatten(last.bars) + last.currentBar == expanded
    ensures Finish(bl, last, trackEmpty).Success?
    ensures Flatten(Finish(bl, last, trackEmpty).value) == expanded + Padding(bl, last.currentLength, trackEmpty)
  {
    var padding := Padding(bl, last.currentLength, trackEmpty);
    LengthEmpty(last.currentBar);
    if |last.currentBar| > 0 || (last.currentLength == 0 && trackEmpty) {
      var closed := last.currentBar + Rests(Greedy(bl - last.currentLength));
      assert Finish(bl, last, trackEmpty) == Success(last.bars + [closed]);
      FlattenAppend(last.bars, closed);
      assert padding == Rests(Greedy(bl - last.currentLength));
      AppendAssoc(Flatten(last.bars), last.currentBar, padding);
    } else {
      assert last.currentBar == [];
      assert padding == [];
      assert expanded + padding == expanded;
    }
  }

  /** Segmentation succeeds exactly when no position the loop reaches is
      more than a bar past a bar line. */
  lemma SegmentSucceeds(time: TimeSignature, notes: seq<Note>)
    requires BarLength(time) > 0
    ensures Segment(time, notes).Success? <==> Segmentable(BarLength(time), 0, notes)
  {
    var bl := BarLength(time);
    if Segmentable(bl, 0, notes) {
      RunStreamFromStart(bl, notes);
      SegmentFinish(time, notes);
      var last := Run(bl, Start, notes).value;
      FinishStream(bl, last, notes == [], Expand(bl, 0, notes));
    } else {
      StartConsistent(bl);
      UnsegmentableFails(bl, Start, notes, notes == []);
    }
  }

  /** Notes of at most a bar each never leave more than a bar of overflow. */
  lemma {:induction false} FitsSegmentable(barLength: int, offset: int, notes: seq<Note>)
    requires 0 <= offset < barLength && Fits(barLength, notes)
    ensures Segmentable(barLength, offset, notes)
    decreases |notes|
  {
    if notes != [] {
      var next := NextOffset(barLength, offset, Weight(notes[0].value));
      assert Fits(barLength, notes[1..]) by {
        forall i | 0 <= i < |notes[1..]| ensures Weight(notes[1..][i].value) <= barLength {
          assert notes[1..][i] == notes[i + 1];
        }
      }
      FitsSegmentable(barLength, next, notes[1..]);
    }
  }

  /** A track whose notes are each at most a bar long always segments. */
  lemma SegmentFits(time: TimeSignature, notes: seq<Note>)
    requires BarLength(time) > 0 && Fits(BarLength(time), notes)
    ensures Segment(time, notes).Success?
  {
    FitsSegmentable(BarLength(time), 0, notes);
    SegmentSucceeds(time, notes);
  }

  /** On success, reading the bars one after the other gives each note in
      input order: unchanged when it does not cross a bar line, split at the
      bar line when it does (the part past it turned into rests), followed by
      the rests that complete the last bar. */
  lemma SegmentStream(time: TimeSignature, notes: seq<Note>)
    requires BarLength(time) > 0
    requires Segment(time, notes).Success?
    ensures Segmentable(BarLength(time), 0, notes)
    ensures Flatten(Segment(time, notes).value)
      == Expand(BarLength(time), 0, notes) + Padding(BarLength(time), EndOffset(BarLength(time), 0, notes), notes == [])
  {
    var bl := BarLength(time);
    SegmentSucceeds(time, notes);
    RunStreamFromStart(bl, notes);
    SegmentFinish(time, notes);
    var last := Run(bl, Start, notes).value;
    FinishStream(bl, last, notes == [], Expand(bl, 0, notes));
  }
}
