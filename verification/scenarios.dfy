/** Concrete tracks: what the segmentation makes of a few short tracks,
    including the corner cases of an overflow as long as a whole bar. */
module Scenarios {
  import opened Wrappers
  import opened Durations
  import opened Segmentation
  import opened SegmentationFacts

  const FourFour: TimeSignature := TimeSignature(4, Quarter)
  const TwoFour: TimeSignature := TimeSignature(2, Quarter)

  /** A plain, unaccented note. */
  function Hit(v: Value): Note
  {
    Note(false, false, None, v)
  }

  /** `n` plain notes of value `v`. */
  function Repeated(n: nat, v: Value): (r: seq<Note>)
    ensures |r| == n
  {
    seq(n, _ => Hit(v))
  }

  lemma {:induction false} RepeatedLength(n: nat, v: Value)
    ensures Length(Repeated(n, v)) == n * Weight(v)
  {
    if n > 0 {
      var r := Repeated(n, v);
      LengthCons(r);
      assert r[1..] == Repeated(n - 1, v);
      RepeatedLength(n - 1, v);
    }
  }

  /** Eight eighths per 4/4 bar: `8 * k` eighths make exactly `k` full bars,
      holding the eighths in order and nothing else. */
  lemma EighthsInFourFour(k: nat)
    requires k > 0
    ensures Segment(FourFour, Repeated(8 * k, Eighth)).Success?
    ensures |Segment(FourFour, Repeated(8 * k, Eighth)).value| == k
    ensures Flatten(Segment(FourFour, Repeated(8 * k, Eighth)).value) == Repeated(8 * k, Eighth)
  {
    var track := Repeated(8 * k, Eighth);
    assert BarLength(FourFour) == 16;
    assert Segmentable(16, 0, track) && Expand(16, 0, track) == track && EndOffset(16, 0, track) == 0 by {
      EighthsStream(0, track);
      WholeBarsOffset(k);
    }
    assert Segment(FourFour, track).Success? by {
      SegmentSucceeds(FourFour, track);
    }
    assert Flatten(Segment(FourFour, track).value) == track by {
      SegmentStream(FourFour, track);
      assert Padding(16, 0, false) == [];
    }
    assert Length(track) == k * 16 by {
      RepeatedLength(8 * k, Eighth);
    }
    SegmentWholeBars(FourFour, track, k);
  }

  lemma WholeBarsOffset(k: nat)
    ensures (0 + 2 * (8 * k)) % 16 == 0
  {
    assert 0 + 2 * (8 * k) == 16 * k;
  }

  /** The hi-hat of the rock loop: sixteen eighths in 4/4 make two bars. */
  lemma RockHihat()
    ensures Segment(FourFour, Repeated(16, Eighth)).Success?
    ensures |Segment(FourFour, Repeated(16, Eighth)).value| == 2
  {
    EighthsInFourFour(2);
  }

  /** Eighths in a 4/4 bar, starting on an even offset, never cross the bar
      line, so they pass through unchanged; each moves the offset by two. */
  lemma {:induction false} EighthsStream(offset: nat, notes: seq<Note>)
    requires offset < 16 && offset % 2 == 0
    requires forall i :: 0 <= i < |notes| ==> notes[i] == Hit(Eighth)
    ensures Segmentable(16, offset, notes)
    ensures Expand(16, offset, notes) == notes
    ensures EndOffset(16, offset, notes) == (offset + 2 * |notes|) % 16
    decreases |notes|
  {
    if notes != [] {
      var next := NextOffset(16, offset, 2);
      assert next < 16 && next % 2 == 0;
      assert Weight(notes[0].value) == 2;
      EighthsStream(next, notes[1..]);
      assert Expand(16, offset, notes) == notes by {
        assert Pieces(16, offset, notes[0]) == [notes[0]];
        assert notes == [notes[0]] + notes[1..];
      }
    }
    EighthsEnd(offset, notes);
  }

  /** Where a run of eighths in a 4/4 bar ends. */
  lemma {:induction false} EighthsEnd(offset: nat, notes: seq<Note>)
    requires offset < 16
    requires forall i :: 0 <= i < |notes| ==> notes[i].value == Eighth
    requires Segmentable(16, offset, notes)
    ensures EndOffset(16, offset, notes) == (offset + 2 * |notes|) % 16
    decreases |notes|
  {
    if notes != [] {
      var next := NextOffset(16, offset, 2);
      assert Weight(notes[0].value) == 2;
      EighthsEnd(next, notes[1..]);
      EighthOffsetStep(offset, |notes| - 1);
    }
  }

  /** One eighth moves the offset by two, wrapping at the bar line. */
  lemma EighthOffsetStep(offset: nat, k: nat)
    requires offset < 16
    ensures (NextOffset(16, offset, 2) + 2 * k) % 16 == (offset + 2 * (k + 1)) % 16
  {
    if offset + 2 >= 16 {
      assert offset + 2 * (k + 1) == (NextOffset(16, offset, 2) + 2 * k) + 16;
    }
  }

  /** An empty track still gets one bar: a whole rest in 4/4. */
  lemma EmptyTrack()
    ensures Segment(FourFour, []) == Success([[RestNote(Whole)]])
  {
    assert Greedy(16) == [Whole];
    assert Rests([Whole]) == [RestNote(Whole)];
    assert [] + [RestNote(Whole)] == [RestNote(Whole)];
    assert [] + [[RestNote(Whole)]] == [[RestNote(Whole)]];
  }

  /** A whole note fills the first bar exactly; the half note after it opens
      a second bar, which a half rest completes. */
  lemma WholeThenHalf()
    ensures Segment(FourFour, [Hit(Whole), Hit(Half)])
      == Success([[Hit(Whole)], [Hit(Half), RestNote(Half)]])
  {
    var w := [Hit(Whole), Hit(Half)];
    var s1 := Segmenter([[Hit(Whole)]], [], 0);
    var s2 := Segmenter([[Hit(Whole)]], [Hit(Half)], 8);
    assert [] + [Hit(Whole)] == [Hit(Whole)];
    assert [] + [[Hit(Whole)]] == [[Hit(Whole)]];
    assert Step(16, Start, Hit(Whole)) == Success(s1);
    assert [] + [Hit(Half)] == [Hit(Half)];
    assert Step(16, s1, Hit(Half)) == Success(s2);
    assert w[1..][1..] == [];
    assert Run(16, s1, w[1..]) == Success(s2);
    assert w[0] == Hit(Whole);
    assert Run(16, Start, w) == Success(s2);
    assert Greedy(8) == [Half];
    assert Rests([Half]) == [RestNote(Half)];
    assert [Hit(Half)] + [RestNote(Half)] == [Hit(Half), RestNote(Half)];
    assert [[Hit(Whole)]] + [[Hit(Half), RestNote(Half)]] == [[Hit(Whole)], [Hit(Half), RestNote(Half)]];
  }

  /** A whole note in 2/4 is split into a half note and a half rest, and the
      rest already fills the next bar. The accented quarter after it then
      meets a bar with no room left: nothing of it lands before the bar line,
      so it survives only as a quarter rest, and its accent is lost. */
  lemma QuarterAfterFullOverflow()
    ensures Segment(TwoFour, [Hit(Whole), Note(true, false, None, Quarter)])
      == Success([[Hit(Half)], [RestNote(Half)], [RestNote(Quarter), RestNote(Quarter)]])
  {
    var accented := Note(true, false, None, Quarter);
    var w := [Hit(Whole), accented];
    assert Greedy(8) == [Half];
    assert Greedy(4) == [Quarter];
    assert Greedy(0) == [];
    var s1 := Segmenter([[Hit(Half)]], [RestNote(Half)], 8);
    var s2 := Segmenter([[Hit(Half)], [RestNote(Half)]], [RestNote(Quarter)], 4);
    assert Split(Hit(Whole), [Half]) == [Hit(Half)];
    assert Rests([Half]) == [RestNote(Half)];
    assert [] + [Hit(Half)] == [Hit(Half)];
    assert [] + [[Hit(Half)]] == [[Hit(Half)]];
    assert Step(8, Start, Hit(Whole)) == Success(s1);
    assert Split(accented, []) == [];
    assert [RestNote(Half)] + [] == [RestNote(Half)];
    assert Rests([Quarter]) == [RestNote(Quarter)];
    assert [[Hit(Half)]] + [[RestNote(Half)]] == [[Hit(Half)], [RestNote(Half)]];
    assert DecomposeSixteenths(8 - 8) == Success([]);
    assert DecomposeSixteenths(8 + 4 - 8) == Success([Quarter]);
    assert Step(8, s1, accented) == Success(s2);
    assert w[1..][1..] == [];
    assert Run(8, s1, w[1..]) == Success(s2);
    assert w[0] == Hit(Whole);
    assert Run(8, Start, w) == Success(s2);
    assert [RestNote(Quarter)] + [RestNote(Quarter)] == [RestNote(Quarter), RestNote(Quarter)];
    assert s2.bars + [[RestNote(Quarter), RestNote(Quarter)]]
      == [[Hit(Half)], [RestNote(Half)], [RestNote(Quarter), RestNote(Quarter)]];
  }

  /** A whole note in 3/4 is longer than the bar: a half note and a quarter
      rest fill the first bar, and the quarter of overflow, as a rest, opens
      the second bar, which a half rest completes. */
  lemma WholeInThreeFour()
    ensures Segment(TimeSignature(3, Quarter), [Hit(Whole)])
      == Success([[Hit(Half), RestNote(Quarter)], [RestNote(Quarter), RestNote(Half)]])
  {
    var w := [Hit(Whole)];
    assert BarLength(TimeSignature(3, Quarter)) == 12;
    assert Greedy(12) == [Half, Quarter];
    assert Greedy(4) == [Quarter];
    assert Greedy(8) == [Half];
    assert DecomposeSixteenths(12 - 0) == Success([Half, Quarter]);
    assert DecomposeSixteenths(0 + 16 - 12) == Success([Quarter]);
    assert Split(Hit(Whole), [Half, Quarter]) == [Hit(Half), RestNote(Quarter)];
    assert Rests([Quarter]) == [RestNote(Quarter)];
    assert Rests([Half]) == [RestNote(Half)];
    assert [] + [Hit(Half), RestNote(Quarter)] == [Hit(Half), RestNote(Quarter)];
    assert [] + [[Hit(Half), RestNote(Quarter)]] == [[Hit(Half), RestNote(Quarter)]];
    var s1 := Segmenter([[Hit(Half), RestNote(Quarter)]], [RestNote(Quarter)], 4);
    assert Step(12, Start, Hit(Whole)) == Success(s1);
    assert w[1..] == [];
    assert Run(12, Start, w) == Success(s1);
    assert [RestNote(Quarter)] + [RestNote(Half)] == [RestNote(Quarter), RestNote(Half)];
    assert s1.bars + [[RestNote(Quarter), RestNote(Half)]]
      == [[Hit(Half), RestNote(Quarter)], [RestNote(Quarter), RestNote(Half)]];
  }

  /** A quarter then a whole note in 2/4: the whole note leaves an overflow of
      three quarters, longer than a bar, and the final fill fails on the
      negative length left. */
  lemma OverflowLongerThanBar()
    ensures Segment(TwoFour, [Hit(Quarter), Hit(Whole)]) == Failure(NoSubtractableNote(-4))
  {
    var w := [Hit(Quarter), Hit(Whole)];
    assert Greedy(4) == [Quarter];
    assert Greedy(12) == [Half, Quarter];
    var s1 := Segmenter([], [Hit(Quarter)], 4);
    var s2 := Segmenter([[Hit(Quarter)] + Split(Hit(Whole), [Quarter])], Rests([Half, Quarter]), 12);
    assert [] + [Hit(Quarter)] == [Hit(Quarter)];
    assert Step(8, Start, Hit(Quarter)) == Success(s1);
    assert DecomposeSixteenths(8 - 4) == Success([Quarter]);
    assert DecomposeSixteenths(4 + 16 - 8) == Success([Half, Quarter]);
    assert [] + [[Hit(Quarter)] + Split(Hit(Whole), [Quarter])] == [[Hit(Quarter)] + Split(Hit(Whole), [Quarter])];
    assert Step(8, s1, Hit(Whole)) == Success(s2);
    assert w[1..][1..] == [];
    assert Run(8, s1, w[1..]) == Success(s2);
    assert |s2.currentBar| == 2;
  }
}
