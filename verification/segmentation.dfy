/** Bar segmentation of one track: the per-track loop inside `groupLoopByBar`
    in src/jot.ts. Lengths are in sixteenths (see Durations). */
module Segmentation {
  import opened Wrappers
  import opened Durations

  /** `count` beats of `unit` per bar. */
  datatype TimeSignature = TimeSignature(count: int, unit: Value)

  /** `NoteState`. `valueRhythm`, a tuplet divisor, is carried along and never
      takes part in the arithmetic. */
  datatype Note = Note(accent: bool, rest: bool, valueRhythm: Option<int>, value: Value)

  type Bar = seq<Note>

  /** `mapNoteValue(time.unit) * time.count`, in sixteenths. */
  function BarLength(time: TimeSignature): int
  {
    Weight(time.unit) * time.count
  }

  /** The fragment `{ accent: false, rest: true, value: v }`. */
  function RestNote(v: Value): Note
  {
    Note(false, true, None, v)
  }

  /** Every value turned into a rest, as the overflow and the final fill do. */
  function Rests(vs: seq<Value>): (r: seq<Note>)
    ensures |r| == |vs|
  {
    seq(|vs|, i requires 0 <= i < |vs| => RestNote(vs[i]))
  }

  /** The "before" fragments of a note that crosses the bar line: the first
      keeps the note's fields with the new value, the others are rests. */
  function Split(note: Note, vs: seq<Value>): (r: seq<Note>)
    ensures |r| == |vs|
  {
    seq(|vs|, i requires 0 <= i < |vs| => if i == 0 then note.(value := vs[i]) else RestNote(vs[i]))
  }

  /** The note values of a sequence of notes. */
  function Values(ns: seq<Note>): (r: seq<Value>)
    ensures |r| == |ns|
  {
    seq(|ns|, i requires 0 <= i < |ns| => ns[i].value)
  }

  /** The total length of a sequence of notes, in sixteenths. */
  function Length(ns: seq<Note>): nat
  {
    Total(Values(ns))
  }

  /** All bars of a track, one after the other. */
  function Flatten(bars: seq<Bar>): seq<Note>
  {
    if bars == [] then [] else Flatten(bars[..|bars| - 1]) + bars[|bars| - 1]
  }

  /** The loop's running state: the closed bars, `currentBar` and `currentLength`. */
  datatype Segmenter = Segmenter(bars: seq<Bar>, currentBar: Bar, currentLength: int)

  const Start: Segmenter := Segmenter([], [], 0)

  /** One turn of the loop: the note lands on the bar line and closes the bar,
      crosses it and is split, or fits and is appended. */
  function Step(barLength: int, s: Segmenter, note: Note): Result<Segmenter, LengthError>
  {
    var noteLength := Weight(note.value);
    if s.currentLength + noteLength == barLength then
      Success(Segmenter(s.bars + [s.currentBar + [note]], [], 0))
    else if s.currentLength + noteLength > barLength then
      match DecomposeSixteenths(barLength - s.currentLength)
      case Failure(e) => Failure(e)
      case Success(before) =>
        var overflow := s.currentLength + noteLength - barLength;
        match DecomposeSixteenths(overflow)
        case Failure(e) => Failure(e)
        case Success(after) =>
          Success(Segmenter(s.bars + [s.currentBar + Split(note, before)], Rests(after), overflow))
    else
      Success(Segmenter(s.bars, s.currentBar + [note], s.currentLength + noteLength))
  }

  /** The loop over the notes, from state `s`; the first error ends it. */
  function Run(barLength: int, s: Segmenter, notes: seq<Note>): Result<Segmenter, LengthError>
    decreases |notes|
  {
    if notes == [] then Success(s)
    else
      match Step(barLength, s, notes[0])
      case Failure(e) => Failure(e)
      case Success(next) => Run(barLength, next, notes[1..])
  }

  /** After the loop: a partial bar, or the bar of an empty track, is filled
      with rests and closed. */
  function Finish(barLength: int, s: Segmenter, trackEmpty: bool): Result<seq<Bar>, LengthError>
  {
    if |s.currentBar| > 0 || (s.currentLength == 0 && trackEmpty) then
      match DecomposeSixteenths(barLength - s.currentLength)
      case Failure(e) => Failure(e)
      case Success(fill) => Success(s.bars + [s.currentBar + Rests(fill)])
    else
      Success(s.bars)
  }

  /** The loop followed by the final fill, from state `s`. */
  function Resume(barLength: int, s: Segmenter, notes: seq<Note>, trackEmpty: bool): Result<seq<Bar>, LengthError>
  {
    match Run(barLength, s, notes)
    case Failure(e) => Failure(e)
    case Success(last) => Finish(barLength, last, trackEmpty)
  }

  /** The bars of a track, or the error that aborts it. */
  function Segment(time: TimeSignature, notes: seq<Note>): Result<seq<Bar>, LengthError>
  {
    Resume(BarLength(time), Start, notes, |notes| == 0)
  }

  /** The per-track callback of `groupLoopByBar`: walk the notes, then close
      the last bar. */
  method SegmentTrack(time: TimeSignature, notes: seq<Note>) returns (r: Result<seq<Bar>, LengthError>)
    ensures r == Segment(time, notes)
  {
    var bars: seq<Bar> := [];
    var barLength := BarLength(time);
    var currentLength := 0;
    var currentBar: Bar := [];
    for i := 0 to |notes|
      invariant Run(barLength, Segmenter(bars, currentBar, currentLength), notes[i..]) == Run(barLength, Start, notes)
    {
      assert notes[i..][0] == notes[i] && notes[i..][1..] == notes[i + 1..];
      var next := PlaceNote(barLength, bars, currentBar, currentLength, notes[i]);
      if next.Failure? {
        return Failure(next.error);
      }
      bars, currentBar, currentLength := next.value.bars, next.value.currentBar, next.value.currentLength;
    }
    assert notes[|notes|..] == [];
    r := CloseTrack(barLength, bars, currentBar, currentLength, |notes| == 0);
  }

  /** The body of the loop for one note: close the bar on the bar line, split
      the note across it, or append it. */
  method PlaceNote(barLength: int, bars: seq<Bar>, currentBar: Bar, currentLength: int, note: Note)
    returns (r: Result<Segmenter, LengthError>)
    ensures r == Step(barLength, Segmenter(bars, currentBar, currentLength), note)
  {
    var bars, currentBar, currentLength := bars, currentBar, currentLength;
    var noteLength := Weight(note.value);
    if currentLength + noteLength == barLength {
      currentBar := currentBar + [note];
      bars := bars + [currentBar];
      currentBar := [];
      currentLength := 0;
    } else if currentLength + noteLength > barLength {
      var before := NotesFor(barLength - currentLength);
      if before.Failure? {
        return Failure(before.error);
      }
      currentBar := currentBar + Split(note, before.value);
      bars := bars + [currentBar];
      var after := NotesFor(currentLength + noteLength - barLength);
      // the overflow is positive here, so its decomposition cannot fail
      currentBar := Rests(after.value);
      currentLength := currentLength + noteLength - barLength;
    } else {
      currentBar := currentBar + [note];
      currentLength := currentLength + noteLength;
    }
    return Success(Segmenter(bars, currentBar, currentLength));
  }

  /** `lengthToNotes` on a length the loop has counted in sixteenths: the
      call site's length, `n / 4` quarter notes. */
  method NotesFor(n: int) returns (r: Result<seq<Value>, LengthError>)
    ensures r == DecomposeSixteenths(n)
  {
    DecomposeQuarters(n);
    r := LengthToNotes(Quarters(n));
  }

  /** The end of the per-track callback: fill a partial bar (or the bar of an
      empty track) with rests and close it. */
  method CloseTrack(barLength: int, bars: seq<Bar>, currentBar: Bar, currentLength: int, trackEmpty: bool)
    returns (r: Result<seq<Bar>, LengthError>)
    ensures r == Finish(barLength, Segmenter(bars, currentBar, currentLength), trackEmpty)
  {
    if |currentBar| > 0 || (currentLength == 0 && trackEmpty) {
      var fill := NotesFor(barLength - currentLength);
      if fill.Failure? {
        return Failure(fill.error);
      }
      return Success(bars + [currentBar + Rests(fill.value)]);
    }
    return Success(bars);
  }
}
