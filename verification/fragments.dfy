/** Where every note of a segmented track comes from: the fields of an input
    note survive only on that note itself or on the first fragment of its
    split, and everything else the segmentation adds is a plain rest. */
module Fragments {
  import opened Wrappers
  import opened Durations
  import opened Segmentation
  import opened SegmentationFacts

  /** A fragment is a rest `{ accent: false, rest: true }`, or one of the
      track's notes with (possibly) another value. */
  ghost predicate FromTrack(x: Note, notes: seq<Note>)
  {
    x == RestNote(x.value) || exists n :: n in notes && x == n.(value := x.value)
  }

  ghost predicate AllFromTrack(xs: seq<Note>, notes: seq<Note>)
  {
    forall i :: 0 <= i < |xs| ==> FromTrack(xs[i], notes)
  }

  /** What the loop has laid out so far: the closed bars, then the open one. */
  function LaidOut(s: Segmenter): seq<Note>
  {
    Flatten(s.bars) + s.currentBar
  }

  lemma AllFromTrackAppend(a: seq<Note>, b: seq<Note>, notes: seq<Note>)
    requires AllFromTrack(a, notes) && AllFromTrack(b, notes)
    ensures AllFromTrack(a + b, notes)
  {
    forall i | 0 <= i < |a + b|
      ensures FromTrack((a + b)[i], notes)
    {
      if i < |a| {
        assert (a + b)[i] == a[i];
      } else {
        assert (a + b)[i] == b[i - |a|];
      }
    }
  }

  lemma RestsFromTrack(vs: seq<Value>, notes: seq<Note>)
    ensures AllFromTrack(Rests(vs), notes)
  {
    forall i | 0 <= i < |vs|
      ensures FromTrack(Rests(vs)[i], notes)
    {
      assert Rests(vs)[i] == RestNote(vs[i]);
    }
  }

  lemma SplitFromTrack(note: Note, vs: seq<Value>, notes: seq<Note>)
    requires note in notes
    ensures AllFromTrack(Split(note, vs), notes)
  {
    forall i | 0 <= i < |vs|
      ensures FromTrack(Split(note, vs)[i], notes)
    {
      if i == 0 {
        assert Split(note, vs)[i] == note.(value := vs[0]);
      } else {
        assert Split(note, vs)[i] == RestNote(vs[i]);
      }
    }
  }

  lemma NoteFromTrack(note: Note, notes: seq<Note>)
    requires note in notes
    ensures AllFromTrack([note], notes)
  {
    assert [note][0] == note.(value := note.value);
  }

  /** One turn of the loop adds only fragments of the track. */
  lemma StepFragments(barLength: int, s: Segmenter, note: Note, notes: seq<Note>)
    requires note in notes
    requires AllFromTrack(LaidOut(s), notes)
    requires Step(barLength, s, note).Success?
    ensures AllFromTrack(LaidOut(Step(barLength, s, note).value), notes)
  {
    var w := Weight(note.value);
    var next := Step(barLength, s, note).value;
    NoteFromTrack(note, notes);
    if s.currentLength + w == barLength {
      assert next == Segmenter(s.bars + [s.currentBar + [note]], [], 0);
      ClosedStream(s.bars, s.currentBar, [note], []);
      assert [note] + [] == [note];
      AllFromTrackAppend(LaidOut(s), [note], notes);
    } else if s.currentLength + w > barLength {
      var before := DecomposeSixteenths(barLength - s.currentLength).value;
      var after := DecomposeSixteenths(s.currentLength + w - barLength).value;
      assert next == Segmenter(s.bars + [s.currentBar + Split(note, before)], Rests(after), s.currentLength + w - barLength);
      ClosedStream(s.bars, s.currentBar, Split(note, before), Rests(after));
      SplitFromTrack(note, before, notes);
      RestsFromTrack(after, notes);
      AllFromTrackAppend(Split(note, before), Rests(after), notes);
      AllFromTrackAppend(LaidOut(s), Split(note, before) + Rests(after), notes);
    } else {
      assert next == Segmenter(s.bars, s.currentBar + [note], s.currentLength + w);
      AppendAssoc(Flatten(s.bars), s.currentBar, [note]);
      AllFromTrackAppend(LaidOut(s), [note], notes);
    }
  }

  lemma {:induction false} RunFragments(barLength: int, s: Segmenter, rest: seq<Note>, notes: seq<Note>)
    requires forall i :: 0 <= i < |rest| ==> rest[i] in notes
    requires AllFromTrack(LaidOut(s), notes)
    requires Run(barLength, s, rest).Success?
    ensures AllFromTrack(LaidOut(Run(barLength, s, rest).value), notes)
    decreases |rest|
  {
    if rest != [] {
      StepFragments(barLength, s, rest[0], notes);
      var next := Step(barLength, s, rest[0]).value;
      assert forall i :: 0 <= i < |rest[1..]| ==> rest[1..][i] == rest[i + 1];
      RunFragments(barLength, next, rest[1..], notes);
      RunCons(barLength, s, rest);
    }
  }

  /** Every note of every bar is a plain rest or a note of the track, whose
      fields (accent, rest, valueRhythm) it keeps with a possibly new value. */
  lemma SegmentFragments(time: TimeSignature, notes: seq<Note>)
    requires Segment(time, notes).Success?
    ensures AllFromTrack(Flatten(Segment(time, notes).value), notes)
  {
    var bl := BarLength(time);
    assert AllFromTrack(LaidOut(Start), notes) by {
      assert LaidOut(Start) == [];
    }
    RunFragments(bl, Start, notes, notes);
    var last := Run(bl, Start, notes).value;
    SegmentFinish(time, notes);
    if |last.currentBar| > 0 || (last.currentLength == 0 && notes == []) {
      var fill := DecomposeSixteenths(bl - last.currentLength).value;
      assert Segment(time, notes) == Success(last.bars + [last.currentBar + Rests(fill)]);
      ClosedStream(last.bars, last.currentBar, Rests(fill), []);
      assert Rests(fill) + [] == Rests(fill);
      assert Flatten(last.bars + [last.currentBar + Rests(fill)]) + [] == Flatten(last.bars + [last.currentBar + Rests(fill)]);
      RestsFromTrack(fill, notes);
      AllFromTrackAppend(LaidOut(last), Rests(fill), notes);
    } else {
      assert last.currentBar == [];
      assert LaidOut(last) == Flatten(last.bars);
    }
  }
}
