/** `groupLoopByBar` of src/jot.ts: a loop's tracks, each cut into bars. */
module Loops {
  import opened Wrappers
  import opened Durations
  import opened Segmentation
  import opened SegmentationFacts
  import opened Records

  /** A track name; tracks are keyed by name. */
  type TrackName = string

  /** The tracks of a loop, a record keyed by track name: no name twice. */
  type Tracks<V> = o: Entries<TrackName, V> | Distinct(Keys(o)) witness []

  /** `LoopState`: a time signature, the notes of each track, a repeat count. */
  datatype LoopState = LoopState(time: TimeSignature, tracks: Tracks<seq<Note>>, repeats: int)

  /** One track of a grouped loop: `{ bars }`. */
  datatype Track = Track(bars: seq<Bar>)

  /** A grouped loop: the same time signature and repeat count, each track's
      notes replaced by its bars. */
  datatype Loop = Loop(time: TimeSignature, tracks: Tracks<Track>, repeats: int)

  /** The per-track callback, as a function of the track name and its notes. */
  function SegmentCallback(time: TimeSignature): (TrackName, seq<Note>) -> Result<Track, LengthError>
  {
    (t: TrackName, notes: seq<Note>) =>
      match Segment(time, notes)
      case Failure(e) => Failure(e)
      case Success(bars) => Success(Track(bars))
  }

  /** `groupLoopByBar`: keep the time signature and the repeat count and
      segment every track; the first track that fails makes the whole loop
      fail with its error. */
  method GroupLoopByBar(l: LoopState) returns (r: Result<Loop, LengthError>)
    ensures r.Success? <==> forall i :: 0 <= i < |l.tracks| ==> Segment(l.time, l.tracks[i].1).Success?
    ensures r.Success? ==> r.value.time == l.time && r.value.repeats == l.repeats
    ensures r.Success? ==> Keys(r.value.tracks) == Keys(l.tracks)
    ensures r.Success? ==> forall i :: 0 <= i < |l.tracks| ==>
      r.value.tracks[i].1.bars == Segment(l.time, l.tracks[i].1).value
    ensures r.Failure? ==> exists i :: (0 <= i < |l.tracks| && Segment(l.time, l.tracks[i].1) == Failure(r.error)
      && forall j :: 0 <= j < i ==> Segment(l.time, l.tracks[j].1).Success?)
    ensures r.Success? ==> forall i, b :: 0 <= i < |l.tracks| && 0 <= b < |r.value.tracks[i].1.bars| ==>
      Length(r.value.tracks[i].1.bars[b]) == BarLength(l.time)
  {
    var f := SegmentCallback(l.time);
    assert forall i :: 0 <= i < |l.tracks| ==>
      f(l.tracks[i].0, l.tracks[i].1).Success? == Segment(l.time, l.tracks[i].1).Success?;
    var tracks := MapObject(l.tracks, f);
    if tracks.Failure? {
      return Failure(tracks.error);
    }
    r := Success(Loop(l.time, tracks.value, l.repeats));
    forall i | 0 <= i < |l.tracks|
      ensures forall b :: 0 <= b < |r.value.tracks[i].1.bars| ==> Length(r.value.tracks[i].1.bars[b]) == BarLength(l.time)
    {
      SegmentBarsFull(l.time, l.tracks[i].1);
    }
  }
}
