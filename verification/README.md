# drumjot bar segmentation, in Dafny

A model of the core of drumjot, a drum notation editor. The core turns the
note list of each track of a drum loop into bars of a time signature:

- the note values and their weights (`Value`, `mapNoteValue`);
- `lengthToNotes`, which writes a length as the fewest standard note values
  by subtracting the longest value that fits, again and again;
- the per-track loop of `groupLoopByBar`. A note that lands on the bar line
  closes the bar. A note that crosses the bar line is split: the part before
  the line closes the bar, and the overflow opens the next bar as rests. The
  last partial bar, or the bar of an empty track, is padded with rests.
  `mapObject` runs this on every track of a loop;
- the small geometry of `src/geom.ts`: points, boxes, `Box.create` and
  `Box.encloses`.

Lengths are counted in whole sixteenth notes (a sixteenth weighs 1, a whole
note 16). The source counts in quarter notes, where a sixteenth weighs 0.25.
Every length the segmentation forms is a whole number of sixteenths (a sum or
difference of table weights and of the bar length), so the integer model is
exact. Only `lengthToNotes` keeps a real-valued argument, for its own
"is this a multiple of 0.25" check. Exceptions become `Result` values:
`NotSixteenthMultiple` for a length that is not a whole number of sixteenths,
and `NoSubtractableNote` for a negative length, where no value can be
subtracted.

The loops of the source are imperative methods, each proved equal to a
functional specification:

- `FindSubtractable` equals `LargestFitting`;
- `LengthToNotes` equals `Decompose`;
- `SegmentTrack` (with `PlaceNote` for one note and `CloseTrack` for the end)
  equals `Segment`, a left fold of `Step` over the notes followed by `Finish`;
- `MapObject` equals `MapEntries`.

The properties are then proved about the functions.

Modules: `Wrappers` (Option, Result), `Durations`, `Segmentation`,
`SegmentationFacts`, `Fragments`, `Records`, `Loops`, `Scenarios` (concrete
tracks) and `Geom`.

Two behaviours of the source are modelled as written:

- An overflow exactly one bar long fills the next bar with rests. The note
  after it then has nothing before the bar line, so it survives only as
  rests and loses its accent (`Scenarios.QuarterAfterFullOverflow`).
- An overflow longer than a bar makes the segmentation fail
  (`SegmentationFacts.SegmentOverflowFails`).

The model follows src/jot.ts on these points:

- The first fragment of a split note keeps every field of the note, `valueRhythm` included, not only the accent and rest flags (src/jot.ts:82).
- A negative length also makes `lengthToNotes` throw (src/jot.ts:156).

## Model

| member | source | states |
|---|---|---|
| Durations.Weight | src/jot.ts:36-43 | every weight is at least a sixteenth and at most a whole note, and divides a whole note |
| Durations.WeightTable | src/jot.ts:36-43 | the five weights are 0.25, 0.5, 1, 2 and 4 quarter notes |
| Durations.LargestFitting | src/jot.ts:143-150 | no value fits exactly when the length is below a sixteenth; a chosen value fits |
| Durations.LargestFittingMaximal | src/jot.ts:143-150 | every value that fits is at most as long as the chosen one |
| Durations.FindSubtractable | src/jot.ts:143-150 | the longest-first scan finds the largest fitting value, or none |
| Durations.Decompose | src/jot.ts:128-162 | success exactly for non-negative multiples of 0.25; a non-multiple fails with NotSixteenthMultiple; a negative multiple fails with NoSubtractableNote |
| Durations.LengthToNotes | src/jot.ts:128-162 | the subtraction loop returns what Decompose specifies, errors included |
| Durations.DecomposeSixteenths | src/jot.ts:131-159 | a length in whole sixteenths decomposes exactly when it is non-negative |
| Durations.DecomposeQuarters | src/jot.ts:131-133 | a whole number of sixteenths always passes the multiple-of-0.25 check |
| Durations.DecomposeTotal | src/jot.ts:134-161 | on success the weights sum exactly to the requested length |
| Durations.DecomposeSixteenthsTotal | src/jot.ts:134-161 | the same, for a length counted in sixteenths |
| Durations.GreedyTotal | src/jot.ts:134-161 | the greedy values sum to the length |
| Durations.GreedyEmpty | src/jot.ts:139-141 | length zero gives no notes, and a positive length gives at least one |
| Durations.GreedyBounded | src/jot.ts:145-147 | every chosen value fits in the length |
| Durations.GreedyShape | src/jot.ts:137-150 | weights never increase, and only whole notes repeat |
| Durations.GreedyDigits | src/jot.ts:137-160 | the output is exactly, in this order, some whole notes then at most one half, quarter, eighth and sixteenth: the length in binary |
| Durations.GreedyOptimal | src/jot.ts:125-127 | no sequence of standard values with the same total is shorter: the minimal number of notes |
| Segmentation.SegmentTrack | src/jot.ts:62-115 | the per-track loop returns the bars Segment specifies, or its first error |
| Segmentation.PlaceNote | src/jot.ts:69-100 | one note closes the bar, is split across the bar line, or is appended, as Step specifies |
| Segmentation.NotesFor | src/jot.ts:79 | lengthToNotes on a length counted in sixteenths behaves as DecomposeSixteenths |
| Segmentation.CloseTrack | src/jot.ts:103-112 | a partial bar, or the bar of an empty track, is padded with rests and closed |
| SegmentationFacts.StepConsistent | src/jot.ts:71-100 | one turn keeps every closed bar full and currentLength equal to the length of currentBar, and adds exactly the note's length |
| SegmentationFacts.RunConsistent | src/jot.ts:68-101 | the same over the whole loop |
| SegmentationFacts.SegmentBarsFull | src/jot.ts:65-112 | every emitted bar sums exactly to the bar length |
| SegmentationFacts.SegmentTotal | src/jot.ts:103-112 | the output is a whole number of bars, at least as long as the input and less than one bar longer; an empty track gives one bar of rests |
| SegmentationFacts.SegmentWholeBars | src/jot.ts:71-75 | a track of exactly k bars gives k bars, with no trailing padding bar |
| SegmentationFacts.SplitShape | src/jot.ts:79-85 | a split keeps the note's fields on its first fragment; the other fragments are rests |
| SegmentationFacts.OverflowFails | src/jot.ts:90-111 | a state whose overflow exceeds the bar fails with NoSubtractableNote on the next split or the final fill |
| SegmentationFacts.SegmentOverflowFails | src/jot.ts:76-112 | once the notes so far leave more than a bar of overflow, the whole track fails with NoSubtractableNote |
| SegmentationFacts.SegmentSucceeds | src/jot.ts:65-112 | with a positive bar length, a track segments exactly when no position the loop reaches, before a note or at the end, is more than a bar past the last bar line |
| SegmentationFacts.SegmentFits | src/jot.ts:65-112 | a track whose notes are each at most a bar long always segments |
| SegmentationFacts.SegmentStream | src/jot.ts:65-112 | every successful segmentation, read bar after bar, gives each note in input order (unchanged, or split at the bar line with its overflow as rests) and then the padding rests |
| Fragments.SegmentFragments | src/jot.ts:79-110 | every output note is a plain rest, or an input note keeping its fields with a possibly new value |
| Scenarios.EmptyTrack | src/jot.ts:104-112 | an empty 4/4 track is one bar holding a whole rest |
| Scenarios.WholeThenHalf | src/jot.ts:68-112 | [whole, half] in 4/4 is [[whole], [half, half rest]] |
| Scenarios.EighthsInFourFour | src/jot.ts:65-112 | 8k eighths in 4/4 are exactly k bars holding the eighths in order |
| Scenarios.RockHihat | src/jot.ts:65-112 | sixteen eighths in 4/4 are two bars |
| Scenarios.WholeInThreeFour | src/jot.ts:76-112 | a whole note in 3/4 is [[half, quarter rest], [quarter rest, half rest]] |
| Scenarios.QuarterAfterFullOverflow | src/jot.ts:76-96 | after a whole-bar overflow in 2/4, an accented quarter becomes a quarter rest and its accent is lost |
| Scenarios.OverflowLongerThanBar | src/jot.ts:90-111 | a quarter then a whole note in 2/4 fails with a negative remaining length |
| Records.MapEntries | src/jot.ts:164-170 | success exactly when the callback succeeds on every entry; the same keys in the same order, each with its callback result; on failure, the error of the first failing entry |
| Records.MapEntriesPrefixFails | src/jot.ts:166-168 | an exception on an entry ends the whole walk with that exception |
| Records.MapObject | src/jot.ts:164-170 | the walk over the entries returns what MapEntries specifies |
| Loops.GroupLoopByBar | src/jot.ts:57-118 | time and repeats are copied; the tracks keep their names and order, each segmented on its own; the loop fails exactly when a track fails, with the first failing track's error; every bar of every track is one bar long; track names stay distinct |
| Geom.Point.Translate | src/geom.ts:4-6 | the new point is offset by (dx, dy) |
| Geom.TranslateInverse | src/geom.ts:4-6 | translating back by the opposite offset returns the original point |
| Geom.TranslateCompose | src/geom.ts:4-6 | two translations are one translation by the summed offsets |
| Geom.Box.X1 | src/geom.ts:17-19 | the left edge is left of the right edge exactly when the width is not negative |
| Geom.Box.X2 | src/geom.ts:20-22 | x2 - x1 is the width |
| Geom.Box.Y1 | src/geom.ts:23-25 | the top edge is above the bottom edge exactly when the height is not negative |
| Geom.Box.Y2 | src/geom.ts:26-28 | y2 - y1 is the height |
| Geom.Box.Encloses | src/geom.ts:30-32 | only a box with positive width and height encloses a point |
| Geom.Box.Create | src/geom.ts:34-39 | the edges are the minimum and maximum of the corners' coordinates, so width and height are non-negative |
| Geom.CreateSymmetric | src/geom.ts:34-39 | the order of the corners does not matter |
| Geom.CreateEncloses | src/geom.ts:30-39 | the created box encloses exactly the points strictly between the two corners on both axes |
| Geom.EnclosesStrict | src/geom.ts:30-32 | points on an edge, and every point for a box without area, are not enclosed |
| Geom.EnclosesTranslate | src/geom.ts:30-32 | moving a box and a point by the same offset keeps the point inside or outside |

## Left out

- `createTransformer` (src/jot.ts:1, 57) is the mobx-utils memoization of `groupLoopByBar`, a foreign reactive library. It is left out, and the transform is modelled directly.
- The `Jot` class and its `tracks` and `loops` getters (src/jot.ts:45-55) only hold state and map every loop through the transform. They are left out.
- Floating point is not modelled. Segmentation lengths are whole sixteenths, where the source's dyadic arithmetic is exact. `lengthToNotes` takes an exact real, so NaN and infinities are not modelled.
- Geometry uses exact reals. Float rounding in `translate` and `create` is not modelled, so `TranslateInverse` and `TranslateCompose` hold for the model only.
- `TimeSignature.count` is an integer. A fractional count, which TypeScript's `number` allows, is not modelled.
- Thrown errors become `LengthError` values, without their message strings.
- A `Record` is the list of entries `Object.entries` walks, in insertion order. The tracks of a loop are such a list with no name twice (`Loops.Tracks`). JavaScript lists integer-like keys first, in ascending order; that ordering is not modelled.
- In the per-track loop, `currentBar.push` and `bars.push` become reassignments of sequence values. After it is pushed, `currentBar` is always replaced by a fresh array, so no aliasing is lost.
- The body of the per-track callback is split into three methods: `PlaceNote` for one turn of the loop, `NotesFor` for each `lengthToNotes` call on a length in sixteenths, and `CloseTrack` for the final fill.
- `valueRhythm` is carried through unchanged and takes no part in the arithmetic, as in the source.
- Rendering and pixel layout (src/jot_view.tsx), the selection store (src/selection.ts), the DOM bootstrap (src/index.tsx), build tooling (esbuild.config.ts) and the schema and fixture files are not part of this model.
