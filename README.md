# Line counter: crossing detection and counting

This project models the counting engine of a production line monitor in Dafny.
The engine is the class `LineCounter` in `utils/line_counter.py`. A tracker
reports one frame at a time. Each frame is a list of detections, and each
detection has a track id, a class name and a box. For each detection the
counter:

1. computes the centre of the box;
2. looks up the track's previous centre, if the track has one;
3. decides whether the move from the previous centre to the current one
   crossed the vertical counting line at `line_x_position`;
4. counts that crossing at most once per track id, on line 1 when the landing
   centre lies above the horizontal separator `line_y_position` and on
   line 2 otherwise;
5. always overwrites the track's stored centre.

Both positions are fixed at 0.5 by the constructor.

Layout:

- `geometry.dfy`, module `Geometry`: the `Point` value. Coordinates are `real`,
  so the box centre `(x1 + x2) / 2` is exact.
- `crossing.dfy`, module `Crossing`: boxes, detections, the centre, the crossing
  test and the line choice, all pure functions. `HasCrossedLine` is tied to an
  independent three-way side classification (`SideOf`).
- `ledger.dfy`, module `Ledger`: the counter's whole state as a value
  (`State`), and one function each for one counted crossing
  (`ProcessCrossing`), one loop iteration (`Step`) and one frame (`Frame`). It
  also holds the ledger invariant `Inv` and the lemmas that state what the
  counter guarantees.
- `line_counter.dfy`, module `LineCounting`: the class `LineCounter`. Its
  fields are updated in place, and each method is proved to compute the
  matching `Ledger` function of the old state. `UpdateCounts` is a loop whose
  invariant says the state after `i` detections is `Frame` of the first `i`
  detections.
- `scenarios.dfy`, module `Scenarios`: two worked sessions. Track 7 is counted
  once even though it crosses twice. Track 9 sits exactly on the line and is
  never counted.
- `frame_units.dfy`, module `FrameUnits`: how the detection loop hands pixel
  boxes to the counter (see Findings).

Modelling choices:

- The tracking state (`TrackingState`, whose module is not part of this model)
  is a `map<int, Point>`. `has_previous_position` is membership in its domain,
  `get_previous_position` is lookup, `update_position` is a map update and
  `reset` is the empty map. The code checks before it looks up, so lookup is
  never made for a missing key.
- `counts` and `latest_crossings` are dictionaries whose keys are always
  exactly `'line1'` and `'line2'`. They become `PerLine<T>` with one field per
  line. A latest crossing is `None` or `Some(CrossingInfo(className, timestamp))`.
- `cv2.getTickCount()` becomes an input. `UpdateCounts` takes one tick value per
  detection, and that value is used only if the detection is counted.
- `Valid()` is the ledger invariant. The constructor and `Reset` establish
  it. `UpdateCounts` requires it and preserves it. `ProcessLineCrossing` requires
  it, and also requires the track to have a stored centre, because its only
  caller is `UpdateCounts`, which calls it only for such a track; it preserves
  `Valid()`. `GetCounts` and `GetLatestCrossings` only read.
- `_process_line_crossing` returns nothing. History is read with
  `has_previous_position` followed by `get_previous_position`. The model does
  the same.

## Model

| member | source | states |
|---|---|---|
| `Crossing.DetectionCenter` | utils/line_counter.py:48-51 | the centre is equally far from both edges of the box on each axis and lies between them |
| `Crossing.HasCrossedLine` | utils/line_counter.py:53-56 | a crossing holds iff the previous x was strictly on one side of the line and the current x is no longer strictly on that side; a crossing implies the x changed; a previous x exactly on the line never crosses |
| `Crossing.LineFor` | utils/line_counter.py:62 | a landing centre with y below the separator value is line 1, any other is line 2; characterised by `Ledger.StepCountsLandingLine` |
| `Ledger.Initial` | utils/line_counter.py:8-13 | the state of a new counter, reached again by reset: empty history and counted ids, zero counts, no latest crossings; `Ledger.InitialInv` proves it satisfies the invariant |
| `Ledger.Step` | utils/line_counter.py:38-46 | one iteration of the detection loop; characterised by `StepNoHistoryNoCount`, `StepCountsIff`, `StepCountsLandingLine`, `StepRecordsPosition`, `StepPreservesInv` and `StepMonotone` |
| `Ledger.Frame` | utils/line_counter.py:35-46 | update_counts on a whole frame, detections in input order; characterised by `FramePreservesInv`, `FrameMonotone`, `FrameHistoryKeys`, `FrameHistoryLast`, `FrameHistoryOthers`, `FrameConcat`, `FrameNewIdsInFrame` and `FrameCountsNewIds` |
| `Ledger.ProcessCrossing` | utils/line_counter.py:58-71 | counting a crossing never touches the tracking state |
| `Ledger.ProcessCrossingCountedIdUnchanged` | utils/line_counter.py:60 | at most once: a crossing by an id already counted leaves the whole state unchanged |
| `Ledger.ProcessCrossingNewId` | utils/line_counter.py:60-71 | a crossing by a new id adds it to the counted ids, adds exactly 1 to the landing line's count, makes it that line's latest crossing, and leaves the other line alone |
| `Ledger.StepNoHistoryNoCount` | utils/line_counter.py:41-44 | a detection whose track has no stored centre changes neither counted ids, counts nor latest crossings |
| `Ledger.StepCountsIff` | utils/line_counter.py:37-46 | a detection changes the counted ids iff its track has a stored centre, the move crosses the line and the id was not yet counted; otherwise counts and latest crossings are unchanged |
| `Ledger.StepCountsLandingLine` | utils/line_counter.py:62-71 | a counted crossing whose landing y is below the separator value adds 1 to line 1, otherwise 1 to line 2; only that line's count and latest crossing change |
| `Ledger.StepRecordsPosition` | utils/line_counter.py:46 | the new centre is always stored for the track, counted or not, and no other entry changes |
| `Ledger.StepPreservesInv` | utils/line_counter.py:58-71 | one detection keeps the invariant: counts sum to the number of counted ids, a line has a latest crossing iff its count is positive, counted ids have stored centres |
| `Ledger.StepMonotone` | utils/line_counter.py:58-71 | one detection never removes a counted id or a tracked id and never lowers a count |
| `Ledger.FramePrefix` | utils/line_counter.py:37-46 | the state after i + 1 detections is one loop iteration applied to the state after i |
| `Ledger.FramePreservesInv` | utils/line_counter.py:35-46 | update_counts keeps the ledger invariant |
| `Ledger.FrameMonotone` | utils/line_counter.py:35-46 | across a frame counted ids only grow, each count never decreases, and no tracked id is dropped |
| `Ledger.FrameHistoryKeys` | utils/line_counter.py:37-46 | after a frame the tracked ids are the earlier ones plus the frame's track ids |
| `Ledger.FrameHistoryLast` | utils/line_counter.py:37-51 | after a frame each track id of the frame maps to the centre of its last detection in the frame |
| `Ledger.FrameHistoryOthers` | utils/line_counter.py:37-46 | after a frame a tracked id that does not occur in the frame keeps its stored centre |
| `Ledger.FrameConcat` | utils/line_counter.py:35-46 | two consecutive update_counts calls equal one call on the concatenated detections |
| `Ledger.FrameNewIdsInFrame` | utils/line_counter.py:37-46 | only track ids occurring in the frame can join the counted ids |
| `Ledger.FrameCountsNewIds` | utils/line_counter.py:58-71 | a frame raises the total count by exactly the number of newly counted ids, all of which are tracks of the frame |
| `Ledger.InitialInv` | utils/line_counter.py:7-13 | the initial state (empty history and counted ids, zero counts, no latest crossings) satisfies the invariant |
| `Ledger.RecountAfterReset` | utils/line_counter.py:81-86 | from the reset state, a track seen on both sides of the line is counted again, once, on its landing line, with its class name and tick |
| `LineCounting.LineCounter.constructor` | utils/line_counter.py:7-13 | both lines at 0.5, empty history and counted ids, counts zero, no latest crossings |
| `LineCounting.LineCounter.UpdateCounts` | utils/line_counter.py:35-46 | the new state is the frame function of the old state and the detections, and the invariant still holds |
| `LineCounting.LineCounter.ProcessLineCrossing` | utils/line_counter.py:58-71 | the new state is the counting function of the old state, and the invariant still holds |
| `LineCounting.LineCounter.GetCounts` | utils/line_counter.py:73-75 | returns the counts equal to the internal ones and changes nothing |
| `LineCounting.LineCounter.GetLatestCrossings` | utils/line_counter.py:77-79 | returns the latest crossings equal to the internal ones and changes nothing |
| `LineCounting.LineCounter.Reset` | utils/line_counter.py:81-86 | the state is the initial one again: zero counts, no latest crossings, no counted ids, empty history |
| `Scenarios.TrackSevenCountedOnce` | utils/line_counter.py:35-71 | track 7: no count on first sight, counted on line 1 on its first crossing, crosses again with the detector firing and the count stays 1 |
| `Scenarios.TrackNineOnTheLine` | utils/line_counter.py:53-56 | a track staying exactly on the vertical line is not counted |
| `FrameUnits.AsWrittenMissesMidFrameCrossing` | utils/detection.py:31-52 | as written, a centre moving from pixel 100 to pixel 500 across the drawn line at 320 of a 640-wide frame is not a crossing |
| `FrameUnits.AsWrittenRightwardCrossingOnlyFromEdge` | utils/line_counter.py:53-56 | as written, with non-negative pixel boxes, a left-to-right crossing can only start from a centre at pixel 0 |
| `FrameUnits.NormalizedMatchesMidFrame` | utils/line_counter.py:9-10 | with boxes normalised by the frame size, the crossing test and line choice at 0.5 are exactly the pixel crossing of x = width/2 and the split at y = height/2 |
| `FrameUnits.CountFrame` | utils/detection.py:51-52 | the corrected hand-over of one frame: the counter's new state is the frame function of the normalised detections |

## Left out

- `draw_counting_lines` (utils/line_counter.py:15-33): OpenCV drawing only, which is presentation.
- utils/detection.py apart from the box hand-over: frame resizing, the YOLO
  tracking call, tensor conversion and box drawing are foreign library calls
  and I/O.
- utils/production_tracker.py: it copies the counts into display records and
  calls the BOM reader and the Excel logger, which are foreign calls and file
  I/O.
- `cv2.getTickCount()`: it becomes an arbitrary input, one tick value per
  detection.
- `TrackingState` and `Point` internals: their modules are not part of this
  model. They are represented by a map and a pair of reals.
- Floating point: centres and comparisons are exact rationals. Python floats
  round, which can only matter for coordinates beyond 2^52.
- Concurrency: the counter is single-threaded and each call runs to
  completion.
- `get_counts` and `get_latest_crossings` return values here, so nothing is
  shared with the caller. In the source, `latest_crossings.copy()` is a shallow
  copy: the inner `{'class_name', 'timestamp'}` records are shared with the
  caller. The model does not capture that nested sharing. The only consumer,
  utils/production_tracker.py, only reads those records.

## Findings

| source | as written | input that shows it | evidently intended | confidence | as-written member | corrected member |
|---|---|---|---|---|---|---|
| utils/detection.py:31 | the boxes passed to `update_counts` are integer pixel coordinates (`xyxy.int()`), but `line_x_position` and `line_y_position` are fractions (0.5) and `_has_crossed_line` compares the pixel centre with 0.5 directly | 640-pixel-wide frame, track centre moving from x = 100 to x = 500 across the line drawn at `int(640 * 0.5)` = 320: no crossing is detected | compare in one unit: normalise the centres by the frame width and height, so 0.5 means the drawn mid-frame line | not executed; high (the draw code scales the same 0.5 by the width) | `FrameUnits.AsWrittenMissesMidFrameCrossing` | `FrameUnits.NormalizedMatchesMidFrame` |

The counter itself is unit-agnostic and is modelled as written. The corrected
hand-over `FrameUnits.CountFrame` divides the tracker's pixel boxes by the frame
size before calling `UpdateCounts`.
