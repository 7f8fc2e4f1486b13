# iTrace-Visualize core, modelled in Dafny

iTrace-Visualize replays an eye-tracking session recorded by the iTrace
toolkit over the screen recording it was taken against. This project models
the sequential logic under its Qt, OpenCV and SQLite plumbing:

- **Records** (`EyeData`): the `Gaze` (22 columns) and `Fixation` (15 columns) records unpacked
  from database rows, and `Gaze.isNaN`, which decides which gazes may enter a
  saccade. Stored values stay dynamically typed (`PyValues.Value`: int, float,
  NaN, ±infinity, text, NULL), so Python's `int()` and comparison behave as they
  do on each kind.
- **Time base** (`WindowsTime`): `ConvertWindowsTime`, Windows FILETIME ticks to Unix
  milliseconds.
- **Saccade segmenter** (`Saccades`): `GetSaccadesOfGazesAndFixationGazes`, which groups
  the valid gazes lying between fixations.
- **Playback cursors** (`Playback`): `draw_gaze`, `draw_fixation` and
  `draw_saccade` sweep a cursor past every ended event and decide what mark to
  draw. Around them sit the cursor initialisation and the frame loop of
  `outputVideo`.
- **Text regions** (`Grid`, `FloodFill`, `TextBoxes`, `Highlight`):
  - `flood_fill`: a breadth-first search with an explicit queue, a bounding box and a
    stamp of the box interior.
  - `is_in_box`.
  - `get_text_boxes`: a frame-change trigger, a column-major scan and a modal-height filter.
  - `highlight_frame`: a 50/50 blend of the boxes that contain the fixation.
- **Database helpers** (`TraceDb`, `Labels`): `_verify`, the "name - id" labels
  of `GetSessions` / `GetFixationRuns` and their parse in the selection
  handlers, and the arithmetic of `GetSessionTimeLength`.

Python exceptions are modelled as `Err` values of `Wrappers.Result` carrying a
`PyValues.PyError`. Grids and frames are immutable `seq<seq<_>>` indexed
`[row][col]`. A position is `Pos(col, row)`: tuple component 0 of
`flood_fill`/`is_in_box` is the column (the source's `Y_`), component 1 the row
(`X_`, the first numpy index). Timestamps are `real`.

Behaviour of the code worth knowing when reading the model:

- The modal-height band is strict (`mode/2 < h < 1.5*mode`): a box exactly at
  either bound is dropped.
- Advancing a cursor past the end of its stream inside the skip loop raises
  IndexError (`Step.IndexFault`). A draw call returns -1 only when the cursor
  was already past the end before the loop.
- A coordinate that is NULL or infinite is not skipped. Only ValueError is caught,
  so TypeError and OverflowError escape.
- Each sub-frame draws fixation, then saccade, then gaze.
- The playback loop has no rolling windows, transparency, growing fixation
  radii or per-frame text-region tracking, so none are modelled.

## Model

| member | source | states |
|---|---|---|
| `PyValues.IntOf` | EyeDataTypes.py:10 | `int(v)` succeeds exactly on ints, floats and decimal text (surrounding whitespace ignored). It raises ValueError exactly on NaN and unparsable text, and otherwise OverflowError or TypeError. A float truncates toward zero. |
| `PyValues.ParseIntIgnoresPadding` | Visualization.py:143 | `int()` of `str(i)` with whitespace on either side gives `i`, so a label piece such as `"3 "` parses. |
| `PyValues.Decimal` | iTraceDB.py:33 | `str(i)` contains no space and parses back to `i`. |
| `EyeData.GazeOf` | EyeDataTypes.py:2-3 | Unpacking succeeds iff the row has 22 values; otherwise it is an unpack error naming 22 and the length. event_time is field 0, system_time field 5, x field 6, y field 7. The record re-serialises to the same row. |
| `EyeData.FixationOf` | EyeDataTypes.py:17-18 | Unpacking succeeds iff the row has 15 values. fixation_id is field 0, start event time 2, x 4, y 5, duration 14. The record re-serialises to the row. |
| `EyeData.GazeRowRoundTrip` | EyeDataTypes.py:3 | Unpacking a gaze's own row gives the gaze back. |
| `EyeData.FixationRowRoundTrip` | EyeDataTypes.py:18 | Unpacking a fixation's own row gives the fixation back. |
| `EyeData.IsNaN` | EyeDataTypes.py:8-13 | False iff both `int(x)` and `int(y)` succeed. True iff the first failing conversion (x before y) raises ValueError. Any other failure escapes, and it is never ValueError. |
| `EyeData.TextReadsOnlyCoordinates` | EyeDataTypes.py:5-6 | `__str__` of a gaze (and of a fixation, lines 20-21) depends only on x and y. |
| `WindowsTime.ConvertWindowsTime` | Visualization.py:12-13 | The conversion equals ticks/10^4 − 11644473600000 ms. |
| `WindowsTime.UnixToWindows` | Visualization.py:12-13 | The inverse conversion: ms·10^4 + 116444736000000000 ticks. |
| `WindowsTime.ConvertRoundTrip` | Visualization.py:12-13 | The two conversions are mutually inverse. |
| `WindowsTime.ConvertStrictlyIncreasing` | Visualization.py:12-13 | t1 < t2 iff convert(t1) < convert(t2). |
| `WindowsTime.ConvertUnixEpoch` | Visualization.py:12-13 | The Unix epoch in ticks converts to 0 ms. |
| `Saccades.SegmentFrom` | Visualization.py:22-36 | The loop succeeds iff no non-member gaze's `isNaN` raises, and an error comes from such a gaze. Closed saccades are non-empty. Flattened, they are the saccades already closed, then the open one, then the kept gazes in order. There are at most one more saccades than member gazes. |
| `Saccades.SegmentPartitions` | Visualization.py:25-34 | No saccade is empty. Concatenated, the saccades are exactly the non-member, non-NaN gazes in input order. |
| `Saccades.SegmentCountBound` | Visualization.py:26-34 | At most (number of member gazes) + 1 saccades. |
| `Saccades.SegmentIsRuns` | Visualization.py:16-35 | When no validity test raises, the segmenter returns exactly the reference segmentation `Runs`. `Runs` cuts the gazes at every fixation member, keeps each block's valid gazes, and drops blocks left empty. |
| `Saccades.SegmentFromIsRuns` | Visualization.py:25-34 | From any point of the loop, with an open saccade and the closed ones, the loop appends the reference blocks that follow to the closed saccades; the open one heads the first block. |
| `Saccades.MemberSplitsExample` | Visualization.py:26-29 | A fixation member between two valid gazes puts them in two separate saccades. |
| `Saccades.SegmentWithoutFixations` | Visualization.py:25-34 | With no member times the result is one saccade of every valid gaze, or none when there are none. |
| `Saccades.SaccadeGazesConvertible` | Visualization.py:31-32 | Every gaze in a saccade converts to int on both axes, is not a fixation member, and comes from the input. |
| `Saccades.DroppingNaNGazeChangesNothing` | Visualization.py:31-32 | Removing a NaN non-member gaze does not change the result: it neither extends nor closes a saccade. |
| `Saccades.NaNGazeDroppedExample` | Visualization.py:25-36 | Gazes at t = 0, 10 (NaN), 20 with no fixations give one saccade of the first and last gaze. |
| `Playback.Sweep` | Visualization.py:315-318 | The skip loop stops at the first event from i on whose end is after t. It raises IndexError iff all of them have ended. |
| `Playback.Advance` | Visualization.py:338-345 | A cursor already past the end gives -1. Otherwise the result k ≥ current is the first event still running at t, and every skipped event ended at or before t. It is an IndexError iff every remaining event has ended. |
| `Playback.CircleAt` | Visualization.py:346-349 | A circle is drawn iff both coordinates convert, at the converted point. A ValueError means no mark. Any other error escapes. |
| `Playback.CircleAgreesWithIsNaN` | Visualization.py:346-349 | The gaze circle is skipped exactly when `isNaN` is true, and raises exactly when `isNaN` raises. |
| `Playback.Points` | Visualization.py:363-364 | A saccade's points convert iff every gaze converts on both axes. There is one point per gaze, in order. |
| `Playback.DrawGaze` | Visualization.py:338-352 | -1 iff current ≥ len. IndexError iff every remaining gaze has system_time ≤ t. Otherwise the sweep stops at the first unended gaze k: if `isNaN(gaze k)` raises, the call raises that same error; otherwise gaze k is shown, with a circle iff it is not NaN. |
| `Playback.DrawFixation` | Visualization.py:311-336 | The same cursor contract with end = convert(start) + duration. At the stop k: if convert(start) ≤ t and a coordinate conversion raises something other than ValueError, that error escapes; otherwise fixation k is shown, with a circle iff convert(start) ≤ t and both coordinates convert. |
| `Playback.DrawSaccade` | Visualization.py:354-367 | The same cursor contract with end = the last gaze's time. At the stop k: if the first gaze's time ≤ t, there are at least two gazes and a point fails to convert, that conversion's error escapes; otherwise saccade k is shown, with lines iff all three conditions hold for convertible points, one point per gaze. |
| `Playback.SegmentedSaccadesDrawCleanly` | Visualization.py:362-364 | On saccades from the segmenter, `draw_saccade` raises nothing but the IndexError of its sweep. |
| `Playback.InitCursorsAsWritten` | Visualization.py:272-274 | As written, initialisation succeeds only when both fixations and saccades are present. Otherwise it raises TypeError. |
| `Playback.InitCrashesWithoutFixationRun` | Visualization.py:273 | With no fixation run selected, initialisation raises TypeError. |
| `Playback.InitCursors` | Visualization.py:272-274 | Gaze starts at 0. Fixation and saccade cursors are -1 iff their stream is absent or empty, and 0 otherwise. |
| `Playback.AbsentStreamNeverDrawn` | Visualization.py:290-294 | From the corrected initialisation, a stream that was never loaded stays finished for the whole loop. |
| `Playback.SweepCursor` | Visualization.py:290-297 | One cursor's update never moves back, and -1 stays -1. |
| `Playback.Tick` | Visualization.py:286-297 | One sub-frame updates each cursor exactly as its own sweep does. It succeeds iff no draw on a live cursor raises. Otherwise it raises the first such error, in the order fixation, saccade, gaze. |
| `Playback.RunNeverMovesBack` | Visualization.py:278-302 | Over the whole loop each cursor only moves forward, and once -1 it stays -1. |
| `Playback.RunIsThreeSweeps` | Visualization.py:286-297 | The loop's cursors are those of three independent per-stream sweeps. |
| `Playback.SweepSkips` | Visualization.py:342-345 | Starting the skip loop at an already-ended event changes nothing. |
| `Playback.SweepCursorComposes` | Visualization.py:338-345 | Sweeping to t1 then to a later t2 is one sweep to t2, faults included. |
| `Playback.RunStreamIsOneSweep` | Visualization.py:278-302 | Over non-decreasing timestamps, frame-by-frame sweeping ends where one sweep to the last timestamp ends. |
| `Grid.Paint` | TextDetector.py:21 | Writing one cell changes that cell and nothing else. |
| `Grid.CornersInBox` | TextDetector.py:51-56 | `is_in_box` is inclusive: both corners of a box are in it. |
| `Grid.Neighbours` | TextDetector.py:23-34 | The enqueued neighbours are exactly the in-bounds 4-adjacent positions. |
| `Grid.PaintLowersCount` | TextDetector.py:19-21 | Consuming a 255 cell lowers the number of 255 cells by one. This is the loop's termination measure. |
| `FloodFill.SkipStep` | TextDetector.py:15-19 | Popping a cell that is not 255 keeps the search invariant. |
| `FloodFill.PaintStep` | TextDetector.py:19-34 | Consuming a 255 cell and enqueueing its neighbours keeps the search invariant. |
| `FloodFill.Consume` | TextDetector.py:11-34 | Only recorded cells change, each from 255 to 128. No recorded cell keeps a 255 neighbour. Every recorded cell is the start or 4-adjacent to an earlier recorded cell, so the recorded cells form the start's 4-connected component of 255 cells. A 255 start becomes 128, and any other start leaves the grid untouched. |
| `FloodFill.BoundingBox` | TextDetector.py:36-44 | min ≤ max on both axes, corners in bounds, and the box contains the start and every recorded cell. Each corner coordinate is that of the start or of a recorded cell, so the box is the tightest one. |
| `FloodFill.Stamp` | TextDetector.py:45-47 | Exactly the half-open interior [min, max) becomes 128. |
| `FloodFill.Fill` | TextDetector.py:10-49 | Only 128 is written. A 255 start becomes 128 and is the first recorded cell. Recorded cells were 255, are 128 and lie in the box. Every changed cell was recorded or lies in the interior. The interior is 128. In the frame as it was before the call, every 255 neighbour of a recorded cell is recorded, so the fill does not stop short of the component. Recorded cells are chained to the start by adjacency, and the box is the tightest around the start and the recorded cells. |
| `FloodFill.FillComponent` | TextDetector.py:11-34 | When only recorded cells changed and no recorded cell keeps a 255 neighbour afterwards, every neighbour that was 255 before the search is recorded. |
| `TextBoxes.Invert` | TextDetector.py:61-62 | `255 - frame`: same shape, every sample inverted. |
| `TextBoxes.Recompute` | TextDetector.py:61-66 | An empty frame divides by zero. Otherwise it recomputes iff more than 5% of the samples differ from the baseline, that is 20·changed > size. The baseline is the previous frame, or the inverse of the current one. |
| `TextBoxes.FirstFrameAlwaysRecomputes` | TextDetector.py:61-66 | With no previous frame every sample differs from its inverse, so a non-empty frame always recomputes. |
| `TextBoxes.SameFrameNeverRecomputes` | TextDetector.py:63-66 | An unchanged frame never recomputes. |
| `TextBoxes.Scan` | TextDetector.py:83-88 | No 255 cell remains and only 128 is written. Boxes are found iff the grid had a 255 cell. Each box lies in the grid and is the tight bounding box of its fill's cells. Those cells are 255 in the grid, start at the fill's seed, and are each adjacent to an earlier one. No cell is recorded by two fills, and none lies in an earlier box's interior. Every 255 neighbour of a fill's cell was recorded by that fill or claimed earlier, by an earlier fill or an earlier box's interior. Each seed is unclaimed when its fill starts, and every 255 cell before it in column-major order is already claimed. Every cell that was 255 is claimed and lies in some box. |
| `TextBoxes.ScanDetermined` | TextDetector.py:83-88 | Two box lists that both meet `Scan`'s decomposition contract on the same grid are equal, with the same seeds. So the contract admits exactly one box list: the one the column-major scan with flood fill and interior stamping produces. |
| `TextBoxes.Occurrences` | TextDetector.py:89-95 | A height's count is positive iff it occurs. |
| `TextBoxes.ModeHeight` | TextDetector.py:89-96 | The mode occurs, no height occurs more often, and ties go to the height seen first. |
| `TextBoxes.KeepInBand` | TextDetector.py:97-102 | The kept boxes form an in-order subsequence, all with mode/2 < h < 1.5·mode. Every detected box in that band is kept as often as it occurs; out-of-band boxes never are. |
| `TextBoxes.ModalBoxesKept` | TextDetector.py:96-101 | For mode > 0 every box of the modal height is kept. For mode ≤ 0 none is. |
| `TextBoxes.GetTextBoxes` | TextDetector.py:60-103 | An empty frame raises ZeroDivisionError. If at most 5% of the samples changed (20·changed ≤ size), the input boxes are returned unchanged. Above 5% with no 255 cell, it raises ValueError. Otherwise the detected boxes satisfy the same decomposition contract as `TextBoxes.Scan`, so by `TextBoxes.ScanDetermined` they are the scan's boxes. The mode is the most frequent height, ties going to the height seen first. The result keeps exactly the in-band detected boxes, with multiplicity and in order. |
| `Highlight.AtLeast` | TextDetector.py:56 | `v >= k`: numeric compare, NaN false, infinities by sign, text and NULL raise TypeError. |
| `Highlight.AtMost` | TextDetector.py:56 | `v <= k`, likewise. |
| `Highlight.InBox` | TextDetector.py:51-56 | On numeric coordinates it is the inclusive test. A NaN coordinate never tests inside. Only TypeError escapes, and a non-numeric x always raises. |
| `Highlight.MissingYRaisesOnlyInColumns` | TextDetector.py:56 | A NULL or text y raises only when x lies within the box's columns (short-circuit). |
| `Highlight.Blend` | TextDetector.py:111-113 | The stored channel is ⌊(p + c)/2⌋ and stays in 0..255. |
| `Highlight.BlendPixel` | TextDetector.py:111-114 | A blended pixel is a valid colour. |
| `Highlight.BlendTimes` | TextDetector.py:105-114 | Repeated blending keeps a valid colour. |
| `Highlight.BlendHalvesGap` | TextDetector.py:111-113 | A blend at least halves the distance to the colour, stays between pixel and colour, and fixes the colour itself. |
| `Highlight.BlendTimesBetween` | TextDetector.py:105-114 | Any number of blends stays between the pixel and the colour, channel by channel. |
| `Highlight.BlendBox` | TextDetector.py:110-114 | Exactly the half-open interior of the box is blended once. |
| `Highlight.HighlightBox` | TextDetector.py:106-114 | One box iteration raises iff the box test raises (always TypeError). Otherwise the frame highlighted by the earlier boxes becomes the frame highlighted by one more. |
| `Highlight.HighlightFrame` | TextDetector.py:105-115 | It raises (TypeError) iff some box's test raises. Otherwise each pixel is blended once per box that contains the fixation and covers the pixel, so overlaps blend repeatedly. |
| `Highlight.UncoveredPixelKept` | TextDetector.py:105-115 | A pixel outside every box keeps its value. |
| `Labels.FindSep` | Visualization.py:143 | The leftmost occurrence of " - ", or none. |
| `Labels.Split` | Visualization.py:143 | `split(" - ")` always yields at least one piece. |
| `Labels.ParseLabelId` | Visualization.py:143 | `int(label.split(" - ")[1])`: IndexError without a separator, ValueError when the second piece is not an integer. |
| `Labels.ParseLabelIdOfCleanName` | Visualization.py:206 | When the name has no " - " and does not end in " -", the parse as written recovers the id. |
| `Labels.SeparatorInNameMisparses` | Visualization.py:216 | The session "a - 3" with id 7 parses as id 3. |
| `Labels.FindLastSep` | Visualization.py:143 | The rightmost occurrence of " - ", or none. |
| `Labels.ParseLabelIdLast` | Visualization.py:143 | The corrected parse reads the piece after the last separator, with the same errors. |
| `Labels.ParseLabelIdLastRoundTrip` | iTraceDB.py:33 | The corrected parse recovers the id for every name. |
| `Labels.ParsesAgreeOnCleanNames` | Visualization.py:206 | On clean names both parses agree. |
| `Labels.RowLabel` | iTraceDB.py:33 | The label is `row[col] + " - " + str(row[0])`. A short row raises IndexError and a non-text name TypeError. |
| `Labels.Listing` | iTraceDB.py:29-42 | The listing succeeds iff every row yields a label. It then gives one label per row, in order. |
| `Labels.ListingFailsAtFirstBadRow` | iTraceDB.py:32-33 | A failed listing reports the error of its first failing row. |
| `Labels.ListingParsesBack` | iTraceDB.py:37-42 | Every listed label parses back to its row's id, with the corrected parse. |
| `TraceDb.Verify` | iTraceDB.py:20-26 | It accepts iff there are exactly 12 tables, each an iTrace table. Otherwise it raises IDBDoesNotMatch. |
| `TraceDb.IdbTablesDistinct` | iTraceDB.py:3 | The twelve expected names are distinct. |
| `TraceDb.VerifyAcceptsExactlyTheIdbSet` | iTraceDB.py:20-26 | For distinct names, it accepts iff the table set equals the iTrace set. |
| `TraceDb.Max` | iTraceDB.py:47 | `MAX(system_time)` is an element and bounds all from above. |
| `TraceDb.Min` | iTraceDB.py:46 | `MIN(system_time)` is an element and bounds all from below. |
| `TraceDb.SessionTimeLength` | iTraceDB.py:45-48 | A session without gazes raises TypeError. Otherwise the result is ≥ 0 and ·1000 equals the distance from the earliest to the latest time. |
| `TraceDb.SessionTimeLengthFacts` | iTraceDB.py:45-48 | A single gaze gives 0. Adding a gaze never shortens a session. |
| `TraceDb.SessionTimeLengthOrderFree` | iTraceDB.py:45-48 | The length depends only on the multiset of times, not on their order. |

## Left out

- Qt widgets, dialogs and click handlers, and `colorPickerClicked`, whose body is missing from the file.
- OpenCV video reading and writing, and the pixels `cv2.circle` / `cv2.line` draw. The model keeps which event is selected and what mark is drawn.
- The OpenCV preprocessing of `get_text_boxes` (invert, grey, darken, Otsu threshold, dilate). The binarised, dilated grid is an input.
- All SQL. Query results are inputs: table names, listing rows, gaze system times, and the set of fixation-member system times. The database lookups of member gazes (Visualization.py:18-21, 323-328) are not modelled, nor is drawing a fixation's member gazes.
- Float rounding: timestamps, the trigger fraction and blends are exact reals or integers. Sub-frame stamps are inputs, not accumulated by `stamp += step`.
- `__HOLDER__` (dead code), `doSessionVideoTimesMatch`, `GetSessionStartTime` and `GetAllFixationGazes` (pure queries).
- `PyValues.IntOf`: text is stripped of ASCII whitespace only, then must be an optional sign and decimal digits. Python's `int()` also strips Unicode whitespace, allows `_` separators, and accepts non-ASCII decimal digits (`int("٣") == 3`). `Value` also has no BLOB/bytes kind, so the model has no case for a BLOB column.
- Python's cross-kind equality (`1 == 1.0`) when looking up member times. Membership is equality of the stored values.
- `Playback.DrawGaze`: requires numeric system times (the schema's INTEGER columns). A NULL time would make the comparison raise TypeError. The same applies to `Playback.DrawFixation` (start time and duration) and `Playback.DrawSaccade`.
- `Playback.CircleAt`: any integer counts as a drawable coordinate. `cv2.circle` and `cv2.line` raise (OverflowError, or cv2.error) for a coordinate outside the C `int` range. That error is not a `ValueError`, so the source would not swallow it. The model has no such bound, and `Playback.Points` inherits it.
- `Labels.Listing`: requires the id column to be an int, as an INTEGER PRIMARY KEY always is. Python's `str()` of other values is not modelled.
- `TraceDb.SessionTimeLength`: takes the non-NULL system times as ints. `MIN`/`MAX` ignore NULLs.
- `Highlight.HighlightFrame`: requires the colour channels to be in 0..255 and every selected box's interior to lie in the frame. It also assumes NumPy 1.x promotion for `uint8 * 50`: under NumPy 2 rules the product wraps modulo 256. The exception path returns the error without the partially highlighted frame.
- `TextBoxes.GetTextBoxes`: the grid the scan consumes is not returned. The source discards it too.

## Findings

| source | as written | input that shows it | evidently intended | confidence | as-written member | corrected member |
|---|---|---|---|---|---|---|
| Visualization.py:143 | The id is read from `label.split(" - ")[1]`, the piece after the FIRST separator (also at lines 206 and 216). | A session named "a - 3" with id 7 is listed as "a - 3 - 7" and selected as session 3. A name ending in " -" raises ValueError. | Read the id after the last separator (`rsplit`), which recovers it for every name. | not executed | `Labels.ParseLabelId`, `Labels.SeparatorInNameMisparses` | `Labels.ParseLabelIdLast`, `Labels.ParseLabelIdLastRoundTrip` |
| Visualization.py:273-274 | Cursor initialisation calls `len(fixations)` and `len(saccades)`, which are `None` when no fixation run is selected or the saccade box is unchecked (lines 212-233). | `outputVideo(gazes, fixations=None, saccades=None)` raises TypeError before the first frame. The later `!= -1` guards show absent streams were meant to be skipped. | Treat an absent stream as empty (cursor -1). | not executed | `Playback.InitCursorsAsWritten`, `Playback.InitCrashesWithoutFixationRun` | `Playback.InitCursors`, `Playback.AbsentStreamNeverDrawn` |
