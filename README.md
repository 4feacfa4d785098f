# Pose-overlay trail: a Dafny model of sketch.js

The sketch overlays pose-estimation results on a webcam feed and leaves a fading
trail behind them. This project models its temporal and geometric core:

- **History buffer.** Each pose callback stores the results as `poses`. It then
  pushes `{poses, timestamp}` onto `poseHistory` and keeps only the entries at
  most 2000 ms old.
- **Layout.** Each tick of `draw` decides the orientation. Portrait means the
  window is strictly taller than wide. `draw` then assigns `videoWidth` and
  `videoHeight`. Landscape letterboxes the video and centres it. Portrait uses
  its own fit rule, in which the height is the width times the video aspect.
- **Coordinate mapping.** p5's `map` is the linear remap
  `start2 + (v - start1) * (stop2 - start2) / (stop1 - start1)`.
  - Landscape remaps each axis into the letterbox rectangle.
  - Portrait first swaps the axes (`rotatedX = y`, `rotatedY = video.width - x`).
    It then remaps `rotatedX` over `[0, video.width]` around half the canvas
    height, and `rotatedY` over `[0, video.height]` around half the canvas width.
    The code does exactly this, and so does the model.
- **Draw passes.** The keypoint pass and the skeleton pass each loop over
  history, poses and keypoints or edges. They produce abstract draw commands:
  - One mark for each keypoint whose score is strictly above the threshold. The
    part name picks it. An eye, nose or ear keypoint gives
    `Glyph(kind, at, age)`, a call of `drawEye`, `drawNose` or `drawEar`, which
    receive the age factor. Any other part gives `Dot(at)`, the red 5-pixel
    ellipse, which takes no age factor and does not fade.
  - `Line(from, to, age, poseIndex)` for every skeleton edge, whatever the
    scores.
  - The age is `ageFactor = (now - timestamp) / 2000`, and it is not clamped.

Layout:

- `geometry.dfy` (module `Geometry`): sizes, the remap, both fits, the two
  transforms and their mappings.
- `history.dfy` (module `History`): the pose data, the window, the age factor,
  and the filter with its lemmas.
- `render.dfy` (module `Render`): the draw commands, the specification functions
  of the passes, the loop methods proved against them, and the lemmas about
  counts, membership and ages.
- `sketch.dfy` (module `Sketch`): the sketch's global state as class
  `SketchState`, with the pose callback, the camera switch and `draw`.

Time is an integer number of milliseconds and `now` is a parameter. Each
callback and each tick reads the clock once, although the code calls `millis()`
again for every entry. Like `millis()`, the callback times never decrease. The
class invariant `SketchState.Valid` says that, as of the last callback, every
entry is stamped no later than that callback and is at most 2000 ms old. Geometry uses `real`. The video and canvas sizes must be
positive.

The model follows the code where it differs from a cleaner design of the same
overlay:

- `draw` never filters the history. Only a pose callback does. So at a tick with
  no recent callback, entries older than 2000 ms are still drawn, with an age
  factor above 1. `Sketch.StaleEntryStillDrawn` shows such a case.
- The age factor is not clamped.
- Portrait is not a rotate-then-letterbox fit. Its extent has the inverse aspect
  relation, and the rotated mapping centres canvas x on half the canvas *height*.
- In portrait, the overlay does not sit on the drawn frame. The frame is drawn
  with `translate(width / 2, height / 2)` and `rotate(PI / 2)`, a clockwise
  quarter turn about the canvas centre. The keypoint mapping turns the other way:
  video y = 0 lands at x = (height − videoHeight)/2, where the frame puts that row
  at x = (width + videoHeight)/2. The mapping's box is also centred on the swapped
  half-sizes (canvas x around height/2, canvas y around width/2).
- Orientation changes are not debounced.

## Model

| member | source | states |
|---|---|---|
| `Geometry.Remap` | sketch.js:194-195 | p5 `map`: `start1` goes to `start2` and `stop1` goes to `stop2` |
| `Geometry.RemapMonotone` | sketch.js:194-195 | remapping onto a non-reversed range keeps the order of the inputs |
| `Geometry.IsPortrait` | sketch.js:139 | portrait means the window is strictly taller than wide |
| `Geometry.OrientationOfTurnedWindow` | sketch.js:139 | a square window takes the landscape path, and turning any other window on its side switches the path |
| `Geometry.LandscapeFit` | sketch.js:163-172 | `videoWidth == videoHeight * videoAspect`; the rectangle fits the canvas and fills its width or its height; `x, y >= 0`; `2x + videoWidth == width` and `2y + videoHeight == height` |
| `Geometry.PortraitFit` | sketch.js:146-152 | in both branches `videoHeight == videoWidth * videoAspect` (the inverse of landscape) and both are positive; when `width/height > videoAspect`, `videoWidth == width`, otherwise `videoHeight == height` |
| `Geometry.MapLetterbox` | sketch.js:194-195 | video position (0,0) lands on `(x, y)`; `(video.width, video.height)` lands on `(x + videoWidth, y + videoHeight)` |
| `Geometry.LetterboxMonotone` | sketch.js:255-258 | the landscape mapping is monotone in each axis |
| `Geometry.MapRotated` | sketch.js:222-227 | `position.y = 0` gives screen x `(height - videoHeight)/2` and `position.y = video.width` gives `(height + videoHeight)/2`; `position.x = video.width` gives screen y `(width - videoWidth)/2` and `position.x = video.width - video.height` gives `(width + videoWidth)/2` |
| `Geometry.RotatedMonotone` | sketch.js:277-286 | screen x increases with video y, and screen y decreases as video x grows (the quarter turn) |
| `Geometry.MapPoint` | sketch.js:194-195 | keypoints and edge endpoints use the active path's mapping: landscape sends the frame's corners to the rectangle's corners; portrait sends video y = 0 to x = (canvas.h − extent.h)/2 and video x = `video.width` to y = (canvas.w − extent.w)/2 |
| `History.AgeFactor` | sketch.js:188 | `ageFactor >= 0` for past entries; `ageFactor <= 1` exactly when the age is at most 2000 ms |
| `History.AgeFactorMonotone` | sketch.js:215 | for a fixed entry the age factor never decreases as `now` grows |
| `History.Live` | sketch.js:110 | an entry survives the filter at `now` when `now - timestamp <= 2000` |
| `History.Prune` | sketch.js:110 | the filter never grows the history, keeps only entries of the history, and every survivor satisfies `now - timestamp <= 2000` |
| `History.PruneAppend` | sketch.js:110 | filtering a concatenation is the concatenation of the filtered parts, so the filter works entry by entry |
| `History.PruneIdempotent` | sketch.js:110 | filtering again at the same `now` changes nothing |
| `History.PruneMultiplicity` | sketch.js:110 | each live entry keeps all its occurrences and each expired entry keeps none, so no unexpired entry is dropped |
| `History.PruneKeepsOrder` | sketch.js:110 | the result is the subsequence at strictly increasing positions, and those positions are exactly the live entries' (order preserved, filter exact) |
| `History.PushThenPrune` | sketch.js:109-110 | push-then-filter at `now` gives the filtered old history followed by the new entry |
| `Render.KindOf` | sketch.js:196-206 | eye iff `leftEye`/`rightEye`, nose iff `nose`, ear iff `leftEar`/`rightEar`, otherwise the plain dot |
| `Render.Marker` | sketch.js:196-206 | the mark is drawn at the mapped position; it is the red dot iff the part is none of the three features; eye, nose and ear glyphs carry the age factor |
| `Render.HistoryGlyphs` | sketch.js:186-244 | the keypoint pass draws glyphs and dots only, never a line |
| `Render.HistoryLines` | sketch.js:246-293 | the skeleton pass draws lines only |
| `Render.DrawKeypoints` | sketch.js:186-244 | the keypoint pass (landscape and rotated) emits exactly `HistoryGlyphs` of the history at `now` |
| `Render.DrawPosesKeypoints` | sketch.js:189-190 | the loop over one entry's poses emits `PosesGlyphs` with that entry's age factor |
| `Render.DrawKeypointList` | sketch.js:191-207 | the loop over one pose's keypoints emits a mark for each keypoint with `score > confidenceLevel`, at its mapped position: a fading glyph for eyes, nose and ears, the unfaded red dot otherwise |
| `Render.DrawSkeletons` | sketch.js:246-293 | the skeleton pass (landscape and rotated) emits exactly `HistoryLines` of the history at `now` |
| `Render.DrawPosesSkeletons` | sketch.js:249-251 | pose `i` of an entry draws its edges with colour index `i` |
| `Render.DrawEdgeList` | sketch.js:252-261 | one line per edge, both endpoints mapped by the same transform as keypoints |
| `Render.KeypointsGlyphsCount` | sketch.js:193 | a pose yields as many glyphs as it has keypoints scoring strictly above the threshold |
| `Render.PosesGlyphsCount` | sketch.js:189-193 | an entry yields as many glyphs as its poses have confident keypoints |
| `Render.HistoryGlyphsCount` | sketch.js:187-193 | the keypoint pass draws as many glyphs as the whole history has confident keypoints |
| `Render.ThresholdMonotone` | sketch.js:193 | over the same buffer, the number of marks never rises as the threshold rises |
| `Render.PosesThresholdMonotone` | sketch.js:193 | the same count bound for the poses of one entry |
| `Render.ThresholdContainment` | sketch.js:193 | every mark drawn at a threshold is also drawn, unchanged, at any lower threshold |
| `Render.KeypointsGlyphsMembers` | sketch.js:193-206 | a glyph is drawn from a pose iff some keypoint with `score > confidenceLevel` yields it (kind by part name, mapped position; the entry's age factor for eye, nose and ear glyphs, none for the dot) |
| `Render.PosesGlyphsMembers` | sketch.js:189-191 | a glyph of an entry comes from one of its poses, and every pose's glyphs appear |
| `Render.HistoryGlyphsMembers` | sketch.js:187-188 | a glyph of the pass comes from one history entry, at that entry's age factor |
| `Render.HistoryGlyphsExactly` | sketch.js:186-244 | the keypoint pass draws exactly the marks of the confident keypoints of the history's poses, each at its mapped position; every eye, nose or ear glyph carries its entry's age factor |
| `Render.EdgesLinesAt` | sketch.js:252-260 | edge `j` gives line `j`, endpoints A and B mapped exactly as keypoints are |
| `Render.PosesLinesCount` | sketch.js:249-252 | an entry's lines number the total skeleton length of its poses |
| `Render.HistoryLinesCount` | sketch.js:246-263 | the number of lines is the total skeleton length over all history entries, whatever the scores |
| `Render.PosesLinesAged` | sketch.js:248-251 | every line of an entry carries the entry's age factor and a pose index below its pose count |
| `Render.HistoryLinesAged` | sketch.js:267-271 | every line of the pass carries the age factor of some history entry and a valid pose index for it |
| `Render.FreshTrailAges` | sketch.js:188 | drawn at the time of a callback, before any entry expires, every eye, nose or ear glyph and every line has an age factor in [0, 1]; the dot has none |
| `Sketch.CaptureConstraints` | sketch.js:73-93 | facing mode is `user` iff the front camera is selected; the ideal height exceeds the ideal width iff the window is portrait; the ideal size is 720 by 1280 in some order |
| `Sketch.ActiveTransform` | sketch.js:139-178 | portrait iff the transform is the rotated one; the rotated extent has height = width times the video aspect; the letterbox keeps the video aspect and is centred on the canvas |
| `Sketch.SketchState.constructor` | sketch.js:3-11 | empty `poses` and `poseHistory`, back camera, threshold 0.9 |
| `Sketch.SketchState.OnPose` | sketch.js:107-111 | given a clock that does not run backwards, `poses` becomes the results; the history is the filtered old history plus the new entry, which is last; every entry is stamped at most `now` and within 2000 ms of it |
| `Sketch.SketchState.SwitchCamera` | sketch.js:124-127 | the front-camera flag flips, the new constraints ask for the other facing mode, and the history invariant is kept |
| `Sketch.SketchState.Draw` | sketch.js:133-179 | `videoWidth`/`videoHeight` are the portrait or landscape fit by orientation; the commands are the keypoint pass followed by the skeleton pass under that orientation's transform; a tick at the time of the last callback draws every age factor within [0, 1] |
| `Sketch.StaleEntryStillDrawn` | sketch.js:187-188 | with entries at 0 and 500 ms, filtering at 2100 keeps only the second, yet a tick at 2100 with no callback draws both, at age factors 1.05 and 0.8 |

## Left out

- Rendering itself (`background`, `image`, `ellipse`, `line`, `stroke`, `fill`,
  `push`/`translate`/`rotate`/`pop`) is not modelled. Draw commands are
  abstract. The video frame drawn by `image` is not one of them.
- Colour (`getBaseColor`, `lerpColor`) is left out: it is floating-point RGB work
  inside p5. Lines carry the pose index and the age factor that select and fade
  their colour.
- `drawEye`, `drawNose`, `drawEar`, `isVuMeterVisible`, `updateVuMeter`,
  `loadSettings`, `startSpeechRecognition`, the slider and popup handlers and
  `toggleCaptions` are not part of this model. Their bodies are not in
  sketch.js. The glyph kind stands for the first three. The confidence
  threshold changes only in handlers whose bodies are not shown (the slider,
  the popup, `loadSettings`), so the model keeps it as a field and
  `Render.ThresholdMonotone` and `Render.ThresholdContainment` cover other
  values.
- Camera acquisition (`createCapture`, stopping the old tracks, `video.size`,
  DOM appends) and `windowResized` are browser I/O. Of `setupCamera` only the
  constraint choice is modelled.
- Loading the PoseNet model and registering its callback are left out. The
  callback's results are an input of `OnPose`.
- Speech recognition, captions, the Web Audio gain and analyser, and the VU meter
  state are left out: they are audio and DOM glue.
- The clock is a parameter. One `now` stands for every `millis()` call of a
  callback or a tick.
- IEEE floating point is not modelled: no NaN from a zero-sized video, no
  rounding. Geometry is exact `real` arithmetic, under the requirement that the
  video and canvas sizes are positive.
- `History.AgeFactor`: `millis()` can return fractional milliseconds, but
  timestamps are whole milliseconds here.
