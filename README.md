# Blink detector of the face-recognition demo, modelled in Dafny

The demo streams camera frames through a face-landmark model and watches
for a blink; a blink then triggers a face comparison. This project models
the decision logic of that loop:

- `Geometry` (`geometry.dfy`): the `distance` helper, the Euclidean distance
  between two keypoints, with the host's `Math.sqrt` as a parameter.
- `KeypointUtils` (`keypoint_utils.dfy`): `getKeypointsByContour`, which
  projects the frame's keypoint array through the model's fixed contour
  index table. It also covers the eight accepted contour names.
- `EyeHistory` (`eye_history.dfy`): the per-eye gap history. It is
  newest-first, holds at most ten entries, and is seeded with `[0]`. The
  module also has its mean, which is computed with a left fold as `reduce`
  does.
- `BlinkDetector` (`blink_detector.dfy`): `processPrediction`.
  - It rejects frames with no face or with several faces.
  - It splits each eye contour into halves with `floor`/`ceil`, picks the
    middle point of each half, and measures the eye gap between them.
  - It compares the gap with the mean of the history as it was before
    this frame.
  - The frame is closed when both eyes dropped by more than 5.
  - It reports a blink only on the transition into closed.
  - It then pushes the gaps and keeps the new state.
  - `Step` is the specification on values. The class `Detector` holds the
    two histories and the retained eye state as fields, and its method
    `ProcessPrediction` updates them in place. That method is proved to
    agree with `Step`.
- `BlinkRuns` (`blink_runs.dfy`): `Step` folded over a run of frames. For
  every run it proves edge triggering (blinks need reopenings) and that
  each history is the window of the ten newest processed gaps.

A frame whose eye contour names a keypoint beyond the keypoint array, or
whose eye contour has fewer than two points, raises an error in the
source. For the first, `pt.x` is read on `undefined`. For the second,
`distance` reads `a[0]` of a missing point. Either error is raised before
any callback or state write, and the render loop's `try` swallows it. The
model reports such a frame as the event `Fault` and leaves the state
unchanged.

The code seeds each history with the single value `0`
(`src/components/FaceApp.tsx:104-107`), not with the first reading. The
model follows the code, so on the first frame the mean is `0` and the
frame cannot close (`FirstFrameStaysOpen`).

## Model

| member | source | states |
|---|---|---|
| Geometry.SquaredDistance | src/components/FaceApp.tsx:67-68 | the sum of squared coordinate differences is never negative |
| Geometry.Distance | src/components/FaceApp.tsx:67-68 | for an exact square root the distance is non-negative and its square is the squared coordinate difference sum |
| Geometry.DistanceSymmetric | src/components/FaceApp.tsx:67-68 | `distance(a, b) == distance(b, a)` for any square-root function |
| Geometry.DistanceToSelf | src/components/FaceApp.tsx:67-68 | a point is at distance 0 from itself |
| KeypointUtils.ParseContourName | src/utils/keypoint-utils.ts:4 | a name is accepted only if it spells one of the eight contour names |
| KeypointUtils.ParseNameText | src/utils/keypoint-utils.ts:4 | each of the eight contour names is accepted and read back as itself |
| KeypointUtils.Project | src/utils/keypoint-utils.ts:9 | `indices.map(idx => keypoints[idx])` has one entry per index, and entry i is `keypoints[indices[i]]` |
| KeypointUtils.GetKeypointsByContour | src/utils/keypoint-utils.ts:8-10 | the result's length equals the table entry's length, and entry i is `keypoints[INDICES[name][i]]`; it requires every table index to be below the keypoint count |
| KeypointUtils.ProjectAppend | src/utils/keypoint-utils.ts:9 | projecting concatenated index lists concatenates the projections, so table order is kept |
| KeypointUtils.GetKeypointsLocal | src/utils/keypoint-utils.ts:6-10 | with the fixed table, the result depends only on the keypoints the entry names, so equal inputs give equal results |
| EyeHistory.SumBounds | src/components/FaceApp.tsx:155-157 | a sum of entries between lo and hi lies between `len * lo` and `len * hi` |
| EyeHistory.MeanBounds | src/components/FaceApp.tsx:155-157 | the average gap lies between any lower and upper bound of the history |
| EyeHistory.MeanOfConstant | src/components/FaceApp.tsx:155-157 | a history of equal gaps c has average c (e.g. `[10,10,10]` averages 10) |
| EyeHistory.AverageGap | src/components/FaceApp.tsx:155-157 | the `reduce` fold from the first entry, divided by the length, is the mean of all entries present |
| EyeHistory.Take | src/components/FaceApp.tsx:171-172 | `slice(0, n)` keeps min(n, len) entries and is a prefix |
| EyeHistory.TakeAppendTake | src/components/FaceApp.tsx:171-172 | truncating an inner list to n and then the whole list to n equals truncating once |
| EyeHistory.Push | src/components/FaceApp.tsx:171-172 | the new history is the newest ten of `[gap] + old`, has 1 to 10 entries, starts with the gap, and continues with the old history cut to nine |
| BlinkDetector.HalvesSplit | src/components/FaceApp.tsx:127-142 | both halves have floor(n/2) points; an even contour is the two halves joined, and an odd one has its midpoint between them, in neither half |
| BlinkDetector.EyeMarkers | src/components/FaceApp.tsx:144-150 | the two middle points exist exactly when the contour has at least 2 points |
| BlinkDetector.MarkerPositions | src/components/FaceApp.tsx:127-150 | for n >= 2 the markers are at floor(n/4), inside the lower half, and at ceil(n/2)+floor(n/4), inside the upper half, both in range |
| BlinkDetector.EyeGap | src/components/FaceApp.tsx:144-153 | an eye gap exists exactly for contours of at least 2 points, and it is non-negative |
| BlinkDetector.FaceGaps | src/components/FaceApp.tsx:123-153 | both gaps exist exactly when both eye contours are in range and have at least 2 points; they are non-negative |
| BlinkDetector.AllExceed | src/components/FaceApp.tsx:111 | `diffs.every(e => e > 5)` holds exactly when every diff exceeds 5 |
| BlinkDetector.FrameState | src/components/FaceApp.tsx:162-164 | the frame is closed exactly when both diffs exceed 5 |
| BlinkDetector.Initial | src/components/FaceApp.tsx:104-108 | the start state `[0]`, `[0]`, open has bounded histories |
| BlinkDetector.Accepted | src/components/FaceApp.tsx:113-121 | only a frame with exactly one face is processed |
| BlinkDetector.Step | src/components/FaceApp.tsx:110-174 | every call keeps both histories between 1 and 10 entries |
| BlinkDetector.MultipleFacesChangeNothing | src/components/FaceApp.tsx:113-116 | with more than one face only the multiple-faces event is given, and histories and state are unchanged |
| BlinkDetector.NoFaceChangesNothing | src/components/FaceApp.tsx:118-121 | with no face only the no-face event is given, and histories and state are unchanged |
| BlinkDetector.FaultChangesNothing | src/components/FaceApp.tsx:123-153 | a single face whose eyes cannot be measured changes nothing and gives no blink |
| BlinkDetector.IgnoredFrameKeepsState | src/components/FaceApp.tsx:113-121 | a frame that is not processed leaves the state unchanged and gives no blink |
| BlinkDetector.HistoryUpdate | src/components/FaceApp.tsx:171-172 | after a processed frame each history has 1 to 10 entries, starts with this frame's gap, and continues with the old history cut to nine |
| BlinkDetector.ClosedRule | src/components/FaceApp.tsx:155-164 | the new state is closed exactly when both gaps are more than 5 below the mean of the history before this frame |
| BlinkDetector.BlinkIffEdge | src/components/FaceApp.tsx:166-169 | a blink fires exactly when a processed frame is closed and the retained state was not, and it carries the face's box |
| BlinkDetector.NoBlinkWhileClosed | src/components/FaceApp.tsx:166-169 | after a closed state the next frame gives no blink, so two consecutive closed frames fire at most one |
| BlinkDetector.LowHistoryStaysOpen | src/components/FaceApp.tsx:155-166 | if a history's entries are all at most 5, no frame closes and no blink fires |
| BlinkDetector.FirstFrameStaysOpen | src/components/FaceApp.tsx:104-164 | on the first frame after start-up the state stays open and no blink fires |
| BlinkDetector.Detector.constructor | src/components/FaceApp.tsx:104-108 | the detector starts with histories `[0]`, `[0]` and state open |
| BlinkDetector.Detector.ProcessPrediction | src/components/FaceApp.tsx:110-174 | the in-place update gives the new state and the event of `Step`; rejected frames change nothing; a blink means open turned to closed |
| BlinkRuns.Final | src/components/FaceApp.tsx:110-174 | after any number of frames both histories hold between 1 and 10 entries |
| BlinkRuns.NewestFirst | src/components/FaceApp.tsx:171-172 | the newest-first list of one eye's gaps has one entry per processed frame |
| BlinkRuns.BlinksNeedReopening | src/components/FaceApp.tsx:166-173 | over any run, blinks are at most reopenings plus one, or at most reopenings when starting closed |
| BlinkRuns.HistoryWindow | src/components/FaceApp.tsx:171-172 | after any run each history is the ten newest of (the processed gaps newest first, then the starting history) |
| BlinkRuns.HistoryFromStart | src/components/FaceApp.tsx:104-172 | from start-up, each history is the run's ten newest processed gaps padded by the seed 0 |

## Left out

- Face matching (`captureFace`, `normalize` in `src/App.tsx`) is not part of this model. It does TensorFlow tensor arithmetic over an opaque embedding model, plus canvas cropping and mirroring. Its comparison treats a distance at or above 0.7 as a match, which looks inverted for a distance.
- The render loop, camera setup and drawing code (`renderPrediction`, `setUp`, `setupCamera`, `drawPath`, the canvas effects) are left out. They are browser I/O, frame scheduling and canvas side effects. Only their `try` that swallows a failed frame is reflected, as the event `Fault`.
- The delayed, fire-and-forget match call after a blink is left out, because it is asynchronous timing.
- `src/utils/ModelContext.tsx`, `src/index.tsx`, `src/utils/constants.ts` and `src/utils/device.ts` are left out. They are React plumbing, bootstrapping, configuration values and user-agent checks.
- The contents of the library's contour index table are not modelled. `Env.indices` is an arbitrary total map from contour name to positions, and it is fixed for the detector's lifetime.
- `Math.sqrt` is a parameter. Properties that need it assume an exact real square root with `sqrt(0) = 0` (`IsSquareRoot`).
- Floating-point effects are not modelled. Gaps, means and coordinates are exact reals, so there is no rounding, no `NaN` and no infinity, and the fold order of the sum does not matter.
- Callbacks are modelled as the returned event. Whether a handler is registered (`options.onBlink && …`) and what the handler does are out of scope.
- Keypoints are their `x` and `y` coordinates. The optional `z` and `name` fields are unused by the detector and not modelled.
- The history and state live in local variables of the React component body. How React re-renders create them again is not modelled: `Detector` is one long-lived object.
- KeypointUtils.GetKeypointsByContour: it requires every table index to be within the keypoint array, because the source does not check it. The detector models the out-of-range case separately, as `Fault`.
