# Gesture recognition core — a Dafny model

This project models the per-frame core of `main.py`, a webcam gesture recogniser. In each frame it:

1. reads the face and hand landmarks;
2. derives boolean and counting features from fixed thresholds;
3. runs a table of detection rules that append labels to a `detected` list;
4. picks one winner by scanning the fixed `PRIORITY` list;
5. feeds the winner to a debounce/latch state machine. That machine shows a label only after it has won `FRAME_CONFIRM = 10` frames, and then holds it for `LATCH_DURATION = 2.5` seconds.

Modules follow the stages of the loop:

| file | module | what it holds |
|---|---|---|
| `options.dfy` | `Options` | the `Option` type |
| `gestures.dfy` | `Gestures` | the eight labels, the `PRIORITY` order (`Rank`), the keys of `IMAGES` |
| `features.dfy` | `Features` | landmarks, thresholds, `dist`, the FACE and HANDS blocks |
| `detector.dfy` | `Detector` | the GESTURES rule table and the `detected` list |
| `arbiter.dfy` | `Arbiter` | the PRIORITY scan |
| `latch.dfy` | `Latch` | the LATCH state machine and runs of it over many frames |
| `pipeline.dfy` | `Pipeline` | one loop iteration end to end, and the loop over a sequence of frames |

Where the code differs from what its comments or names suggest, the model follows the code:

- A change of winner does not clear `gesture_buffer`. Only a frame with no winner clears it (lines 160-163). Counts of different labels therefore accumulate side by side. `Latch.AlternatingWinnersLatch` shows that w, v, w, v, … latches w on frame 19, although w never wins two frames in a row.
- A frame without a face leaves the loop body at line 80, before the LATCH block. Such a frame changes nothing, not even an expired latch (`Pipeline.FacelessFrameSkipped`).
- Latch expiry (lines 170-171) does not clear the buffer. The buffer is already empty whenever a label is latched (`Latch.Inv`), so this makes no difference.
- The comment above the shock rule (line 127) says "both hands behind head". The rule fires with two hands and any one palm above the forehead, because `hands_head` is OR-combined across hands (lines 112-113). `Pipeline.OneRaisedPalmApartHands` exhibits such a frame.
- The comment above the Absolute Cinema rule (line 131) says "hands together". The rule fires for any two hands, and `hands_close` (line 97) is never read. `Pipeline.OneRaisedPalmApartHands` gives two hands far apart that detect it, and `Detector.UnusedSignalsIgnored` shows `hands_close` never matters.
- The comment above the thumb rule (line 135) says "double thumbs up". The rule fires only when exactly one hand has its thumb up (`Pipeline.ThumbIffExactlyOne`).
- `hands_count` is the number of hands reported, with no cap of two. The cap `max_num_hands=2` is a setting of the estimator, not of this code.

`dist(a, b) < t` is modelled as `SqDist(a, b) < t * t` over reals. `Features.WithinIffDistBelow` shows this agrees with comparing any non-negative square root.

Landmark lists are subset types:

- `Face`: longer than index 386, the largest face index read.
- `Hand`: longer than index 20, the largest hand index read.

The face mesh and hand estimators always return full lists, so every indexing in the source is in range. No operation needs a precondition on its frame.

## Model

| member | source | states |
|---|---|---|
| Gestures.LabelInjective | main.py:45-54 | The eight labels are pairwise distinct strings, so comparing enumeration values is comparing the source's strings |
| Gestures.Rank | main.py:45-54 | Every label occurs in PRIORITY, at the position Rank gives |
| Gestures.RankOfPosition | main.py:45-54 | PRIORITY lists each label once: indexing then Rank gives back the index |
| Gestures.HasImageIffNotInert | main.py:24-31 | A label is a key of IMAGES exactly when it is neither angry nor devious |
| Features.Within | main.py:34-35 | `dist(a, b) < t`, as a squared distance below `t * t` |
| Features.IsFist | main.py:101-105 | All four non-thumb fingertips (8, 12, 16, 20) within 0.045 of the palm centre (9) |
| Features.FingerOnLips | main.py:107-109 | The index tip within 0.04 of the upper lip (face landmark 13) |
| Features.AboveForehead | main.py:111-113 | The palm centre higher on screen than the forehead (face landmark 10) |
| Features.PalmNearMouth | main.py:115-117 | The palm centre within 0.08 of the upper lip; the caller also requires an open mouth |
| Features.ThumbUp | main.py:119-123 | The thumb tip higher on screen than the index tip |
| Features.WithinIffDistBelow | main.py:34-35 | For a positive threshold, the squared-distance test agrees with `dist(a, b) < t` for the non-negative root `dist` returns |
| Features.ThumbsUpCount | main.py:119-123 | The thumbs-up count is at most the number of hands, and it is zero exactly when no hand has its thumb above its index tip |
| Features.ScanHands | main.py:99-123 | fist, finger_lips and hands_head are each true exactly when some hand passes the test. fist_near_mouth holds exactly when the mouth is open and some palm is near the lips. The count equals ThumbsUpCount |
| Features.ThumbsUpOneIffExactlyOne | main.py:119-123 | thumbs_up_count == 1 exactly when one hand has its thumb up and no other hand does |
| Features.FaceFeatures | main.py:70-123 | hands_count is the number of hands. hands_close holds exactly when there are two hands whose palms are within 0.07. fist, hands_head and finger_lips hold exactly when some hand passes the test. fist_near_mouth holds exactly when the mouth is open and some palm is near the lips. The thumbs count matches ThumbsUpCount |
| Features.Extract | main.py:70-80 | A frame yields features exactly when it has a face |
| Detector.Fires | main.py:127-149 | The six rule conditions: shock needs two hands and hands_head; Absolute Cinema two hands; thumb a thumbs-up count of one; laugh an open mouth; monkey finger_lips; lemme know closed eyes, head up and no hands. angry and devious never fire |
| Detector.AppendIf | main.py:128-129 | One `if …: detected.append(g)`: the result holds exactly the old labels plus g when the condition holds. Appending a label ranked above all present ones keeps priority order |
| Detector.Collect | main.py:127-149 | Evaluating rules in order yields exactly the listed labels whose rule fires. When the rules are in priority order, so is the result |
| Detector.Detect | main.py:127-149 | `detected` contains exactly the labels whose rule fires, in strictly increasing priority rank |
| Detector.UnusedSignalsIgnored | main.py:127-149 | Feature sets that agree on the signals the rules read give the same `detected` list. smile, fist, hands_close and fist_near_mouth are never read |
| Detector.SameFiringSameList | main.py:127-149 | Feature sets on which every rule agrees build the same list from any rule sequence |
| Arbiter.FirstIndex | main.py:153-156 | The scan stops at the first PRIORITY entry in `detected`: no earlier entry is detected, and the stopping entry is. It runs to the end only when nothing matches |
| Arbiter.FullScanFindsDetected | main.py:153-156 | Because PRIORITY lists every label, a non-empty `detected` always stops the scan |
| Arbiter.Arbitrate | main.py:152-156 | The winner is a detected label ranked no lower than any other detected label. There is no winner exactly when `detected` is empty |
| Arbiter.ArbitrateIsLeastRanked | main.py:152-156 | Any detected label of least rank is the winner |
| Arbiter.SameLabelsSameWinner | main.py:152-156 | Order and repetition in `detected` do not change the winner |
| Arbiter.WinnerIsHead | main.py:152-156 | For a list already in priority order, the winner is its first element, or none when it is empty |
| Latch.Count | main.py:161-165 | `gesture_buffer.get(g, 0)` |
| Latch.Inv | main.py:159-171 | The invariant the LATCH block keeps: a latched state has an empty buffer, and every stored count lies strictly between 0 and 10 |
| Latch.Initial | main.py:41-43 | The initial state satisfies the latch invariant |
| Latch.Step | main.py:159-171 | While latched, the winner is ignored and the buffer and start time are kept. The latch is released exactly when more than 2.5 s have passed. Unlatched with no winner, the buffer is emptied. Unlatched with winner W, W latches, with start time `now` and an empty buffer, exactly when its count reaches 10; otherwise only W's count grows, by one. The latched label is the old one or the winner. The invariant is kept |
| Latch.Run | main.py:159-171 | Any sequence of frames keeps the latch invariant |
| Latch.RunAppend | main.py:159-171 | Running one more frame is one more Step |
| Latch.RunConcat | main.py:159-171 | Running two sequences of frames in turn is running their concatenation |
| Latch.ExpiryReleases | main.py:169-171 | Expiry of a latch gives the unlatched state with an empty buffer |
| Latch.HeldWhileLatched | main.py:169-171 | Up to expiry, frames leave a latched state unchanged, whatever their winners |
| Latch.Accumulates | main.py:159-165 | Below the threshold, each frame won by w adds exactly one to w's count and changes no other count and no latch |
| Latch.LatchesOnConfirm | main.py:165-168 | The frame that brings w's count to 10 latches w at that frame's time with an empty buffer |
| Latch.ConfirmFromInit | main.py:159-168 | From the initial state, 10 frames won by w latch w on the 10th, at its time, and not before |
| Latch.InterruptedNeverLatches | main.py:160-163 | A winner interrupted by no-winner frames never latches: the buffer is `{w: 1}` or empty |
| Latch.AlternatingStep | main.py:160-165 | One frame of an alternation between two winners adds one to the count of that frame's winner only |
| Latch.AlternatingWinnersAccumulate | main.py:160-165 | Under alternating winners w, v, w, … both counts grow, because a change of winner clears nothing |
| Latch.AlternatingWinnersLatch | main.py:159-168 | Alternating winners latch w on the 19th frame |
| Latch.ReleaseThenConfirm | main.py:159-171 | A latched label is held until expiry. The expiring frame is spent on the release, and 10 later frames won by w latch w |
| Pipeline.Winner | main.py:127-156 | The winner's rule fires, it has an image, and no firing label outranks it. There is no winner exactly when no rule fires |
| Pipeline.Observe | main.py:66-80 | A frame reaches the LATCH block exactly when it has a face |
| Pipeline.ProcessFrame | main.py:66-171 | One loop iteration: a face-less frame leaves the state unchanged. The reachable-state invariant is kept: the latch invariant holds, and the latched and counted labels all have images |
| Pipeline.Feed | main.py:159-171 | The LATCH block over observations keeps the reachable-state invariant when every winner has an image |
| Pipeline.Present | main.py:79-80 | The ticks kept are exactly those present among the observations |
| Pipeline.RunFrames | main.py:57-171 | The loop over any frames keeps the reachable-state invariant |
| Pipeline.RunFramesStep | main.py:57-171 | The loop over frames processes one more frame exactly as one iteration does |
| Pipeline.FeedIsRun | main.py:79-80 | Feeding observations equals running the state machine on the ticks among them, with face-less frames skipped |
| Pipeline.FramesAreTicks | main.py:79-80 | The loop over frames equals the state machine run over the ticks of the frames with a face |
| Pipeline.PresentOfTicks | main.py:79-80 | When every frame has a face, every observation is kept, in order |
| Pipeline.FacelessFrameSkipped | main.py:79-80 | A face-less frame changes nothing, not even an expired latch |
| Pipeline.DisplayLookupDefined | main.py:174-175 | From the initial state, whatever the frames, the latched label is a key of IMAGES |
| Pipeline.InertLabelsNeverWin | main.py:127-149 | angry and devious never win |
| Pipeline.WinnerIsFirstDetected | main.py:152-156 | The winner is the first element of `detected` |
| Pipeline.ShockOutranksCinema | main.py:127-133 | Whenever shock is detected, Absolute Cinema is detected too, and shock wins |
| Pipeline.LemmeKnowNeedsNoHands | main.py:147-149 | lemme know is detected only when the frame has no hand |
| Pipeline.OneRaisedPalmApartHands | main.py:127-133 | A frame with two hands far apart and only one palm above the forehead detects both shock and Absolute Cinema |
| Pipeline.ThumbIffExactlyOne | main.py:135-137 | thumb is detected exactly when one hand, and only one, has its thumb up |
| Pipeline.UnusedSignalsKeepWinner | main.py:127-156 | smile, fist, hands_close and fist_near_mouth never change the winner |
| Pipeline.ObservationsOfPrefix | main.py:57-80 | The observations of a prefix of the frames are a prefix of the observations |
| Pipeline.FeedConfirm | main.py:159-168 | From the initial state, 10 observed ticks won by w latch w on the 10th and not before |
| Pipeline.SustainedWinnerLatches | main.py:159-168 | From the initial state, 10 frames with a face, each won by w, latch w at the 10th frame's time, and no shorter prefix latches |

## Left out

- Camera capture, colour conversion and the MediaPipe estimators (lines 7-14, 58-64) are outside the model. Landmarks arrive as the `Frame` input. When the camera read fails, the loop stops (lines 59-60); that is not modelled.
- Image loading, resizing and `exit()` on a missing file (lines 17-31) are left out. Only the keys of `IMAGES` are modelled.
- Drawing, `upper()`, `imshow`, and quitting on `q` (lines 173-189) are left out. Only the IMAGES lookup is modelled, and it is proved never to fail.
- The clock (`time.time()`, line 67) becomes the `now` field of each input.
- Floating point is modelled as exact reals. `dist` is compared through its square, and the z coordinate, never read, is dropped.
- A landmark list too short for the indices the source reads would raise IndexError. The estimators never return one, so the `Face` and `Hand` subset types exclude it instead of modelling the error.
- The initial `latch_start = 0` is the real 0.0. It is never read before the first latch sets it.
