# BlindGate alert and frame-pairing logic in Dafny

BlindGate is an assistive camera app. It runs an object detector on camera frames
and announces what it sees by speech. When a depth map is available, it also warns
with a haptic pulse and a spoken "Close object ahead" whenever an object is nearer
than one metre. This project models the two pieces of sequential logic behind that
behaviour and proves properties about them:

- **`ObjectDetector`**, covering four parts:
  - The shaping of recognition results into at most three detections (module `Detections`).
  - The per-label speech debounce held in `lastSpeakTime` and its purge pass, and the `isCurrentlySpeaking` flag with the synthesizer delegate callbacks that clear it (module `AlertPolicy`).
  - The depth-map proximity check (module `Proximity`).
  - The way one detection completion combines these (module `Detector`).
- **`CameraManager`**: the single-slot pairing of the newest video buffer with incoming depth data, and the depth mode chosen at setup (module `FrameSync`).

Everything is a pure function over immutable state. The speech state is a map from
label to the last time it was spoken, plus a boolean. The pairing state is an
optional video buffer, plus a fixed depth-mode flag. Time is real-valued seconds and
is passed in as a parameter. Foundation's `capitalized` is a function parameter.
Recognition results, depth maps, video buffers and depth data are inputs. Speech
and haptics appear as emitted values: the set of labels handed to the synthesizer,
and a sequence of `HapticPulse` / `CloseObjectAhead` alerts.

Behaviours of the code that the model keeps and that are easy to miss:

- The slot holds the newest **video** buffer. Processing in depth mode is triggered
  by the **depth** callback, which pairs that buffer with the arriving depth data.
- The detection list keeps the recognition results' own order. Nothing sorts it by
  confidence.
- The cap of three is applied before unlabelled observations are dropped, so fewer
  than three detections can come out even when more than three pass the filter.
- One video buffer is processed once for every depth frame that arrives while it is
  the newest (`FrameSync.SameBufferProcessedTwice`).
- `speakDetections` never consults `isCurrentlySpeaking`; only the proximity
  warning is gated on it.
- The proximity warning does not raise the flag. Several near objects in one frame
  therefore each queue a warning while speech is idle (`Proximity.AlertCounts`).
- The speech step does not run cleanup when no label is due, so stale entries can
  outlive the six-second window until the next call that speaks something.
- Swift's `Int(_:)` truncates toward zero. A box centre that scales to a value in
  (-1, 0) therefore lands in row or column 0 and is sampled
  (`Proximity.SlightlyNegativeCentreSampled`).

## Model

| member | source | states |
|---|---|---|
| Detections.Passing | BlindGate/ObjectDetector.swift:110 | every kept observation has confidence strictly above 0.6; the result is no longer than the input |
| Detections.PassingMembers | BlindGate/ObjectDetector.swift:110 | an observation survives the filter exactly when it is among the results and its confidence exceeds 0.6 |
| Detections.Take | BlindGate/ObjectDetector.swift:111 | the prefix taken has length min(n, input length) and is a prefix of the input |
| Detections.Detect | BlindGate/ObjectDetector.swift:112-118 | an observation without labels yields nothing; otherwise the detection carries the capitalised identifier and the confidence of the top-ranked label (not the observation's own confidence) and the observation's box |
| Detections.Labelled | BlindGate/ObjectDetector.swift:112-119 | compacting never lengthens the list, and loses nothing when every observation carries a label |
| Detections.LabelledMembers | BlindGate/ObjectDetector.swift:112-119 | each compacted detection is built from a labelled input observation: capitalised first label, that label's confidence, the observation's box |
| Detections.Shape | BlindGate/ObjectDetector.swift:109-119 | the shaped list has at most 3 entries and no more than the observations passing the confidence filter |
| Detections.ShapeProvenance | BlindGate/ObjectDetector.swift:109-119 | every shaped detection comes from a result observation with confidence > 0.6 and at least one label, and carries its capitalised top label and box |
| Detections.ShapeIsPrefixOfLabelledPassing | BlindGate/ObjectDetector.swift:109-119 | result order is kept: the shaped list is a prefix of all labelled, passing observations in result order |
| Detections.ShapeFullWhenLabelled | BlindGate/ObjectDetector.swift:111-113 | when the first three passing observations are all labelled, the list has min(3, number passing) entries |
| Detections.ShapeIsSinglePass | BlindGate/ObjectDetector.swift:109-119 | the filter/prefix/compactMap chain equals a single pass spending one of three slots per passing observation |
| Detections.ShortfallAfterCap | BlindGate/ObjectDetector.swift:111-113 | four passing observations with an unlabelled first give two detections, not three |
| AlertPolicy.Cleanup | BlindGate/ObjectDetector.swift:83-89 | the purge keeps exactly the entries younger than 6.0 s, with their times unchanged |
| AlertPolicy.CleanupComposes | BlindGate/ObjectDetector.swift:83-89 | the purge is idempotent, and a purge at a later time subsumes an earlier one |
| AlertPolicy.Stamp | BlindGate/ObjectDetector.swift:73 | every spoken label maps to the current time; every other entry is kept unchanged |
| AlertPolicy.SpeakDetections | BlindGate/ObjectDetector.swift:43-81 | a label is spoken iff it is detected and has no entry or an entry at least 3.0 s old; with nothing spoken the state is unchanged (no cleanup); otherwise spoken labels map to now, the flag is set, other entries are unchanged or purged exactly when 6.0 s old, and every remaining entry is under 6.0 s old |
| AlertPolicy.IdentifiersMembers | BlindGate/ObjectDetector.swift:47 | `AlertPolicy.Identifiers`, the label set of a detection list, holds exactly the identifiers of its detections |
| AlertPolicy.DueLabels | BlindGate/ObjectDetector.swift:47-55 | the due labels (by `AlertPolicy.Due`) are detected labels; a detected label never spoken is due, and one spoken at t is due exactly when t + 3.0 <= now |
| AlertPolicy.AnnounceEach | BlindGate/ObjectDetector.swift:66-77 | the loop over due labels produces exactly the map `Stamp` describes (each due label stamped with now, other entries kept) and queues exactly one utterance per due label |
| AlertPolicy.SpeechFinished | BlindGate/ObjectDetector.swift:191-193 | the finish callback lowers the speaking flag and leaves the last-speak map unchanged |
| AlertPolicy.SpeechCancelled | BlindGate/ObjectDetector.swift:195-197 | the cancel callback lowers the speaking flag and leaves the last-speak map unchanged |
| AlertPolicy.CompletionClearsFlag | BlindGate/ObjectDetector.swift:190-197 | the finish and cancel callbacks lower the flag, leave the map unchanged and speak nothing |
| AlertPolicy.FlagHeldUntilCompletion | BlindGate/ObjectDetector.swift:75 | once raised, the flag stays raised through any run of detection calls without a finish or cancel callback |
| AlertPolicy.EntryPersistsWithinInterval | BlindGate/ObjectDetector.swift:73-88 | while every call stays within 3.0 s after t1, an entry stamped at or after t1 survives and never drops below t1 |
| AlertPolicy.RepeatSuppressed | BlindGate/ObjectDetector.swift:50-55 | a label spoken at t1 is not spoken by a call at t2 < t1 + 3.0 when every call in between falls in [t1, t1 + 3.0) |
| AlertPolicy.EntryUntouchedUntilSpoken | BlindGate/ObjectDetector.swift:73-88 | an entry holding t1 stays t1 or is purged for as long as its label is not spoken again |
| AlertPolicy.RepeatReleased | BlindGate/ObjectDetector.swift:50-55 | a label spoken at t1 and not spoken since is spoken by any later call at t2 >= t1 + 3.0 that detects it |
| AlertPolicy.KeysAreSeenLabels | BlindGate/ObjectDetector.swift:47-88 | the map only ever holds labels present at the start or detected by some call |
| AlertPolicy.ChairScenario | BlindGate/ObjectDetector.swift:43-81 | "Chair" detected at 0.0, 1.0 and 3.1 s is spoken at 0.0, suppressed at 1.0 and spoken at 3.1 |
| Proximity.TruncateToInt | BlindGate/ObjectDetector.swift:158-159 | the index is the scaled coordinate truncated toward zero |
| Proximity.CentreCell | BlindGate/ObjectDetector.swift:158-159 | the column and row are the box centre scaled by the map's width and height and truncated toward zero, so a non-negative coordinate gives its floor and one in (-1, 0) gives 0 |
| Proximity.SampleAt | BlindGate/ObjectDetector.swift:156-172 | a sample exists iff the truncated centre indices satisfy 0 <= x < width and 0 <= y < height, and it is the grid value at row y, column x |
| Proximity.Samples | BlindGate/ObjectDetector.swift:156-172 | each detection is sampled independently, in order, at its own box centre |
| Proximity.AlertsFor | BlindGate/ObjectDetector.swift:156-186 | the pass emits two alerts per near sample when speech is idle and one while it is in flight, and nothing for far or missing samples (with `Proximity.AlertCounts` giving which alerts) |
| Proximity.ProximityAlerts | BlindGate/ObjectDetector.swift:153-186 | over the detections, one haptic pulse per near detection, one warning per near detection when speech is idle and none while speaking, and only pulses while speaking |
| Proximity.AlertCounts | BlindGate/ObjectDetector.swift:174-183 | each near sample (distance < 1.0) gives exactly one haptic pulse; the warning is issued once per near sample when speech is idle and never while it is in flight |
| Proximity.AlertsForAppend | BlindGate/ObjectDetector.swift:156-186 | detections are processed independently: the alerts of a concatenation are the concatenated alerts |
| Proximity.MissingSampleSkipped | BlindGate/ObjectDetector.swift:161-164 | a missing sample adds no alert, and the samples around it give the same alerts as without it |
| Proximity.SamplesAppend | BlindGate/ObjectDetector.swift:156-164 | a detection whose centre is out of bounds contributes a missing sample in its place |
| Proximity.OutOfBoundsSkipped | BlindGate/ObjectDetector.swift:161-164 | an out-of-bounds detection adds no pulse or speech, and the others are processed as if it were absent |
| Proximity.SpeakingGivesPulsesOnly | BlindGate/ObjectDetector.swift:178 | with speech in flight the pass emits only haptic pulses |
| Proximity.NearBoundary | BlindGate/ObjectDetector.swift:174 | exactly 1.0 m is not near; 0.999 m is near |
| Proximity.FarOutsideHasNoSample | BlindGate/ObjectDetector.swift:158-164 | a box whose centre scales to cell (5000, 5000) on a 640 by 480 map yields no sample |
| Proximity.SlightlyNegativeTruncatesToZero | BlindGate/ObjectDetector.swift:158-159 | a scaled coordinate in (-1, 0) truncates to index 0 |
| Proximity.SlightlyNegativeCentreSampled | BlindGate/ObjectDetector.swift:158-172 | on a non-empty grid, a centre scaling into (-1, 0) on both axes lands in cell (0, 0), passes the bounds check and is sampled there |
| Detector.OnFrame | BlindGate/ObjectDetector.swift:91-140 | a failed recognition changes nothing and outputs nothing; otherwise the output is the shaped list, the spoken labels are exactly its due identifiers, with a depth map there is one pulse per near detection and one warning per near detection when speech is idle (none while speaking), no alerts without depth, map keys only grow by detected labels, and the state changes only when something is spoken |
| Detector.ProximityLeavesStateAlone | BlindGate/ObjectDetector.swift:129-138 | the depth map does not affect the speech state: a frame's state change is exactly the speech step on its shaped detections |
| Detector.WarningPrecedesAnnouncement | BlindGate/ObjectDetector.swift:129-140 | the proximity gate reads the flag before the frame's announcements, so an idle frame can both warn and announce |
| FrameSync.OnVideo | BlindGate/CameraManager.swift:101-108 | a sample without an image buffer changes nothing; otherwise the buffer overwrites the slot; a frame (that buffer, no depth) is processed iff no depth output is configured; the depth mode is unchanged |
| FrameSync.OnDepth | BlindGate/CameraManager.swift:112-115 | the state is unchanged; a frame is processed iff a buffer is stored, pairing the stored buffer with this depth data |
| FrameSync.Step | BlindGate/CameraManager.swift:101-115 | a video callback stores its buffer and processes it alone iff depth mode is off; a depth callback keeps the state and pairs the stored buffer with its data iff one is stored; neither changes the depth mode |
| FrameSync.Run | BlindGate/CameraManager.swift:101-115 | a run of callbacks keeps the depth mode and processes at most one frame per callback |
| FrameSync.RunSnoc | BlindGate/CameraManager.swift:101-115 | one more callback appends exactly that callback's frame to a run |
| FrameSync.RunMatchesExpected | BlindGate/CameraManager.swift:101-115 | over any callback sequence the slot holds the newest delivered buffer, the depth mode never changes, and the processed frames are exactly the per-callback expected frames in order |
| FrameSync.WithoutDepthEveryBufferProcessed | BlindGate/CameraManager.swift:105-107 | without a depth output every delivered video buffer is processed exactly once, alone, in order |
| FrameSync.DepthModeVideoSilent | BlindGate/CameraManager.swift:105 | in depth mode video callbacks never process a frame by themselves |
| FrameSync.DepthCallbackPairsNewest | BlindGate/CameraManager.swift:113-114 | a depth callback before any buffer adds nothing; after one it adds exactly one frame pairing the newest buffer with that depth data |
| FrameSync.SameBufferProcessedTwice | BlindGate/CameraManager.swift:102-114 | one buffer followed by two depth frames is processed twice |
| FrameSync.SetupAsWritten | BlindGate/CameraManager.swift:33-72 | without a usable camera nothing is delivered and depth mode is off; with one, video is delivered iff the session accepts both the camera input and the video output, depth mode equals the camera's depth support whatever the session accepts, and depth is delivered iff the session accepts the input and the depth output of a depth camera |
| FrameSync.Setup | BlindGate/CameraManager.swift:33-72 | video delivery as written; depth mode holds iff a depth camera's depth output was added; depth is delivered iff additionally the camera input was added, so depth mode without depth data only occurs when no callback arrives at all |
| FrameSync.AsWrittenRefusedDepthOutputStarves | BlindGate/CameraManager.swift:60-72 | as written, a camera reporting depth data whose depth output is refused processes no frame at all |
| FrameSync.SetupWithoutDepthProcessesEveryBuffer | BlindGate/CameraManager.swift:60-107 | with depth mode taken from the added output, a session without depth processes every video buffer exactly once, alone and in arrival order |

## Findings

| source | as written | input that shows it | evidently intended | confidence | as-written member | corrected member |
|---|---|---|---|---|---|---|
| BlindGate/CameraManager.swift:60-72 | `depthDataOutput` is assigned as soon as the camera reports depth data, before `canAddOutput` is consulted, and it stays assigned when the output is refused | a camera reporting depth data whose session accepts the camera input and the video output but refuses the depth output: video buffers arrive, each is skipped because `depthDataOutput` is non-nil, and no depth callback ever arrives, so nothing is processed | enter depth mode only when the depth output was actually added, so that video alone drives processing otherwise | medium, not executed | FrameSync.AsWrittenRefusedDepthOutputStarves | FrameSync.SetupWithoutDepthProcessesEveryBuffer |

`FrameSync.SetupAsWritten` models the code as written and `FrameSync.Setup` is the
corrected setup. The pairing state machine itself is independent of which one
produced its depth-mode flag.

## Left out

- Recognition (`setupModel`, `VNCoreMLRequest`, `VNImageRequestHandler`): an opaque model. Its outcome is the input `Detector.Inference`. A missing model, a request error, a handler failure and results of another type all become `InferenceFailed`, which has no effect.
- Speech synthesis and haptic actuation (`AVSpeechSynthesizer.speak`, `UIImpactFeedbackGenerator`): emitted as values. Rate, pitch, volume and intensity settings are not modelled.
- The order in which due labels are spoken: Swift's set iteration order is unspecified, so `AlertPolicy.SpeakDetections` reports a set. `AlertPolicy.AnnounceEach` walks the set in an arbitrary order.
- Pixel-buffer locking, `bytesPerRow` padding and the pointer read: replaced by indexing a width by height grid of distances. The conversion to 32-bit float depth is not modelled.
- Floating point: confidences, coordinates, distances and times are reals. NaN or infinite depth samples, rounding, and the trap of `Int(_:)` on non-finite or out-of-range values are not modelled.
- Detector.OnFrame: reads the speaking flag once per frame. In the source each near object's main-queue block reads it separately, and a delegate callback could slip in between those blocks.
- `DispatchQueue` hops and threads: both camera callbacks share one serial queue, and the speech state is touched on the main queue, so the model is sequential.
- `setupAudioSession`, the session preset, pixel format, orientation and connection enabling: AVFoundation configuration. The choice among the three camera types is folded into `FrameSync.SetupAsWritten`'s `None` (no camera or no input) versus `Some` (a camera whose input and outputs the session may accept or refuse).
- FrameSync.SetupAsWritten and FrameSync.Setup: whether the session accepts the input and each output is an input of the model (`CameraDevice`), not derived from AVFoundation's rules, and a depth output added without a camera input is taken to deliver nothing.
- Label equality: Swift compares strings, set members and dictionary keys by Unicode canonical equivalence; the model compares them character by character, so two canonically equivalent spellings of one label are two debounce keys here. For ASCII labels the two coincide.
- `ContentView.swift` and `DetectionBoxView.swift`: SwiftUI rendering. The detections in `Detector.FrameOutput` stand for the boxes handed to the display.
- The summary text `"<Label> (<percent>%)"`: it relies on float-to-int truncation of confidences and only feeds the display.
- `lastSpokenObjects`: assigned but never read.
- `capitalized`: a function parameter, since its Unicode case mapping is not part of this model.
