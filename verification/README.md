# VideoTemplateMaker: timeline builder and frame encoder, modelled in Dafny

VideoTemplateMaker turns a handful of stills into a slideshow video. Between
two consecutive stills it inserts a transition frame: the subject of the later
still, cut out with a segmentation mask, painted over the earlier still. The
resulting timeline is then encoded by `VideoCreator.build` at presentation
times 0, 2, 3, ... ticks, scaling every frame "aspect fit" into the output
canvas and centring it.

This project models the two parts of that app that are pure logic, and proves
what they promise:

- `timeline.dfy` (module `Timeline`): `generateVideoTemplateImages`, the
  builder that turns N stills into the 2N-1 frame sequence
  original, transition, original, ..., and `fetchAssetsPhotos`' fixed count of 8.
  Subject extraction (`generateObject`) and flattening (`mergedImages`) are
  foreign calls; they are parameters of type `I -> Option<I>` and
  `seq<I> -> Option<I>` over an abstract image type `I`.
- `geometry.dfy` (module `Geometry`): the aspect-fit scale, the scaled size and
  the centring offsets, in exact `real` arithmetic.
- `encoder.dfy` (module `Encoder`): the drain loop run by the writer input's
  media-data callback. It covers the presentation-time schedule, taking photos
  from the front only when the input is ready, `frameCount`, and the stop after
  the first failed allocation or append. The writer's answers are an oracle:
  one `Poll` per pass of the loop.
- `creator.dfy` (module `Creator`): the setup checks of `build` with their
  error codes 1-4, what happens when `startWriting()` fails or the buffer pool
  is missing, and the completion call after the loop.
- `results.dfy` (module `Results`): `Option` and `Result`.

Behaviour of the source worth knowing:

- The presentation time of the k-th photo is 0 for k = 0 and k + 1 ticks
  otherwise (`CMTimeAdd(lastFrameTime, frameDuration)` is applied to every frame
  but the first). The first two frames are two ticks apart; every later pair
  is one tick apart.
- A failed buffer allocation or a rejected append ends the loop, but `build`
  still marks the input finished and calls completion with no error and the
  output URL.
- The builder reads `fetchedImages[0]` unconditionally, so an empty list of
  stills traps; the model requires a non-empty list.
- A nil from `generateObject` or `mergedImages` is force-unwrapped and traps.
  The model returns an error that names the still's index instead.
- If `startWriting()` returns false, `build` never calls its completion handler.

## Model

| member | source | states |
|---|---|---|
| Timeline.Transition | VideoTemplateMaker/ViewController.swift:47-50 | The transition for still i exists exactly when subject extraction of still i and the merge of [still i-1, subject] both succeed, and it is that merge's result. Otherwise the error names still i, and its kind tells which of the two calls returned nil. |
| Timeline.TimelineUpTo | VideoTemplateMaker/ViewController.swift:44-52 | Loop invariant of the builder: after stills 0..n-1 the result is a valid timeline of those n stills (length 2n-1, originals at even positions, transitions at odd ones). Otherwise the error is that of the first still whose transition failed. |
| Timeline.BuildTimeline | VideoTemplateMaker/ViewController.swift:40-54 | For N >= 1 stills the builder succeeds iff no transition fails. On success: length 2N-1, out[0] == in[0], out[2i] == in[i], out[2i-1] == merge([in[i-1], object(in[i])]). On failure: the error is the lowest failing index, which is >= 1, so the first still never goes through extraction. |
| Timeline.TimelineIsUnique | VideoTemplateMaker/ViewController.swift:44-53 | Converse direction: any sequence that satisfies the timeline description is exactly the builder's result. |
| Timeline.FirstFailureDecides | VideoTemplateMaker/ViewController.swift:46-49 | If every still before i has a transition and still i does not, the whole build fails with still i's error. |
| Timeline.BuildTemplateImages | VideoTemplateMaker/ViewController.swift:41-54 | The imperative loop (append the transition, then the original) computes the builder's result. Its invariant: after handling index i-1 the list has 2i-1 frames and ends with still i-1. |
| Timeline.FetchAssetsPhotos | VideoTemplateMaker/ViewController.swift:32-38 | The bundled stills are exactly image1 ... image8, in that order. |
| Timeline.GenerateVideoTemplateImages | VideoTemplateMaker/ViewController.swift:40-54 | The result is the builder applied to the 8 bundled stills. A successful build yields 15 frames, from image1 to image8. A failure names a still between 2 and 8 (index 1..7). |
| Geometry.FitScale | VideoTemplateMaker/VideoCreator.swift:114-116 | The scale min(W/w, H/h) is positive. It keeps the scaled photo inside the canvas and makes it touch the canvas along at least one axis. |
| Geometry.FitScaleIsLargest | VideoTemplateMaker/VideoCreator.swift:114-116 | Every uniform scale that keeps the photo inside the canvas is at most the aspect-fit scale. |
| Geometry.AspectFit | VideoTemplateMaker/VideoCreator.swift:114-118 | The scaled size has w' <= W and h' <= H, equals the canvas in at least one dimension, and keeps the photo's aspect ratio w'/h' = w/h. |
| Geometry.AspectFitIsLargest | VideoTemplateMaker/VideoCreator.swift:114-118 | Among all sizes with the photo's aspect ratio that fit in the canvas, the aspect-fit size is the largest in both dimensions. |
| Geometry.CenterOffset | VideoTemplateMaker/VideoCreator.swift:120-121 | When the scaled length fits, the offset is >= 0, offset + length <= canvas length, and the margins on both sides are equal. When it does not fit, the offset is 0. |
| Geometry.Placement | VideoTemplateMaker/VideoCreator.swift:114-123 | The drawing rectangle has the aspect-fit size and lies inside the canvas (x, y >= 0, x+w' <= W, y+h' <= H). It is centred on both axes and flush with the canvas on at least one axis. |
| Geometry.PlacementOfLandscapePhoto | VideoTemplateMaker/VideoCreator.swift:114-121 | A 2000x1000 photo in a 1024x1024 canvas is drawn 1024x512 at (0, 256). |
| Encoder.PresentationTime | VideoTemplateMaker/VideoCreator.swift:88-98 | The k-th photo's time is zero exactly for k = 0 and lies between k and k+1 ticks (timescale 1). |
| Encoder.PresentationTimeIncreasing | VideoTemplateMaker/VideoCreator.swift:97-98 | The schedule is strictly increasing in the frame counter. |
| Encoder.PresentationTimeGap | VideoTemplateMaker/VideoCreator.swift:97-98 | Consecutive times differ by two ticks between frames 0 and 1, and by one tick everywhere else. |
| Encoder.Step | VideoTemplateMaker/VideoCreator.swift:94-133 | A pass where the input is not ready changes nothing but the poll count. A ready pass removes the front photo, increments frameCount whether or not allocation and append succeeded, and leaves appendSucceeded true only after an accepted append. |
| Encoder.Run | VideoTemplateMaker/VideoCreator.swift:94-137 | The loop as a function stops only when the list is empty, the answers are used up, or a pass failed; if no pass failed, it stops only on an empty list or exhausted answers. frameCount grows by exactly the number of photos taken, and buffers handed over are never taken back. |
| Encoder.StepConsistent | VideoTemplateMaker/VideoCreator.swift:95-132 | One pass from a failure-free state preserves the loop's invariant: photos leave from the front, frameCount counts ready answers, buffer j carries photo j at time PresentationTime(j) with its aspect-fit placement, and a failure is the last thing handed over. |
| Encoder.RunConsistent | VideoTemplateMaker/VideoCreator.swift:94-137 | The whole loop preserves that invariant. If it stops with photos left and no failure, every answer was used. |
| Encoder.DrainPasses | VideoTemplateMaker/VideoCreator.swift:94-137 | The imperative `while` loop (take the front photo when ready, stamp, place, hand over, count, break on failure) computes the loop function from the initial variables. |
| Encoder.DrainLoop | VideoTemplateMaker/VideoCreator.swift:91-137 | The drain loop equals the loop function. Photos are consumed in order from the front, one per ready answer, and frameCount equals the number removed. Buffer j is photo j at the j-th time, placed aspect-fit. Every answer before the last one was idle or an accepted append, so the loop stops at the first failure and nothing is taken or handed over after it. On an allocation failure every earlier buffer was accepted and the photo was taken but not handed over; on a rejected append only the last buffer was refused. While no pass has failed, there is one buffer per photo taken and every one was accepted. Otherwise the loop ends drained (all photos accepted) or with every answer used. |
| Encoder.DrainsWhenEveryAppendSucceeds | VideoTemplateMaker/VideoCreator.swift:94-137 | If every ready answer accepts its buffer and there are at least as many ready answers as photos, then every photo is submitted in order at its scheduled time and the loop ends drained. |
| Creator.Setup | VideoTemplateMaker/VideoCreator.swift:36-66 | Setup succeeds exactly when all four checks pass, and then yields `<documents>/OutputVideo.mp4`. Otherwise the error code is 1 + the position of the first failing check: no documents directory, stale output not deletable, writer not created, settings rejected. |
| Creator.FirstFailingCheckDecides | VideoTemplateMaker/VideoCreator.swift:37-66 | The first failing check fixes the error code, whatever the later checks would answer. |
| Creator.BuildResult | VideoTemplateMaker/VideoCreator.swift:34-145 | build fails with an error exactly when setup fails, with setup's code. After setup, a failed startWriting never completes and a missing pool traps. Otherwise the outcome carries the loop's end state, and completion reports (nil, URL) exactly when the loop drained or stopped on a failure. |
| Creator.Build | VideoTemplateMaker/VideoCreator.swift:34-145 | A setup failure reports its code and processes no frame. A failed startWriting never completes. A missing pool traps. Otherwise completion reports (nil, URL) once the loop exits: after a full drain with every photo handed over, and also after a failure, with the unconsumed photos still a suffix of the input. |
| Creator.InputAttachmentIgnored | VideoTemplateMaker/VideoCreator.swift:77-79 | build does not branch on the result of `canAdd`: flipping that answer, with every other answer unchanged, leaves the outcome unchanged. |
| Creator.BundledRunSubmitsFifteenFrames | VideoTemplateMaker/VideoCreator.swift:88-137 | The timeline the builder makes from the eight bundled stills, with setup passing and a writer that accepts every buffer, finishes with all 15 frames submitted in order, from image1 to image8. The last frame is at 15 ticks. |

## Left out

- Extensions.swift as a whole (bitmap contexts, the CoreML segmentation model, CIContext conversion, image masking): foreign image APIs with no logic of their own. Subject extraction and merging appear only as the function parameters of the builder.
- Saving to the photo library and the authorization prompt (VideoCreator.swift:14-32): operating-system I/O.
- AVAssetWriter, the pixel-buffer adaptor and pool: each is reduced to its success or failure answer (`Environment`, `Poll`). The drawing is represented by the rectangle it draws into.
- Buffer locking (VideoCreator.swift:106, :125) has no answer in the model: the source ignores its return code.
- Creator.Build: `finishWriting` (VideoCreator.swift:139) is assumed to always run its handler, which calls completion; `Finished` rests on that. `markAsFinished` (VideoCreator.swift:138) returns nothing and is implied by `Finished`.
- Creator.Build: the force-unwraps `pixelBufferAdaptor.pixelBufferPool!` (VideoCreator.swift:101, re-read on every ready pass), `CGContext(...)!` (VideoCreator.swift:110) and `nextPhoto.cgImage!` (VideoCreator.swift:123) are assumed to succeed. The model has no answer for them trapping mid-loop, so where they would trap it reports the loop's ordinary end.
- Creator.InputAttachmentIgnored: the effect of an unattached writer input (when `canAdd` fails) on the writer's later answers is not modelled. `writingStarted`, `poolPresent` and the loop's answers are independent inputs, so the lemma only says that `build` itself does not branch on `canAdd`.
- The dispatch queue and `requestMediaDataWhenReady`: concurrency. The model runs one sequential invocation of the callback, with readiness as an oracle.
- Liveness of the readiness wait: the source spins as long as the input is not ready. The model reads a finite sequence of answers; when they run out the loop's exit is `Waiting` and `build`'s outcome is `Pending`.
- The audio/video mux (VideoCreator.swift:148-242): it is commented out and not live code.
- `viewDidLoad` (ViewController.swift:13-30): UI and Task wiring, and it calls signatures the shown code does not define.
- CGFloat rounding: the geometry is computed in exact rationals. Photos with a zero side, for which the source divides by zero (VideoCreator.swift:114-115), are excluded by the `Extent` type. Canvases are required to be positive too; a zero canvas side would only give scale 0.
- Encoder.PresentationTime: the 64-bit `frameCount` and CMTime value are unbounded naturals. Swift's `frameCount += 1` traps on overflow, which would need more than 2^63 frames.
- Creator.Build: the pool assertion is modelled as it behaves in a debug build, trapping before the loop. In a release build the assertion is compiled out and the force-unwrap traps at the first ready pass instead.
- Loading the bundled assets (`UIImage(named:)!`): a missing asset traps, which the model does not represent. `FetchAssetsPhotos` takes the loader as a total function.
