/** `VideoCreator.build`: the setup checks in front of the writer, then the
    drain loop, then the completion call.

    File-system and AVFoundation calls are replaced by the answers they gave,
    collected in an `Environment`; the writer's answers during the loop are the
    `Poll` oracle of the encoder. */
module Creator {
  import opened Results
  import opened Geometry
  import opened Encoder
  import Timeline

  /** The name of the video file written into the documents directory. */
  const OutputFileName: string := "OutputVideo.mp4"

  /** What the platform answered to each setup call of `build`. */
  datatype Environment = Environment(
    documentDirectory: Option<string>,  // first of the user-domain document URLs
    staleOutputExists: bool,            // `fileExists(atPath:)` on the output path
    removeSucceeds: bool,               // `removeItem(atPath:)` does not throw
    writerCreated: bool,                // `AVAssetWriter(outputURL:fileType:)` does not throw
    settingsAccepted: bool,             // `canApply(outputSettings:forMediaType:)`
    inputAddable: bool,                 // `canAdd(videoWriterInput)`
    writingStarted: bool,               // `startWriting()`
    poolPresent: bool)                  // the adaptor's pixel-buffer pool is non-nil

  /** How a call of `build` ends.
      `Failed(code)`: completion is called with an error of that code and no URL.
      `NeverCompletes`: `startWriting()` returned false and completion is never called.
      `Trapped`: the assertion on the pixel-buffer pool fails.
      `Finished(url, drain)`: the loop exited, completion is called with no error and the URL.
      `Pending(drain)`: the writer's answers ran out while the loop was still waiting. */
  datatype BuildOutcome<I> =
    | Failed(code: nat)
    | NeverCompletes
    | Trapped
    | Finished(url: string, drain: DrainState<I>)
    | Pending(drain: DrainState<I>)

  /** `URL.appending(component:)` on a directory path. */
  function Appending(directory: string, component: string): (path: string)
    ensures |path| == |directory| + 1 + |component|
    ensures path[..|directory|] == directory && path[|directory|..] == "/" + component
  {
    directory + "/" + component
  }

  /** The four setup checks in the order `build` makes them; check `c` failing
      first produces error code `c + 1`. */
  function SetupChecks(env: Environment): (checks: seq<bool>)
    ensures |checks| == 4
  {
    [ env.documentDirectory.Some?,
      !env.staleOutputExists || env.removeSucceeds,
      env.writerCreated,
      env.settingsAccepted ]
  }

  /** The setup phase: either the output URL, or the code of the error
      completion reports. */
  function Setup(env: Environment): (r: Result<string, nat>)
    ensures r.Ok? <==> forall c :: 0 <= c < 4 ==> SetupChecks(env)[c]
    ensures r.Err? ==>
      && 1 <= r.error <= 4
      && !SetupChecks(env)[r.error - 1]
      && forall c :: 0 <= c < r.error - 1 ==> SetupChecks(env)[c]
    ensures r.Ok? ==> env.documentDirectory.Some? && r.value == Appending(env.documentDirectory.value, OutputFileName)
  {
    match env.documentDirectory
    case None =>
      assert !SetupChecks(env)[0];
      Err(1)
    case Some(documentDirectory) =>
      var videoOutputURL := Appending(documentDirectory, OutputFileName);
      if env.staleOutputExists && !env.removeSucceeds then
        assert !SetupChecks(env)[1];
        Err(2)
      else if !env.writerCreated then
        assert !SetupChecks(env)[2];
        Err(3)
      else if !env.settingsAccepted then
        assert !SetupChecks(env)[3];
        Err(4)
      else
        Ok(videoOutputURL)
  }

  /** The first failing setup check decides the error code, whatever the later
      checks would have answered. */
  lemma FirstFailingCheckDecides(env: Environment, c: nat)
    requires c < 4 && !SetupChecks(env)[c]
    requires forall e :: 0 <= e < c ==> SetupChecks(env)[e]
    ensures Setup(env) == Err(c + 1)
  {
  }

  /** The whole of `build` as a function of the environment's answers. */
  function BuildResult<I>(photos: seq<I>, canvas: Extent, env: Environment, polls: seq<Poll>, sizeOf: I -> Extent)
    : (o: BuildOutcome<I>)
    // a setup failure processes no frame and reports the first failing check
    ensures Setup(env).Err? <==> o.Failed?
    ensures o.Failed? ==> o.code == Setup(env).error
    ensures Setup(env).Ok? && !env.writingStarted ==> o == NeverCompletes
    ensures Setup(env).Ok? && env.writingStarted && !env.poolPresent ==> o == Trapped
    // once the loop exits, completion reports no error, even after a failed allocation or append
    ensures Setup(env).Ok? && env.writingStarted && env.poolPresent ==>
      && (o.Finished? || o.Pending?)
      && o.drain == Run(Start(photos), polls, canvas, sizeOf)
      && (o.Finished? <==> o.drain.Exit() in {Drained, StoppedOnFailure})
    ensures o.Finished? ==> o.url == Setup(env).value
  {
    match Setup(env)
    case Err(code) => Failed(code)
    case Ok(url) =>
      if !env.writingStarted then NeverCompletes
      else if !env.poolPresent then Trapped
      else
        var drain := Run(Start(photos), polls, canvas, sizeOf);
        if drain.Exit() == Waiting then Pending(drain) else Finished(url, drain)
  }

  /** `build` as the source writes it. A failed allocation or a rejected append
      still ends with completion reporting no error and the output URL. */
  method Build<I>(myPhotos: seq<I>, outputSize: Extent, env: Environment, polls: seq<Poll>, sizeOf: I -> Extent)
    returns (o: BuildOutcome<I>)
    ensures o == BuildResult(myPhotos, outputSize, env, polls, sizeOf)
    // a setup failure processes no frame and reports the first failing check
    ensures Setup(env).Err? ==> o == Failed(Setup(env).error)
    ensures Setup(env).Ok? && !env.writingStarted ==> o == NeverCompletes
    ensures Setup(env).Ok? && env.writingStarted && !env.poolPresent ==> o == Trapped
    // once the loop exits, completion reports no error, even after a failed allocation or append
    ensures Setup(env).Ok? && env.writingStarted && env.poolPresent ==>
      && (o.Finished? || o.Pending?)
      && (o.Finished? <==> o.drain.Exit() in {Drained, StoppedOnFailure})
    ensures o.Finished? ==>
      && o.url == Appending(env.documentDirectory.value, OutputFileName)
      && (o.drain.Exit() == Drained ==> |o.drain.handed| == |myPhotos|)
      && (o.drain.Exit() == StoppedOnFailure ==> o.drain.frameCount <= |myPhotos| && o.drain.remaining == myPhotos[o.drain.frameCount..])
    ensures o.Pending? ==> o.drain.polls == |polls|
  {
    var setup := Setup(env);
    if setup.Err? {
      return Failed(setup.error);
    }
    var videoOutputURL := setup.value;
    // `canAdd` failing leaves the input unattached; `build` carries on regardless.
    if !env.writingStarted {
      return NeverCompletes;
    }
    if !env.poolPresent {
      return Trapped;
    }
    var drain := DrainLoop(myPhotos, polls, outputSize, sizeOf);
    if drain.Exit() == Waiting {
      o := Pending(drain);
    } else {
      o := Finished(videoOutputURL, drain);
    }
  }

  /** `build` does not branch on the answer of `canAdd`. */
  lemma InputAttachmentIgnored<I>(photos: seq<I>, canvas: Extent, env: Environment, polls: seq<Poll>, sizeOf: I -> Extent)
    ensures BuildResult(photos, canvas, env, polls, sizeOf)
         == BuildResult(photos, canvas, env.(inputAddable := !env.inputAddable), polls, sizeOf)
  {
  }

  /** The app's run: the timeline built from the eight bundled stills, with
      setup passing and the writer accepting every buffer, finishes with all 15
      frames submitted in order, from `image1` to `image8`, the last at 15 ticks. */
  lemma BundledRunSubmitsFifteenFrames<I>(
    named: nat -> I, extract: I -> Option<I>, merge: seq<I> -> Option<I>, timeline: seq<I>,
    canvas: Extent, env: Environment, polls: seq<Poll>, sizeOf: I -> Extent)
    requires Timeline.BuildTimeline(Timeline.FetchAssetsPhotos(named), extract, merge) == Ok(timeline)
    requires Setup(env).Ok? && env.writingStarted && env.poolPresent
    requires forall i :: 0 <= i < |polls| ==> !IsFailure(polls[i])
    requires ReadyCount(polls) >= Timeline.TemplateFrameCount
    ensures var o := BuildResult(timeline, canvas, env, polls, sizeOf);
      && o.Finished?
      && o.drain.Exit() == Drained
      && |o.drain.handed| == Timeline.TemplateFrameCount
      && (forall j :: 0 <= j < Timeline.TemplateFrameCount ==> o.drain.handed[j].photo == timeline[j])
      && o.drain.handed[0].photo == named(1)
      && o.drain.handed[Timeline.TemplateFrameCount - 1].photo == named(Timeline.BundledPhotoCount)
      && o.drain.handed[Timeline.TemplateFrameCount - 1].time == 15
  {
    var fetched := Timeline.FetchAssetsPhotos(named);
    assert timeline[2 * (Timeline.BundledPhotoCount - 1)] == fetched[Timeline.BundledPhotoCount - 1];
    DrainsWhenEveryAppendSucceeds(timeline, polls, canvas, sizeOf);
  }
}
