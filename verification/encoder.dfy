/** The frame-submission loop inside `VideoCreator.build`: the callback the
    writer input runs when it wants media data.

    The loop drains the photo list from the front. On each pass it asks the
    writer input whether it is ready; if so it takes the next photo, stamps it
    with a presentation time, allocates a pixel buffer from the pool, draws the
    photo aspect-fit and centred, and appends the buffer. A failed allocation or
    a rejected append ends the loop.

    The writer's answers are an oracle: one `Poll` per pass of the loop, read in
    order. When the answers run out while photos remain, the model stops with
    `Waiting`, which stands for the source still spinning on the readiness flag. */
module Encoder {
  import opened Geometry

  /** `CMTimeMake(value: 1, timescale: fps)` with `fps` = 1: one frame lasts one
      tick, and times are counted in ticks of that timescale. */
  const FrameDuration: nat := 1

  /** What became of a photo the loop took: no buffer from the pool, a buffer
      the adaptor refused, or a buffer the adaptor accepted. */
  datatype Submission = AllocationFailed | AppendRejected | Appended

  /** The writer input's answer to one pass of the loop. */
  datatype Poll = NotReady | Ready(submission: Submission)

  /** A pass that took a photo but got no buffer accepted: the loop stops after
      it. */
  predicate IsFailure(p: Poll) {
    p.Ready? && p.submission != Appended
  }

  /** A buffer handed to the adaptor: which photo, at which time, drawn where,
      and whether the append succeeded. */
  datatype Frame<I> = Frame(photo: I, time: nat, rect: Rect, accepted: bool)

  /** Why the loop stopped: the list is empty, a pass failed, or the answers
      ran out while the source would still be waiting for readiness. */
  datatype LoopExit = Drained | StoppedOnFailure | Waiting

  /** The loop's variables: the photos still to take, `frameCount`,
      `appendSucceeded`, the buffers handed to the adaptor so far, and how many
      polls have been answered. */
  datatype DrainState<I> = DrainState(
    remaining: seq<I>,
    frameCount: nat,
    appendSucceeded: bool,
    handed: seq<Frame<I>>,
    polls: nat)
  {
    function Exit(): (e: LoopExit) {
      if !appendSucceeded then StoppedOnFailure
      else if remaining == [] then Drained
      else Waiting
    }
  }

  /** The presentation time of the photo taken when `frameCount` is `k`: the
      source builds `CMTimeMake(k, fps)` and adds one frame duration unless
      `k` is zero, so the schedule reads 0, 2, 3, 4, ... */
  function PresentationTime(k: nat): (t: nat)
    ensures t == 0 <==> k == 0
    ensures k <= t <= k + FrameDuration
  {
    var lastFrameTime := k;
    if k == 0 then lastFrameTime else lastFrameTime + FrameDuration
  }

  /** The schedule is strictly increasing, so frames reach the writer in
      timeline order. */
  lemma PresentationTimeIncreasing(j: nat, k: nat)
    requires j < k
    ensures PresentationTime(j) < PresentationTime(k)
  {
  }

  /** Consecutive frames are one tick apart, except the first two, which are
      two ticks apart. */
  lemma PresentationTimeGap(k: nat)
    ensures PresentationTime(k + 1) - PresentationTime(k) == (if k == 0 then 2 else 1)
  {
  }

  /** The number of polls that found the input ready. */
  function ReadyCount(polls: seq<Poll>): (n: nat)
    ensures n <= |polls|
    ensures (forall i :: 0 <= i < |polls| ==> polls[i].Ready?) ==> n == |polls|
    ensures (forall i :: 0 <= i < |polls| ==> polls[i].NotReady?) ==> n == 0
  {
    if polls == [] then 0
    else ReadyCount(polls[..|polls| - 1]) + (if polls[|polls| - 1].Ready? then 1 else 0)
  }

  /** The loop's variables when the callback first runs. */
  function Start<I>(photos: seq<I>): (s: DrainState<I>)
    ensures s.remaining == photos && s.handed == [] && s.frameCount == 0
  {
    DrainState(photos, 0, true, [], 0)
  }

  /** One pass of the `while` body, given the writer's answer. */
  function Step<I>(s: DrainState<I>, poll: Poll, canvas: Extent, sizeOf: I -> Extent): (s': DrainState<I>)
    requires s.remaining != []
    ensures s'.polls == s.polls + 1
    ensures poll.NotReady? ==> s' == s.(polls := s.polls + 1)
    ensures poll.Ready? ==>
      && s'.remaining == s.remaining[1..]
      && s'.frameCount == s.frameCount + 1
      && s'.appendSucceeded == (poll.submission == Appended)
  {
    match poll
    case NotReady => s.(polls := s.polls + 1)
    case Ready(submission) =>
      var nextPhoto := s.remaining[0];
      var presentationTime := PresentationTime(s.frameCount);
      var handed :=
        if submission == AllocationFailed then s.handed
        else s.handed + [Frame(nextPhoto, presentationTime, Placement(canvas, sizeOf(nextPhoto)), submission == Appended)];
      DrainState(s.remaining[1..], s.frameCount + 1, submission == Appended, handed, s.polls + 1)
  }

  /** The whole loop as a function: pass after pass until the list is empty,
      the answers run out, or a pass ends with `appendSucceeded` false. */
  function Run<I>(s: DrainState<I>, polls: seq<Poll>, canvas: Extent, sizeOf: I -> Extent): (r: DrainState<I>)
    requires s.polls <= |polls|
    ensures s.polls <= r.polls <= |polls|
    // it stops only on an empty list, exhausted answers or a failed pass
    ensures r.remaining == [] || r.polls == |polls| || !r.appendSucceeded
    ensures s.appendSucceeded && r.appendSucceeded ==> r.polls == |polls| || r.remaining == []
    // frameCount counts the photos taken
    ensures |r.remaining| <= |s.remaining|
    ensures r.frameCount == s.frameCount + (|s.remaining| - |r.remaining|)
    // buffers are only ever appended
    ensures |s.handed| <= |r.handed| && r.handed[..|s.handed|] == s.handed
    decreases |polls| - s.polls
  {
    if s.remaining == [] || s.polls == |polls| then s
    else
      var next := Step(s, polls[s.polls], canvas, sizeOf);
      if !next.appendSucceeded then next else Run(next, polls, canvas, sizeOf)
  }

  /** Buffer `j` carries photo `j`, the `j`-th presentation time and the
      photo's aspect-fit placement. */
  ghost predicate FrameFor<I>(photos: seq<I>, canvas: Extent, sizeOf: I -> Extent, j: nat, f: Frame<I>)
    requires j < |photos|
  {
    && f.photo == photos[j]
    && f.time == PresentationTime(j)
    && f.rect == Placement(canvas, sizeOf(photos[j]))
  }

  /** What holds of the loop's variables after every pass. */
  ghost predicate Consistent<I>(photos: seq<I>, polls: seq<Poll>, canvas: Extent, sizeOf: I -> Extent, s: DrainState<I>)
  {
    && s.polls <= |polls|
    && s.frameCount <= |photos|
    && s.remaining == photos[s.frameCount..]
    && s.frameCount == ReadyCount(polls[..s.polls])
    && |s.handed| <= s.frameCount
    && (forall j :: 0 <= j < |s.handed| ==> FrameFor(photos, canvas, sizeOf, j, s.handed[j]))
    && (forall j :: 0 <= j < |s.handed| - 1 ==> s.handed[j].accepted)
    // every answer before the last one was a successful or an idle pass
    && (forall i :: 0 <= i < s.polls - 1 ==> !IsFailure(polls[i]))
    && (s.appendSucceeded ==> forall i :: 0 <= i < s.polls ==> !IsFailure(polls[i]))
    && (s.appendSucceeded ==>
          && |s.handed| == s.frameCount
          && forall j :: 0 <= j < |s.handed| ==> s.handed[j].accepted)
    && (!s.appendSucceeded ==>
          && 1 <= s.polls
          && polls[s.polls - 1].Ready?
          && match polls[s.polls - 1].submission
             case AllocationFailed =>
               && |s.handed| + 1 == s.frameCount
               && forall j :: 0 <= j < |s.handed| ==> s.handed[j].accepted
             case AppendRejected => |s.handed| == s.frameCount && !s.handed[|s.handed| - 1].accepted
             case Appended => false)
  }

  lemma ReadyCountSnoc(polls: seq<Poll>, n: nat)
    requires n < |polls|
    ensures ReadyCount(polls[..n + 1]) == ReadyCount(polls[..n]) + (if polls[n].Ready? then 1 else 0)
  {
    assert polls[..n + 1][..n] == polls[..n];
  }

  /** One pass from a state reached without failure keeps the loop's
      variables consistent. */
  lemma StepConsistent<I>(photos: seq<I>, polls: seq<Poll>, canvas: Extent, sizeOf: I -> Extent, s: DrainState<I>)
    requires Consistent(photos, polls, canvas, sizeOf, s) && s.appendSucceeded
    requires s.remaining != [] && s.polls < |polls|
    ensures Consistent(photos, polls, canvas, sizeOf, Step(s, polls[s.polls], canvas, sizeOf))
  {
    var poll := polls[s.polls];
    var next := Step(s, poll, canvas, sizeOf);
    ReadyCountSnoc(polls, s.polls);
    if poll.Ready? {
      assert s.remaining[0] == photos[s.frameCount];
      assert photos[s.frameCount..][1..] == photos[s.frameCount + 1..];
      if poll.submission != AllocationFailed {
        var j := |s.handed|;
        assert next.handed == s.handed + [next.handed[j]];
        assert FrameFor(photos, canvas, sizeOf, j, next.handed[j]);
      }
    }
  }

  /** Running the loop from a consistent state keeps it consistent, and the loop
      stops only when the list is empty, the answers run out, or a pass
      failed. */
  lemma {:induction false} RunConsistent<I>(photos: seq<I>, polls: seq<Poll>, canvas: Extent, sizeOf: I -> Extent, s: DrainState<I>)
    requires Consistent(photos, polls, canvas, sizeOf, s) && s.appendSucceeded
    ensures Consistent(photos, polls, canvas, sizeOf, Run(s, polls, canvas, sizeOf))
    ensures var r := Run(s, polls, canvas, sizeOf);
      r.Exit() == Waiting ==> r.polls == |polls|
    decreases |polls| - s.polls
  {
    if s.remaining == [] || s.polls == |polls| {
    } else {
      StepConsistent(photos, polls, canvas, sizeOf, s);
      var next := Step(s, polls[s.polls], canvas, sizeOf);
      if next.appendSucceeded {
        RunConsistent(photos, polls, canvas, sizeOf, next);
      }
    }
  }

  /** What the loop's invariant says about the loop run from its first pass,
      stated of the final variables. */
  lemma RunFromStart<I>(photos: seq<I>, polls: seq<Poll>, canvas: Extent, sizeOf: I -> Extent, d: DrainState<I>)
    requires d == Run(Start(photos), polls, canvas, sizeOf)
    // photos leave strictly from the front, one per ready answer
    ensures d.frameCount <= |photos| && d.remaining == photos[d.frameCount..]
    ensures d.frameCount == ReadyCount(polls[..d.polls])
    // buffer j carries photo j at the j-th presentation time, aspect-fit and centred
    ensures |d.handed| <= d.frameCount
    ensures forall j :: 0 <= j < |d.handed| ==>
      && d.handed[j].photo == photos[j]
      && d.handed[j].time == PresentationTime(j)
      && d.handed[j].rect == Placement(canvas, sizeOf(photos[j]))
    // nothing is handed over after a failure
    ensures forall j :: 0 <= j < |d.handed| - 1 ==> d.handed[j].accepted
    // while no pass failed, every photo taken was handed over and accepted
    ensures d.appendSucceeded ==>
      |d.handed| == d.frameCount && forall j :: 0 <= j < |d.handed| ==> d.handed[j].accepted
    ensures d.Exit() == Drained ==> |d.handed| == |photos|
    ensures d.Exit() == Waiting ==> d.polls == |polls| && d.frameCount < |photos|
    ensures d.Exit() == StoppedOnFailure ==>
      && 1 <= d.polls <= |polls|
      && polls[d.polls - 1].Ready? && polls[d.polls - 1].submission != Appended
      && (|d.handed| == d.frameCount <==> polls[d.polls - 1].submission == AppendRejected)
    // the stop is at the first failure: every answer before it succeeded or was idle
    ensures forall i :: 0 <= i < d.polls - 1 ==> !IsFailure(polls[i])
    ensures d.Exit() != StoppedOnFailure ==> forall i :: 0 <= i < d.polls ==> !IsFailure(polls[i])
    // after a failed allocation the photo was taken but no buffer handed over
    ensures d.Exit() == StoppedOnFailure && polls[d.polls - 1].submission == AllocationFailed ==>
      && |d.handed| + 1 == d.frameCount
      && forall j :: 0 <= j < |d.handed| ==> d.handed[j].accepted
    ensures d.Exit() == StoppedOnFailure && polls[d.polls - 1].submission == AppendRejected ==>
      1 <= |d.handed| && !d.handed[|d.handed| - 1].accepted
  {
    assert photos[0..] == photos;
    RunConsistent(photos, polls, canvas, sizeOf, Start(photos));
  }

  /** The `while` loop of the callback as the source writes it: remove the
      first photo whenever the input is ready, stamp, place, hand over, count,
      and break after the first failure. It computes the loop function. */
  method DrainPasses<I>(photos: seq<I>, polls: seq<Poll>, canvas: Extent, sizeOf: I -> Extent)
    returns (d: DrainState<I>)
    ensures d == Run(Start(photos), polls, canvas, sizeOf)
  {
    var photosLeft := photos;
    var frameCount: nat := 0;
    var appendSucceeded := true;
    var handed: seq<Frame<I>> := [];
    var used := 0;
    ghost var start := Start(photos);
    while photosLeft != [] && used < |polls|
      invariant used <= |polls|
      invariant appendSucceeded
      invariant Run(DrainState(photosLeft, frameCount, appendSucceeded, handed, used), polls, canvas, sizeOf)
             == Run(start, polls, canvas, sizeOf)
      decreases |polls| - used
    {
      ghost var before := DrainState(photosLeft, frameCount, appendSucceeded, handed, used);
      var poll := polls[used];
      used := used + 1;
      if poll.Ready? {
        var nextPhoto := photosLeft[0];
        photosLeft := photosLeft[1..];
        var presentationTime := PresentationTime(frameCount);
        if poll.submission == AllocationFailed {
          appendSucceeded := false;
        } else {
          var rect := Placement(canvas, sizeOf(nextPhoto));
          appendSucceeded := poll.submission == Appended;
          handed := handed + [Frame(nextPhoto, presentationTime, rect, appendSucceeded)];
        }
        frameCount := frameCount + 1;
      }
      assert DrainState(photosLeft, frameCount, appendSucceeded, handed, used) == Step(before, poll, canvas, sizeOf);
      if !appendSucceeded {
        break;
      }
    }
    d := DrainState(photosLeft, frameCount, appendSucceeded, handed, used);
  }

  /** The drain loop run by the media-data callback, with everything its
      invariant promises about the final variables. */
  method DrainLoop<I>(photos: seq<I>, polls: seq<Poll>, canvas: Extent, sizeOf: I -> Extent)
    returns (d: DrainState<I>)
    ensures d == Run(Start(photos), polls, canvas, sizeOf)
    // photos leave strictly from the front, one per ready answer
    ensures d.frameCount <= |photos| && d.remaining == photos[d.frameCount..]
    ensures d.frameCount == ReadyCount(polls[..d.polls])
    // buffer j carries photo j at the j-th presentation time, aspect-fit and centred
    ensures |d.handed| <= d.frameCount
    ensures forall j :: 0 <= j < |d.handed| ==>
      && d.handed[j].photo == photos[j]
      && d.handed[j].time == PresentationTime(j)
      && d.handed[j].rect == Placement(canvas, sizeOf(photos[j]))
    // nothing is handed over after a failure
    ensures forall j :: 0 <= j < |d.handed| - 1 ==> d.handed[j].accepted
    // while no pass failed, every photo taken was handed over and accepted
    ensures d.appendSucceeded ==>
      |d.handed| == d.frameCount && forall j :: 0 <= j < |d.handed| ==> d.handed[j].accepted
    ensures d.Exit() == Drained ==> |d.handed| == |photos|
    ensures d.Exit() == Waiting ==> d.polls == |polls| && d.frameCount < |photos|
    ensures d.Exit() == StoppedOnFailure ==>
      && 1 <= d.polls <= |polls|
      && polls[d.polls - 1].Ready? && polls[d.polls - 1].submission != Appended
      && (|d.handed| == d.frameCount <==> polls[d.polls - 1].submission == AppendRejected)
    // the stop is at the first failure: every answer before it succeeded or was idle
    ensures forall i :: 0 <= i < d.polls - 1 ==> !IsFailure(polls[i])
    ensures d.Exit() != StoppedOnFailure ==> forall i :: 0 <= i < d.polls ==> !IsFailure(polls[i])
    // after a failed allocation the photo was taken but no buffer handed over
    ensures d.Exit() == StoppedOnFailure && polls[d.polls - 1].submission == AllocationFailed ==>
      && |d.handed| + 1 == d.frameCount
      && forall j :: 0 <= j < |d.handed| ==> d.handed[j].accepted
    ensures d.Exit() == StoppedOnFailure && polls[d.polls - 1].submission == AppendRejected ==>
      1 <= |d.handed| && !d.handed[|d.handed| - 1].accepted
  {
    d := DrainPasses(photos, polls, canvas, sizeOf);
    RunFromStart(photos, polls, canvas, sizeOf, d);
  }

  /** When every ready answer accepts its buffer and there are at least as
      many ready answers as photos, every photo is submitted, in order, with
      no gaps in the schedule. */
  lemma DrainsWhenEveryAppendSucceeds<I>(photos: seq<I>, polls: seq<Poll>, canvas: Extent, sizeOf: I -> Extent)
    requires forall i :: 0 <= i < |polls| ==> !IsFailure(polls[i])
    requires ReadyCount(polls) >= |photos|
    ensures var r := Run(Start(photos), polls, canvas, sizeOf);
      && r.Exit() == Drained
      && |r.handed| == |photos|
      && forall j :: 0 <= j < |photos| ==>
           r.handed[j].photo == photos[j] && r.handed[j].time == PresentationTime(j) && r.handed[j].accepted
  {
    assert photos[0..] == photos;
    RunConsistent(photos, polls, canvas, sizeOf, Start(photos));
    assert polls[..|polls|] == polls;
  }
}
