/** The frame-timeline builder of the view controller: N stills become the
    interleaved sequence original, transition, original, ..., original of length
    2N-1, where the transition in front of still i shows the subject cut out of
    still i painted over still i-1.

    The image type is a parameter. Subject extraction (`generateObject`) and
    flattening (`mergedImages`) are foreign calls that may return nil; they are
    passed in as total functions into `Option`. */
module Timeline {
  import opened Results

  /** The source force-unwraps both optional results, so a nil aborts the whole
      build; the model reports which still it happened on. */
  datatype BuildError =
    | ObjectExtractionFailed(index: nat)
    | MergeFailed(index: nat)
  {
    function Index(): (k: nat) {
      match this
      case ObjectExtractionFailed(i) => i
      case MergeFailed(i) => i
    }
  }

  /** The number of stills the app bundles (`image1` ... `image8`). */
  const BundledPhotoCount: nat := 8

  /** The number of frames the bundled stills become: each still, and a
      transition in front of every still but the first. */
  const TemplateFrameCount: nat := 2 * BundledPhotoCount - 1

  /** The transition frame in front of still `i`: extract the subject of
      `input[i]`, then flatten `[input[i-1], subject]`. */
  function Transition<I>(input: seq<I>, extract: I -> Option<I>, merge: seq<I> -> Option<I>, i: nat)
    : (r: Result<I, BuildError>)
    requires 1 <= i < |input|
    ensures r.Err? ==> r.error.Index() == i
    ensures r.Ok? <==> extract(input[i]).Some? && merge([input[i - 1], extract(input[i]).value]).Some?
    ensures r.Ok? ==> merge([input[i - 1], extract(input[i]).value]) == Some(r.value)
    ensures r.Err? ==> (r.error.ObjectExtractionFailed? <==> extract(input[i]).None?)
  {
    match extract(input[i])
    case None => Err(ObjectExtractionFailed(i))
    case Some(subject) =>
      match merge([input[i - 1], subject])
      case None => Err(MergeFailed(i))
      case Some(frame) => Ok(frame)
  }

  /** Still `i` (i >= 1) cannot get a transition frame: one of the two foreign
      calls returns nil for it. */
  predicate TransitionFails<I>(input: seq<I>, extract: I -> Option<I>, merge: seq<I> -> Option<I>, i: nat)
    requires 1 <= i < |input|
  {
    extract(input[i]).None? || merge([input[i - 1], extract(input[i]).value]).None?
  }

  /** Independent description of a finished timeline: odd length 2N-1, every
      original at the even position 2i, and the transition for still i at the
      odd position 2i-1 between its two neighbours. */
  ghost predicate IsTimeline<I>(input: seq<I>, extract: I -> Option<I>, merge: seq<I> -> Option<I>, out: seq<I>)
  {
    && |input| >= 1
    && |out| == 2 * |input| - 1
    && (forall i :: 0 <= i < |input| ==> out[2 * i] == input[i])
    && (forall i :: 1 <= i < |input| ==>
          extract(input[i]).Some? && merge([input[i - 1], extract(input[i]).value]) == Some(out[2 * i - 1]))
  }

  /** The result after the loop has handled stills 0 .. n-1: either the first
      n stills with their transitions, or the error of the first still whose
      transition could not be made. */
  function TimelineUpTo<I>(input: seq<I>, extract: I -> Option<I>, merge: seq<I> -> Option<I>, n: nat)
    : (r: Result<seq<I>, BuildError>)
    requires 1 <= n <= |input|
    ensures r.Ok? <==> forall j :: 1 <= j < n ==> !TransitionFails(input, extract, merge, j)
    ensures r.Ok? ==> IsTimeline(input[..n], extract, merge, r.value)
    ensures r.Err? ==>
      && 1 <= r.error.Index() < n
      && TransitionFails(input, extract, merge, r.error.Index())
      && (forall j :: 1 <= j < r.error.Index() ==> !TransitionFails(input, extract, merge, j))
      && (r.error.ObjectExtractionFailed? <==> extract(input[r.error.Index()]).None?)
    decreases n
  {
    if n == 1 then
      Ok([input[0]])
    else
      match TimelineUpTo(input, extract, merge, n - 1)
      case Err(e) => Err(e)
      case Ok(prefix) =>
        match Transition(input, extract, merge, n - 1)
        case Err(e) =>
          assert TransitionFails(input, extract, merge, n - 1);
          Err(e)
        case Ok(frame) =>
          var out := prefix + [frame, input[n - 1]];
          assert forall i :: 0 <= i < n - 1 ==> out[2 * i] == prefix[2 * i] == input[..n - 1][i];
          assert forall i :: 1 <= i < n - 1 ==> out[2 * i - 1] == prefix[2 * i - 1];
          Ok(out)
  }

  /** `generateVideoTemplateImages` over an arbitrary list of stills. The source
      reads `fetchedImages[0]` unconditionally, so the list must be non-empty. */
  function BuildTimeline<I>(input: seq<I>, extract: I -> Option<I>, merge: seq<I> -> Option<I>)
    : (r: Result<seq<I>, BuildError>)
    requires |input| >= 1
    ensures r.Ok? <==> forall j :: 1 <= j < |input| ==> !TransitionFails(input, extract, merge, j)
    ensures r.Ok? ==> IsTimeline(input, extract, merge, r.value)
    ensures r.Ok? ==> |r.value| == 2 * |input| - 1 && r.value[0] == input[0]
    ensures r.Err? ==>
      && 1 <= r.error.Index() < |input|
      && TransitionFails(input, extract, merge, r.error.Index())
      && (forall j :: 1 <= j < r.error.Index() ==> !TransitionFails(input, extract, merge, j))
      && (r.error.ObjectExtractionFailed? <==> extract(input[r.error.Index()]).None?)
  {
    assert input[..|input|] == input;
    TimelineUpTo(input, extract, merge, |input|)
  }

  /** A timeline is determined by its stills and the two foreign calls: any
      sequence meeting `IsTimeline` is exactly what the builder returns. */
  lemma TimelineIsUnique<I>(input: seq<I>, extract: I -> Option<I>, merge: seq<I> -> Option<I>, out: seq<I>)
    requires IsTimeline(input, extract, merge, out)
    ensures BuildTimeline(input, extract, merge) == Ok(out)
  {
    forall j | 1 <= j < |input|
      ensures !TransitionFails(input, extract, merge, j)
    {
    }
    var r := BuildTimeline(input, extract, merge);
    assert r.Ok?;
    var built := r.value;
    assert IsTimeline(input, extract, merge, built);
    assert |built| == |out|;
    forall k | 0 <= k < |out|
      ensures built[k] == out[k]
    {
      if k % 2 == 0 {
        assert built[2 * (k / 2)] == input[k / 2] == out[2 * (k / 2)];
      } else {
        var i := k / 2 + 1;
        assert 1 <= i < |input| && k == 2 * i - 1;
        assert Some(built[2 * i - 1]) == merge([input[i - 1], extract(input[i]).value]) == Some(out[2 * i - 1]);
      }
    }
    assert built == out;
  }

  /** Once the stills before `i` all have transitions, the first still whose
      transition fails decides the build's error. */
  lemma FirstFailureDecides<I>(input: seq<I>, extract: I -> Option<I>, merge: seq<I> -> Option<I>, i: nat)
    requires 1 <= i < |input|
    requires TimelineUpTo(input, extract, merge, i).Ok?
    requires TransitionFails(input, extract, merge, i)
    ensures BuildTimeline(input, extract, merge) == Err(Transition(input, extract, merge, i).error)
  {
  }

  /** The loop of `generateVideoTemplateImages`: start from the first still,
      then for each later still append its transition and then the still. */
  method BuildTemplateImages<I>(fetched: seq<I>, extract: I -> Option<I>, merge: seq<I> -> Option<I>)
    returns (r: Result<seq<I>, BuildError>)
    requires |fetched| >= 1
    ensures r == BuildTimeline(fetched, extract, merge)
    ensures r.Ok? ==> |r.value| == 2 * |fetched| - 1
    ensures r.Ok? ==> forall i :: 0 <= i < |fetched| ==> r.value[2 * i] == fetched[i]
  {
    var result := [fetched[0]];
    var i := 1;
    while i < |fetched|
      invariant 1 <= i <= |fetched|
      invariant |result| == 2 * i - 1 && result[|result| - 1] == fetched[i - 1]
      invariant TimelineUpTo(fetched, extract, merge, i) == Ok(result)
    {
      var originalImage := fetched[i];
      var subject := extract(originalImage);
      if subject.None? {
        FirstFailureDecides(fetched, extract, merge, i);
        return Err(ObjectExtractionFailed(i));
      }
      var frame := merge([fetched[i - 1], subject.value]);
      if frame.None? {
        FirstFailureDecides(fetched, extract, merge, i);
        return Err(MergeFailed(i));
      }
      assert TimelineUpTo(fetched, extract, merge, i + 1) == Ok(result + [frame.value, originalImage]);
      assert result + [frame.value] + [originalImage] == result + [frame.value, originalImage];
      result := result + [frame.value];
      result := result + [originalImage];
      i := i + 1;
    }
    assert fetched[..|fetched|] == fetched;
    r := Ok(result);
  }

  /** The eight bundled stills, `image1` ... `image8` in that order; `named(k)`
      stands for loading the asset `image<k>`. */
  function FetchAssetsPhotos<I>(named: nat -> I): (photos: seq<I>)
    ensures |photos| == BundledPhotoCount
    ensures forall i :: 0 <= i < |photos| ==> photos[i] == named(i + 1)
  {
    seq(BundledPhotoCount, i requires 0 <= i => named(i + 1))
  }

  /** The view controller's entry point: the bundled stills through the builder.
      On success the timeline has 15 frames, from `image1` to `image8`. */
  method GenerateVideoTemplateImages<I>(named: nat -> I, extract: I -> Option<I>, merge: seq<I> -> Option<I>)
    returns (r: Result<seq<I>, BuildError>)
    ensures r == BuildTimeline(FetchAssetsPhotos(named), extract, merge)
    ensures r.Ok? ==>
      && |r.value| == TemplateFrameCount
      && r.value[0] == named(1)
      && r.value[TemplateFrameCount - 1] == named(BundledPhotoCount)
    ensures r.Err? ==> 1 <= r.error.Index() < BundledPhotoCount
  {
    var fetched := FetchAssetsPhotos(named);
    r := BuildTemplateImages(fetched, extract, merge);
    if r.Ok? {
      assert r.value[2 * (BundledPhotoCount - 1)] == fetched[BundledPhotoCount - 1];
    }
  }
}
