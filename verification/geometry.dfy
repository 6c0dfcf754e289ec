/** The placement arithmetic the encoder uses to draw a photo into the video
    canvas: "scale aspect fit" followed by centring on both axes.

    The source computes in CGFloat; the model computes in exact rationals, so
    the equalities below are the ones the floating-point code approximates. */
module Geometry {

  datatype Size = Size(width: real, height: real)

  /** A size with both sides strictly positive: a canvas or a photo. */
  type Extent = s: Size | s.width > 0.0 && s.height > 0.0 witness Size(1.0, 1.0)

  /** A drawing rectangle: origin and size. */
  datatype Rect = Rect(x: real, y: real, width: real, height: real)

  function Min(a: real, b: real): (m: real)
    ensures m <= a && m <= b
    ensures m == a || m == b
  {
    if b < a then b else a
  }

  /** The uniform scale factor `min(W/w, H/h)`. */
  function FitScale(canvas: Extent, image: Extent): (s: real)
    ensures s > 0.0
    ensures image.width * s <= canvas.width && image.height * s <= canvas.height
    ensures image.width * s == canvas.width || image.height * s == canvas.height
  {
    var horizontal := canvas.width / image.width;
    var vertical := canvas.height / image.height;
    assert image.width * horizontal == canvas.width;
    assert image.height * vertical == canvas.height;
    Min(horizontal, vertical)
  }

  /** No larger uniform scale keeps the photo inside the canvas. */
  lemma FitScaleIsLargest(canvas: Extent, image: Extent, t: real)
    requires image.width * t <= canvas.width && image.height * t <= canvas.height
    ensures t <= FitScale(canvas, image)
  {
    var s := FitScale(canvas, image);
    if image.width * s == canvas.width {
      assert image.width * t <= image.width * s;
    } else {
      assert image.height * t <= image.height * s;
    }
  }

  /** The photo's size after scaling: inside the canvas, filling it along at
      least one axis, with the photo's aspect ratio. */
  function AspectFit(canvas: Extent, image: Extent): (fit: Size)
    ensures 0.0 < fit.width <= canvas.width && 0.0 < fit.height <= canvas.height
    ensures fit.width == canvas.width || fit.height == canvas.height
    ensures fit.width / fit.height == image.width / image.height
  {
    var s := FitScale(canvas, image);
    var fit := Size(image.width * s, image.height * s);
    assert fit.width * image.height == fit.height * image.width;
    fit
  }

  /** Among all sizes with the photo's aspect ratio that fit in the canvas,
      the aspect-fit size is the largest. */
  lemma AspectFitIsLargest(canvas: Extent, image: Extent, other: Size)
    requires other.width > 0.0 && other.height > 0.0
    requires other.width / other.height == image.width / image.height
    requires other.width <= canvas.width && other.height <= canvas.height
    ensures other.width <= AspectFit(canvas, image).width
    ensures other.height <= AspectFit(canvas, image).height
  {
    var t := other.width / image.width;
    var s := FitScale(canvas, image);
    var fit := AspectFit(canvas, image);
    assert fit.width == image.width * s && fit.height == image.height * s;
    SameRatioIsUniformScale(image, other);
    assert t <= s by {
      FitScaleIsLargest(canvas, image, t);
    }
    assert other.width <= fit.width by {
      ScaleMonotone(image.width, t, s);
    }
    assert other.height <= fit.height by {
      ScaleMonotone(image.height, t, s);
    }
  }

  /** Two sizes with one aspect ratio differ by one uniform factor. */
  lemma SameRatioIsUniformScale(image: Extent, other: Size)
    requires other.width > 0.0 && other.height > 0.0
    requires other.width / other.height == image.width / image.height
    ensures other.width == image.width * (other.width / image.width)
    ensures other.height == image.height * (other.width / image.width)
  {
    var t := other.width / image.width;
    var q := image.width / image.height;
    assert other.width == q * other.height;
    assert image.width == q * image.height;
    assert q > 0.0;
    calc {
      image.height * t;
      image.height * (q * other.height) / (q * image.height);
      { assert image.height * (q * other.height) == (q * image.height) * other.height; }
      (q * image.height) * other.height / (q * image.height);
      other.height;
    }
  }

  lemma ScaleMonotone(a: real, t: real, s: real)
    requires a > 0.0 && t <= s
    ensures a * t <= a * s
  {
  }

  /** The offset along one axis: half the free space when the scaled photo is
      shorter than the canvas, otherwise zero. */
  function CenterOffset(available: real, extent: real): (offset: real)
    ensures extent <= available ==> 0.0 <= offset && offset + extent <= available
    ensures extent <= available ==> offset == available - (offset + extent)
    ensures available <= extent ==> offset == 0.0
  {
    if extent < available then (available - extent) / 2.0 else 0.0
  }

  /** Where the encoder draws a photo: the aspect-fit size, centred. */
  function Placement(canvas: Extent, image: Extent): (r: Rect)
    ensures Size(r.width, r.height) == AspectFit(canvas, image)
    ensures 0.0 <= r.x && r.x + r.width <= canvas.width
    ensures 0.0 <= r.y && r.y + r.height <= canvas.height
    ensures r.x == canvas.width - (r.x + r.width) && r.y == canvas.height - (r.y + r.height)
    ensures r.x == 0.0 || r.y == 0.0
  {
    var fit := AspectFit(canvas, image);
    Rect(CenterOffset(canvas.width, fit.width), CenterOffset(canvas.height, fit.height), fit.width, fit.height)
  }

  /** A landscape 2000x1000 photo in a 1024x1024 canvas is drawn 1024x512 at
      (0, 256). */
  lemma PlacementOfLandscapePhoto()
    ensures Placement(Size(1024.0, 1024.0), Size(2000.0, 1000.0)) == Rect(0.0, 256.0, 1024.0, 512.0)
  {
    var canvas: Extent := Size(1024.0, 1024.0);
    var image: Extent := Size(2000.0, 1000.0);
    assert FitScale(canvas, image) == 1024.0 / 2000.0;
  }
}
