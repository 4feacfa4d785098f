/**
 * Layout and coordinate mapping of the pose overlay: how the video frame is
 * fitted into the canvas in each orientation, and how a keypoint position
 * given in video pixels lands on the canvas.
 */
module Geometry {

  /** A width and a height, in pixels. */
  datatype Size = Size(w: real, h: real) {
    predicate Positive() { w > 0.0 && h > 0.0 }
  }

  datatype Point = Point(x: real, y: real)

  /** The letterbox rectangle the landscape branch draws the video into. */
  datatype Rect = Rect(x: real, y: real, w: real, h: real)

  /** Width over height: `video.width / video.height`, `width / height`. */
  function Aspect(s: Size): real
    requires s.Positive()
  {
    s.w / s.h
  }

  /**
   * p5's `map(v, start1, stop1, start2, stop2)`: the linear remap sending
   * `start1` to `start2` and `stop1` to `stop2`.
   */
  function Remap(v: real, start1: real, stop1: real, start2: real, stop2: real): (r: real)
    requires stop1 != start1
    ensures v == start1 ==> r == start2
    ensures v == stop1 ==> r == stop2
  {
    var offset := (v - start1) * (stop2 - start2) / (stop1 - start1);
    assert v == start1 ==> offset == 0.0 by {
      assert v == start1 ==> (v - start1) * (stop2 - start2) == 0.0;
    }
    assert v == stop1 ==> offset == stop2 - start2 by {
      if v == stop1 {
        RemapAtStop(start1, stop1, start2, stop2);
      }
    }
    start2 + offset
  }

  /** A remap onto a non-reversed target range keeps the order of its inputs. */
  lemma RemapMonotone(v: real, w: real, start1: real, stop1: real, start2: real, stop2: real)
    requires start1 < stop1 && start2 <= stop2 && v <= w
    ensures Remap(v, start1, stop1, start2, stop2) <= Remap(w, start1, stop1, start2, stop2)
  {
    NonNegativeProduct(w - v, stop2 - start2);
    assert (w - start1) * (stop2 - start2) - (v - start1) * (stop2 - start2) == (w - v) * (stop2 - start2);
    QuotientMonotone((v - start1) * (stop2 - start2), (w - start1) * (stop2 - start2), stop1 - start1);
    RemapUnfold(v, start1, stop1, start2, stop2);
    RemapUnfold(w, start1, stop1, start2, stop2);
  }

  lemma QuotientMonotone(lo: real, hi: real, span: real)
    requires span > 0.0 && lo <= hi
    ensures lo / span <= hi / span
  {
    var a := lo / span;
    var b := hi / span;
    assert a * span == lo && b * span == hi;
    assert (b - a) * span == hi - lo;
    NonNegativeFactor(b - a, span);
  }

  /** The offset of `map` at `stop1` is the whole target span. */
  lemma RemapAtStop(start1: real, stop1: real, start2: real, stop2: real)
    requires stop1 != start1
    ensures (stop1 - start1) * (stop2 - start2) / (stop1 - start1) == stop2 - start2
  {
    var a := stop1 - start1;
    var b := stop2 - start2;
    var q := a * b / a;
    assert q * a == a * b;
    assert (q - b) * a == 0.0;
  }

  lemma RemapUnfold(v: real, start1: real, stop1: real, start2: real, stop2: real)
    requires stop1 != start1
    ensures Remap(v, start1, stop1, start2, stop2) == start2 + (v - start1) * (stop2 - start2) / (stop1 - start1)
  {
  }

  lemma NonNegativeProduct(x: real, y: real)
    requires x >= 0.0 && y >= 0.0
    ensures x * y >= 0.0
  {
  }

  lemma NonNegativeFactor(x: real, y: real)
    requires y > 0.0 && x * y >= 0.0
    ensures x >= 0.0
  {
  }

  /** The portrait path is taken when the window is strictly taller than wide. */
  predicate IsPortrait(innerWidth: int, innerHeight: int)
  {
    innerHeight > innerWidth
  }

  /**
   * A square window takes the landscape path, and turning any other window
   * on its side switches the path.
   */
  lemma OrientationOfTurnedWindow(innerWidth: int, innerHeight: int)
    ensures !IsPortrait(innerWidth, innerWidth)
    ensures innerWidth != innerHeight ==> (IsPortrait(innerWidth, innerHeight) <==> !IsPortrait(innerHeight, innerWidth))
  {
  }

  /**
   * Landscape branch of `draw`: fit to the canvas height when the canvas is
   * relatively wider than the video, else to its width, and centre the frame.
   */
  function LandscapeFit(canvas: Size, video: Size): (r: Rect)
    requires canvas.Positive() && video.Positive()
    ensures r.w == r.h * Aspect(video)
    ensures 0.0 < r.w <= canvas.w && 0.0 < r.h <= canvas.h
    ensures r.w == canvas.w || r.h == canvas.h
    ensures r.x >= 0.0 && r.y >= 0.0
    ensures 2.0 * r.x + r.w == canvas.w && 2.0 * r.y + r.h == canvas.h
  {
    var videoAspect := Aspect(video);
    var canvasAspect := Aspect(canvas);
    var (videoWidth, videoHeight) :=
      if canvasAspect > videoAspect then
        assert canvas.h * videoAspect < canvas.w by { WiderThan(canvas, videoAspect); }
        (canvas.h * videoAspect, canvas.h)
      else
        assert canvas.w / videoAspect <= canvas.h by { NotWiderThan(canvas, videoAspect); }
        (canvas.w, canvas.w / videoAspect);
    Rect((canvas.w - videoWidth) / 2.0, (canvas.h - videoHeight) / 2.0, videoWidth, videoHeight)
  }

  lemma WiderThan(canvas: Size, a: real)
    requires canvas.Positive() && a > 0.0 && Aspect(canvas) > a
    ensures canvas.h * a < canvas.w
  {
    assert canvas.w == Aspect(canvas) * canvas.h;
  }

  lemma NotWiderThan(canvas: Size, a: real)
    requires canvas.Positive() && a > 0.0 && Aspect(canvas) <= a
    ensures canvas.w / a <= canvas.h && canvas.w / a * a == canvas.w
  {
    assert canvas.w == Aspect(canvas) * canvas.h;
    assert canvas.w <= a * canvas.h;
  }

  /** The extent `(videoWidth, videoHeight)` the portrait branch of `draw` assigns. */
  datatype Extent = Extent(w: real, h: real)

  /**
   * Portrait branch of `draw`: the same aspect comparison as in landscape, but
   * in both branches the height is the width times the video aspect, the
   * inverse of the landscape relation.
   */
  function PortraitFit(canvas: Size, video: Size): (e: Extent)
    requires canvas.Positive() && video.Positive()
    ensures e.h == e.w * Aspect(video)
    ensures e.w > 0.0 && e.h > 0.0
    ensures Aspect(canvas) > Aspect(video) ==> e.w == canvas.w
    ensures Aspect(canvas) <= Aspect(video) ==> e.h == canvas.h
  {
    var videoAspect := Aspect(video);
    if Aspect(canvas) > videoAspect then
      Extent(canvas.w, canvas.w * videoAspect)
    else
      assert canvas.h / videoAspect * videoAspect == canvas.h;
      Extent(canvas.h / videoAspect, canvas.h)
  }

  /**
   * The active source-to-canvas mapping. `Letterbox` is the landscape path
   * (`drawKeypoints`, `drawSkeletons`), given the letterbox rectangle;
   * `Rotated` is the portrait path (`drawKeypointsRotated`,
   * `drawSkeletonsRotated`), which reads the canvas size and the extent the
   * portrait branch assigned.
   */
  datatype Transform =
    | Letterbox(video: Size, rect: Rect)
    | Rotated(video: Size, canvas: Size, extent: Extent)
  {
    predicate Valid() { video.Positive() }
  }

  /** Landscape mapping: each axis remapped from the video frame into the rectangle. */
  function MapLetterbox(p: Point, video: Size, r: Rect): (q: Point)
    requires video.Positive()
    ensures p == Point(0.0, 0.0) ==> q == Point(r.x, r.y)
    ensures p == Point(video.w, video.h) ==> q == Point(r.x + r.w, r.y + r.h)
  {
    Point(Remap(p.x, 0.0, video.w, r.x, r.x + r.w),
          Remap(p.y, 0.0, video.h, r.y, r.y + r.h))
  }

  lemma LetterboxMonotone(p: Point, p': Point, video: Size, r: Rect)
    requires video.Positive() && r.w >= 0.0 && r.h >= 0.0
    requires p.x <= p'.x && p.y <= p'.y
    ensures MapLetterbox(p, video, r).x <= MapLetterbox(p', video, r).x
    ensures MapLetterbox(p, video, r).y <= MapLetterbox(p', video, r).y
  {
    RemapMonotone(p.x, p'.x, 0.0, video.w, r.x, r.x + r.w);
    RemapMonotone(p.y, p'.y, 0.0, video.h, r.y, r.y + r.h);
  }

  /**
   * Portrait mapping: swap the axes (`rotatedX = y`, `rotatedY = video.width - x`),
   * then remap `rotatedX` over `[0, video.width]` into the span of height
   * `videoHeight` centred on half the canvas height, and `rotatedY` over
   * `[0, video.height]` into the span of width `videoWidth` centred on half
   * the canvas width.
   */
  function MapRotated(p: Point, video: Size, canvas: Size, e: Extent): (q: Point)
    requires video.Positive()
    ensures p.y == 0.0 ==> q.x == (canvas.h - e.h) / 2.0
    ensures p.y == video.w ==> q.x == (canvas.h + e.h) / 2.0
    ensures p.x == video.w ==> q.y == (canvas.w - e.w) / 2.0
    ensures p.x == video.w - video.h ==> q.y == (canvas.w + e.w) / 2.0
  {
    var rotatedX := p.y;
    var rotatedY := video.w - p.x;
    Point(Remap(rotatedX, 0.0, video.w, (canvas.h - e.h) / 2.0, (canvas.h + e.h) / 2.0),
          Remap(rotatedY, 0.0, video.h, (canvas.w - e.w) / 2.0, (canvas.w + e.w) / 2.0))
  }

  /** The rotation turns video y into canvas x (increasing) and video x into canvas y (decreasing). */
  lemma RotatedMonotone(p: Point, p': Point, video: Size, canvas: Size, e: Extent)
    requires video.Positive() && e.w >= 0.0 && e.h >= 0.0
    requires p.x <= p'.x && p.y <= p'.y
    ensures MapRotated(p, video, canvas, e).x <= MapRotated(p', video, canvas, e).x
    ensures MapRotated(p', video, canvas, e).y <= MapRotated(p, video, canvas, e).y
  {
    RemapMonotone(p.y, p'.y, 0.0, video.w, (canvas.h - e.h) / 2.0, (canvas.h + e.h) / 2.0);
    RemapMonotone(video.w - p'.x, video.w - p.x, 0.0, video.h, (canvas.w - e.w) / 2.0, (canvas.w + e.w) / 2.0);
  }

  /**
   * Where a video-frame position is drawn under the active transform: the
   * landscape path sends the frame's corners to the rectangle's corners; the
   * portrait path sends video y = 0 to x = (canvas.h - extent.h) / 2 and
   * video x = video.w to y = (canvas.w - extent.w) / 2. These are not the
   * edges of the frame as `rotate(PI / 2)` draws it: the keypoint quarter
   * turn runs the other way, in a box centred on the swapped half-sizes.
   */
  function MapPoint(t: Transform, p: Point): (q: Point)
    requires t.Valid()
    ensures t.Letterbox? && p == Point(0.0, 0.0) ==> q == Point(t.rect.x, t.rect.y)
    ensures t.Letterbox? && p == Point(t.video.w, t.video.h) ==> q == Point(t.rect.x + t.rect.w, t.rect.y + t.rect.h)
    ensures t.Rotated? && p.y == 0.0 ==> q.x == (t.canvas.h - t.extent.h) / 2.0
    ensures t.Rotated? && p.x == t.video.w ==> q.y == (t.canvas.w - t.extent.w) / 2.0
  {
    match t
    case Letterbox(video, rect) => MapLetterbox(p, video, rect)
    case Rotated(video, canvas, extent) => MapRotated(p, video, canvas, extent)
  }
}
