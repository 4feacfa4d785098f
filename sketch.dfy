/**
 * The sketch's global state and the three operations that change it: the
 * pose callback, which appends to the history and filters it; the camera
 * switch; and `draw`, which assigns the video extent for the current
 * orientation and emits the keypoint pass followed by the skeleton pass.
 */
module Sketch {
  import opened Geometry
  import opened History
  import opened Render

  datatype Facing = User | Environment

  /** The video part of the constraints `setupCamera` passes to the capture. */
  datatype Constraints = Constraints(facingMode: Facing, idealWidth: int, idealHeight: int)

  /**
   * `setupCamera`'s choice of constraints: the facing mode follows the
   * front-camera flag, and a portrait window asks for a 720x1280 stream where
   * a landscape (or square) one asks for 1280x720.
   */
  function CaptureConstraints(innerWidth: int, innerHeight: int, usingFrontCamera: bool): (c: Constraints)
    ensures c.facingMode == User <==> usingFrontCamera
    ensures IsPortrait(innerWidth, innerHeight) <==> c.idealHeight > c.idealWidth
    ensures {c.idealWidth, c.idealHeight} == {720, 1280}
  {
    var facingMode := if usingFrontCamera then User else Environment;
    if IsPortrait(innerWidth, innerHeight) then Constraints(facingMode, 720, 1280)
    else Constraints(facingMode, 1280, 720)
  }

  /**
   * The transform `draw` resolves: rotated with the portrait extent when the
   * window is portrait, otherwise the centred letterbox rectangle.
   */
  function ActiveTransform(innerWidth: int, innerHeight: int, canvas: Size, video: Size): (t: Transform)
    requires canvas.Positive() && video.Positive()
    ensures t.Valid() && t.video == video
    ensures t.Rotated? <==> IsPortrait(innerWidth, innerHeight)
    ensures t.Rotated? ==> t.canvas == canvas && t.extent.h == t.extent.w * Aspect(video)
    ensures t.Letterbox? ==> t.rect.w == t.rect.h * Aspect(video)
    ensures t.Letterbox? ==> 2.0 * t.rect.x + t.rect.w == canvas.w && 2.0 * t.rect.y + t.rect.h == canvas.h
  {
    if IsPortrait(innerWidth, innerHeight) then Rotated(video, canvas, PortraitFit(canvas, video))
    else Letterbox(video, LandscapeFit(canvas, video))
  }

  class SketchState {
    /** The latest results of the pose model. */
    var poses: seq<Pose>
    /** The trail: every callback's results with their time, oldest first. */
    var poseHistory: seq<Snapshot>
    var usingFrontCamera: bool
    /** The keypoint threshold, read afresh by every `Draw`. */
    var confidenceLevel: real
    /** The extent the last `Draw` fitted the video into. */
    var videoWidth: real
    var videoHeight: real
    /** The time of the last pose callback. */
    ghost var lastPoseTime: int

    /**
     * As of the last callback, no entry of the trail is older than the window,
     * and none is stamped after it.
     */
    ghost predicate Valid()
      reads this
    {
      forall e :: e in poseHistory ==> e.timestamp <= lastPoseTime && Live(e, lastPoseTime)
    }

    constructor ()
      ensures Valid()
      ensures poses == [] && poseHistory == []
      ensures !usingFrontCamera && confidenceLevel == 0.9
    {
      poses := [];
      poseHistory := [];
      usingFrontCamera := false;
      confidenceLevel := 0.9;
      videoWidth, videoHeight := 0.0, 0.0;
      lastPoseTime := 0;
    }

    /**
     * The pose callback at time `now`: remember the results, push them with
     * their timestamp, then keep only the entries at most 2000 ms old. The
     * clock does not run backwards between callbacks.
     */
    method OnPose(results: seq<Pose>, now: int)
      requires Valid() && now >= lastPoseTime
      modifies this`poses, this`poseHistory, this`lastPoseTime
      ensures Valid() && lastPoseTime == now
      ensures poses == results
      // the push-then-filter of the callback as written, and what it amounts to
      ensures poseHistory == Prune(old(poseHistory) + [Snapshot(results, now)], now)
      ensures poseHistory == Prune(old(poseHistory), now) + [Snapshot(results, now)]
      ensures poseHistory[|poseHistory| - 1] == Snapshot(results, now)
    {
      poses := results;
      poseHistory := poseHistory + [Snapshot(results, now)];
      poseHistory := Prune(poseHistory, now);
      lastPoseTime := now;
      PushThenPrune(old(poseHistory), results, now);
    }

    /** `switchCamera`: flip the facing flag and ask for a stream with the new constraints. */
    method SwitchCamera(innerWidth: int, innerHeight: int) returns (c: Constraints)
      requires Valid()
      modifies this`usingFrontCamera
      ensures Valid()
      ensures usingFrontCamera == !old(usingFrontCamera)
      ensures c == CaptureConstraints(innerWidth, innerHeight, usingFrontCamera)
      ensures c.facingMode == User <==> !old(usingFrontCamera)
    {
      usingFrontCamera := !usingFrontCamera;
      c := CaptureConstraints(innerWidth, innerHeight, usingFrontCamera);
    }

    /**
     * One display tick at time `now`: assign the video extent for the current
     * orientation, then draw the keypoint pass and the skeleton pass over the
     * whole history. The history is not filtered here, so only a tick at the
     * time of the last callback is sure to draw age factors within [0, 1].
     */
    method Draw(now: int, innerWidth: int, innerHeight: int, canvas: Size, video: Size) returns (cmds: seq<Cmd>)
      requires Valid()
      requires canvas.Positive() && video.Positive()
      modifies this`videoWidth, this`videoHeight
      ensures Valid()
      ensures IsPortrait(innerWidth, innerHeight) ==>
        videoWidth == PortraitFit(canvas, video).w && videoHeight == PortraitFit(canvas, video).h
      ensures !IsPortrait(innerWidth, innerHeight) ==>
        videoWidth == LandscapeFit(canvas, video).w && videoHeight == LandscapeFit(canvas, video).h
      ensures cmds ==
        HistoryGlyphs(poseHistory, now, confidenceLevel, ActiveTransform(innerWidth, innerHeight, canvas, video)) +
        HistoryLines(poseHistory, now, ActiveTransform(innerWidth, innerHeight, canvas, video))
      ensures now == lastPoseTime ==> forall c :: c in cmds && !c.Dot? ==> 0.0 <= c.age <= 1.0
    {
      var t: Transform;
      if IsPortrait(innerWidth, innerHeight) {
        var extent := PortraitFit(canvas, video);
        videoWidth, videoHeight := extent.w, extent.h;
        t := Rotated(video, canvas, Extent(videoWidth, videoHeight));
      } else {
        var fit := LandscapeFit(canvas, video);
        videoWidth, videoHeight := fit.w, fit.h;
        t := Letterbox(video, fit);
      }
      var glyphs := DrawKeypoints(poseHistory, now, confidenceLevel, t);
      var lines := DrawSkeletons(poseHistory, now, t);
      cmds := glyphs + lines;
      if now == lastPoseTime {
        forall c | c in cmds && !c.Dot?
          ensures 0.0 <= c.age <= 1.0
        {
          FreshTrailAges(poseHistory, now, confidenceLevel, t, c);
        }
      }
    }
  }

  /**
   * Entries are filtered only when a callback arrives, never by a tick. With
   * one nose keypoint (score 0.95) stamped 0 and another stamped 500, a
   * callback at 2100 would drop the first entry; a tick at 2100 with no
   * callback since still draws both, the first with an age factor of 1.05.
   */
  lemma StaleEntryStillDrawn(t: Transform)
    requires t.Valid()
    ensures var nose := Keypoint("nose", Point(10.0, 20.0), 0.95);
      var first := Snapshot([Pose([nose], [])], 0);
      var second := Snapshot([Pose([nose], [])], 500);
      var drawn := HistoryGlyphs([first, second], 2100, 0.9, t);
      && Prune([first, second], 2100) == [second]
      && |drawn| == 2
      && drawn[0] == Glyph(Nose, MapPoint(t, nose.position), 1.05)
      && drawn[1] == Glyph(Nose, MapPoint(t, nose.position), 0.8)
  {
    var nose := Keypoint("nose", Point(10.0, 20.0), 0.95);
    var first := Snapshot([Pose([nose], [])], 0);
    var second := Snapshot([Pose([nose], [])], 500);
    var h := [first, second];
    var pose := Pose([nose], []);
    assert KindOf(nose.part) == Nose;
    assert [nose][..0] == [] && [pose][..0] == [];
    assert KeypointsGlyphs([nose], 0.9, 1.05, t) == [Glyph(Nose, MapPoint(t, nose.position), 1.05)];
    assert KeypointsGlyphs([nose], 0.9, 0.8, t) == [Glyph(Nose, MapPoint(t, nose.position), 0.8)];
    assert PosesGlyphs([pose], 0.9, 1.05, t) == [Glyph(Nose, MapPoint(t, nose.position), 1.05)];
    assert PosesGlyphs([pose], 0.9, 0.8, t) == [Glyph(Nose, MapPoint(t, nose.position), 0.8)];
    assert h[..1] == [first] && h[..1][..0] == [];
    assert AgeFactor(2100, 0) == 1.05 && AgeFactor(2100, 500) == 0.8;
    assert HistoryGlyphs(h[..1], 2100, 0.9, t) == [Glyph(Nose, MapPoint(t, nose.position), 1.05)];
  }
}
