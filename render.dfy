/**
 * The per-tick drawing passes over the pose history, as lists of abstract
 * draw commands: one glyph per confident keypoint, one line per skeleton
 * edge. Lines and the eye, nose and ear glyphs carry the age factor of their
 * history entry; the plain red dot is drawn without it.
 */
module Render {
  import opened Geometry
  import opened History

  /** The keypoint glyphs: `drawEye`, `drawNose`, `drawEar`, and the plain red dot for any other part. */
  datatype GlyphKind = Eye | Nose | Ear | Other

  /**
   * What one drawing call puts on the canvas. `Glyph` is a call of `drawEye`,
   * `drawNose` or `drawEar`, which receive the age factor; `Dot` is the red
   * 5-pixel ellipse, which does not fade; `Line` is one skeleton edge, whose
   * colour the pose index selects and the age factor fades.
   */
  datatype Cmd =
    | Glyph(kind: GlyphKind, at: Point, age: real)
    | Dot(at: Point)
    | Line(from: Point, to: Point, age: real, poseIndex: nat)

  /** The glyph chosen by part name. */
  function KindOf(part: string): (k: GlyphKind)
    ensures k == Eye <==> part == "leftEye" || part == "rightEye"
    ensures k == Nose <==> part == "nose"
    ensures k == Ear <==> part == "leftEar" || part == "rightEar"
  {
    if part == "leftEye" || part == "rightEye" then Eye
    else if part == "nose" then Nose
    else if part == "leftEar" || part == "rightEar" then Ear
    else Other
  }

  /** The drawing call for a glyph kind: the feature glyphs fade with `age`, the red dot ignores it. */
  function Marker(kind: GlyphKind, at: Point, age: real): (c: Cmd)
    ensures c.Glyph? || c.Dot?
    ensures c.at == at
    ensures c.Dot? <==> kind == Other
    ensures c.Glyph? ==> c.kind == kind && c.age == age
  {
    if kind == Other then Dot(at) else Glyph(kind, at, age)
  }

  // ---------------------------------------------------------------------------
  // Specification of the keypoint passes (drawKeypoints, drawKeypointsRotated).
  // Each level appends the last element's commands to those of the prefix, in
  // the order the loops produce them.
  // ---------------------------------------------------------------------------

  /** The glyph of one keypoint, kept only when its score is above the threshold. */
  function KeypointGlyph(k: Keypoint, conf: real, age: real, t: Transform): seq<Cmd>
    requires t.Valid()
  {
    if k.score > conf then [Marker(KindOf(k.part), MapPoint(t, k.position), age)] else []
  }

  function KeypointsGlyphs(kps: seq<Keypoint>, conf: real, age: real, t: Transform): (r: seq<Cmd>)
    requires t.Valid()
    ensures forall c :: c in r ==> c.Glyph? || c.Dot?
    decreases |kps|
  {
    if kps == [] then []
    else KeypointsGlyphs(kps[..|kps| - 1], conf, age, t) + KeypointGlyph(kps[|kps| - 1], conf, age, t)
  }

  function PosesGlyphs(poses: seq<Pose>, conf: real, age: real, t: Transform): (r: seq<Cmd>)
    requires t.Valid()
    ensures forall c :: c in r ==> c.Glyph? || c.Dot?
    decreases |poses|
  {
    if poses == [] then []
    else PosesGlyphs(poses[..|poses| - 1], conf, age, t) + KeypointsGlyphs(poses[|poses| - 1].keypoints, conf, age, t)
  }

  /** The keypoint pass draws glyphs and dots only, never a line. */
  function HistoryGlyphs(h: seq<Snapshot>, now: int, conf: real, t: Transform): (r: seq<Cmd>)
    requires t.Valid()
    ensures forall c :: c in r ==> c.Glyph? || c.Dot?
    decreases |h|
  {
    if h == [] then []
    else
      var e := h[|h| - 1];
      HistoryGlyphs(h[..|h| - 1], now, conf, t) + PosesGlyphs(e.poses, conf, AgeFactor(now, e.timestamp), t)
  }

  // ---------------------------------------------------------------------------
  // Specification of the skeleton passes (drawSkeletons, drawSkeletonsRotated).
  // ---------------------------------------------------------------------------

  /** The line of one edge: both endpoints mapped exactly as keypoints are. */
  function EdgeLine(e: Edge, age: real, poseIndex: nat, t: Transform): Cmd
    requires t.Valid()
  {
    Line(MapPoint(t, e.a.position), MapPoint(t, e.b.position), age, poseIndex)
  }

  function EdgesLines(edges: seq<Edge>, age: real, poseIndex: nat, t: Transform): (r: seq<Cmd>)
    requires t.Valid()
    ensures forall c :: c in r ==> c.Line?
    decreases |edges|
  {
    if edges == [] then []
    else EdgesLines(edges[..|edges| - 1], age, poseIndex, t) + [EdgeLine(edges[|edges| - 1], age, poseIndex, t)]
  }

  /** The lines of the poses of one entry; the pose's index selects its colour. */
  function PosesLines(poses: seq<Pose>, age: real, t: Transform): (r: seq<Cmd>)
    requires t.Valid()
    ensures forall c :: c in r ==> c.Line?
    decreases |poses|
  {
    if poses == [] then []
    else PosesLines(poses[..|poses| - 1], age, t) + EdgesLines(poses[|poses| - 1].skeleton, age, |poses| - 1, t)
  }

  /** The skeleton pass draws lines only. */
  function HistoryLines(h: seq<Snapshot>, now: int, t: Transform): (r: seq<Cmd>)
    requires t.Valid()
    ensures forall c :: c in r ==> c.Line?
    decreases |h|
  {
    if h == [] then []
    else
      var e := h[|h| - 1];
      HistoryLines(h[..|h| - 1], now, t) + PosesLines(e.poses, AgeFactor(now, e.timestamp), t)
  }

  // ---------------------------------------------------------------------------
  // The drawing passes, as the source's triple loops.
  // ---------------------------------------------------------------------------

  /**
   * The keypoint pass over history, poses and keypoints: a glyph for every
   * keypoint whose score is above `conf`, aged by its entry.
   */
  method DrawKeypoints(history: seq<Snapshot>, now: int, conf: real, t: Transform) returns (cmds: seq<Cmd>)
    requires t.Valid()
    ensures cmds == HistoryGlyphs(history, now, conf, t)
  {
    cmds := [];
    for n := 0 to |history|
      invariant cmds == HistoryGlyphs(history[..n], now, conf, t)
    {
      var entry := history[n];
      var ageFactor := AgeFactor(now, entry.timestamp);
      var glyphs := DrawPosesKeypoints(entry.poses, conf, ageFactor, t);
      cmds := cmds + glyphs;
      assert history[..n + 1][..n] == history[..n];
    }
    assert history[..|history|] == history;
  }

  /** The middle loop of the keypoint pass: the poses of one history entry. */
  method DrawPosesKeypoints(poses: seq<Pose>, conf: real, ageFactor: real, t: Transform) returns (cmds: seq<Cmd>)
    requires t.Valid()
    ensures cmds == PosesGlyphs(poses, conf, ageFactor, t)
  {
    cmds := [];
    for i := 0 to |poses|
      invariant cmds == PosesGlyphs(poses[..i], conf, ageFactor, t)
    {
      var glyphs := DrawKeypointList(poses[i].keypoints, conf, ageFactor, t);
      cmds := cmds + glyphs;
      assert poses[..i + 1][..i] == poses[..i];
    }
    assert poses[..|poses|] == poses;
  }

  /** The inner loop of the keypoint pass: the keypoints of one pose. */
  method DrawKeypointList(keypoints: seq<Keypoint>, conf: real, ageFactor: real, t: Transform) returns (cmds: seq<Cmd>)
    requires t.Valid()
    ensures cmds == KeypointsGlyphs(keypoints, conf, ageFactor, t)
  {
    cmds := [];
    for j := 0 to |keypoints|
      invariant cmds == KeypointsGlyphs(keypoints[..j], conf, ageFactor, t)
    {
      var keypoint := keypoints[j];
      if keypoint.score > conf {
        var at := MapPoint(t, keypoint.position);
        var kind := KindOf(keypoint.part);
        if kind == Other {
          cmds := cmds + [Dot(at)];
        } else {
          cmds := cmds + [Glyph(kind, at, ageFactor)];
        }
      }
      assert keypoints[..j + 1][..j] == keypoints[..j];
    }
    assert keypoints[..|keypoints|] == keypoints;
  }

  /** The skeleton pass: a line for every edge of every pose, whatever the scores. */
  method DrawSkeletons(history: seq<Snapshot>, now: int, t: Transform) returns (cmds: seq<Cmd>)
    requires t.Valid()
    ensures cmds == HistoryLines(history, now, t)
  {
    cmds := [];
    for n := 0 to |history|
      invariant cmds == HistoryLines(history[..n], now, t)
    {
      var entry := history[n];
      var ageFactor := AgeFactor(now, entry.timestamp);
      var lines := DrawPosesSkeletons(entry.poses, ageFactor, t);
      cmds := cmds + lines;
      assert history[..n + 1][..n] == history[..n];
    }
    assert history[..|history|] == history;
  }

  /** The middle loop of the skeleton pass: pose `i` draws in the colour of index `i`. */
  method DrawPosesSkeletons(poses: seq<Pose>, ageFactor: real, t: Transform) returns (cmds: seq<Cmd>)
    requires t.Valid()
    ensures cmds == PosesLines(poses, ageFactor, t)
  {
    cmds := [];
    for i := 0 to |poses|
      invariant cmds == PosesLines(poses[..i], ageFactor, t)
    {
      var lines := DrawEdgeList(poses[i].skeleton, ageFactor, i, t);
      cmds := cmds + lines;
      assert poses[..i + 1][..i] == poses[..i];
    }
    assert poses[..|poses|] == poses;
  }

  /** The inner loop of the skeleton pass: both endpoints of each edge mapped. */
  method DrawEdgeList(skeleton: seq<Edge>, ageFactor: real, poseIndex: nat, t: Transform) returns (cmds: seq<Cmd>)
    requires t.Valid()
    ensures cmds == EdgesLines(skeleton, ageFactor, poseIndex, t)
  {
    cmds := [];
    for j := 0 to |skeleton|
      invariant cmds == EdgesLines(skeleton[..j], ageFactor, poseIndex, t)
    {
      var from := MapPoint(t, skeleton[j].a.position);
      var to := MapPoint(t, skeleton[j].b.position);
      cmds := cmds + [Line(from, to, ageFactor, poseIndex)];
      assert skeleton[..j + 1][..j] == skeleton[..j];
    }
    assert skeleton[..|skeleton|] == skeleton;
  }

  // ---------------------------------------------------------------------------
  // What the passes draw: counts, membership and ages.
  // ---------------------------------------------------------------------------

  /** Positions of the keypoints whose score is strictly above the threshold. */
  function Confident(kps: seq<Keypoint>, conf: real): set<int>
  {
    set j | 0 <= j < |kps| && kps[j].score > conf
  }

  /** Number of confident keypoints over the poses of an entry. */
  function PosesConfident(poses: seq<Pose>, conf: real): nat
  {
    if poses == [] then 0
    else PosesConfident(poses[..|poses| - 1], conf) + |Confident(poses[|poses| - 1].keypoints, conf)|
  }

  /** Number of confident keypoints over a whole history. */
  function HistoryConfident(h: seq<Snapshot>, conf: real): nat
  {
    if h == [] then 0
    else HistoryConfident(h[..|h| - 1], conf) + PosesConfident(h[|h| - 1].poses, conf)
  }

  /** Number of skeleton edges over the poses of an entry. */
  function PosesEdges(poses: seq<Pose>): nat
  {
    if poses == [] then 0 else PosesEdges(poses[..|poses| - 1]) + |poses[|poses| - 1].skeleton|
  }

  /** Number of skeleton edges over a whole history. */
  function HistoryEdges(h: seq<Snapshot>): nat
  {
    if h == [] then 0 else HistoryEdges(h[..|h| - 1]) + PosesEdges(h[|h| - 1].poses)
  }

  /** One glyph per keypoint whose score is strictly above the threshold. */
  lemma {:induction false} KeypointsGlyphsCount(kps: seq<Keypoint>, conf: real, age: real, t: Transform)
    requires t.Valid()
    ensures |KeypointsGlyphs(kps, conf, age, t)| == |Confident(kps, conf)|
  {
    if kps != [] {
      var n := |kps| - 1;
      var prefix := kps[..n];
      KeypointsGlyphsCount(prefix, conf, age, t);
      var prev := Confident(prefix, conf);
      var all := Confident(kps, conf);
      forall j | 0 <= j < n
        ensures j in prev <==> j in all
      {
        assert prefix[j] == kps[j];
      }
      assert n !in prev;
      if kps[n].score > conf {
        assert all == prev + {n};
      } else {
        assert all == prev;
      }
    }
  }

  /** The keypoint pass draws exactly as many glyphs as there are confident keypoints in the history. */
  lemma {:induction false} HistoryGlyphsCount(h: seq<Snapshot>, now: int, conf: real, t: Transform)
    requires t.Valid()
    ensures |HistoryGlyphs(h, now, conf, t)| == HistoryConfident(h, conf)
  {
    if h != [] {
      var e := h[|h| - 1];
      HistoryGlyphsCount(h[..|h| - 1], now, conf, t);
      PosesGlyphsCount(e.poses, conf, AgeFactor(now, e.timestamp), t);
    }
  }

  lemma {:induction false} PosesGlyphsCount(poses: seq<Pose>, conf: real, age: real, t: Transform)
    requires t.Valid()
    ensures |PosesGlyphs(poses, conf, age, t)| == PosesConfident(poses, conf)
  {
    if poses != [] {
      PosesGlyphsCount(poses[..|poses| - 1], conf, age, t);
      KeypointsGlyphsCount(poses[|poses| - 1].keypoints, conf, age, t);
    }
  }

  /** Raising the threshold never raises the number of marks the keypoint pass draws. */
  lemma {:induction false} ThresholdMonotone(h: seq<Snapshot>, conf: real, conf': real)
    requires conf <= conf'
    ensures HistoryConfident(h, conf') <= HistoryConfident(h, conf)
  {
    if h != [] {
      ThresholdMonotone(h[..|h| - 1], conf, conf');
      PosesThresholdMonotone(h[|h| - 1].poses, conf, conf');
    }
  }

  lemma {:induction false} PosesThresholdMonotone(poses: seq<Pose>, conf: real, conf': real)
    requires conf <= conf'
    ensures PosesConfident(poses, conf') <= PosesConfident(poses, conf)
  {
    if poses != [] {
      PosesThresholdMonotone(poses[..|poses| - 1], conf, conf');
      var kps := poses[|poses| - 1].keypoints;
      assert Confident(kps, conf') <= Confident(kps, conf);
      SubsetCard(Confident(kps, conf'), Confident(kps, conf));
    }
  }

  lemma {:induction false} SubsetCard(a: set<int>, b: set<int>)
    requires a <= b
    ensures |a| <= |b|
  {
    assert b == a + (b - a);
  }

  /**
   * The glyph for `c` comes from a keypoint of the list that clears the
   * threshold, and every such keypoint yields its glyph: a keypoint is drawn
   * iff its score is strictly above the threshold.
   */
  lemma {:induction false} KeypointsGlyphsMembers(kps: seq<Keypoint>, conf: real, age: real, t: Transform, c: Cmd)
    requires t.Valid()
    ensures c in KeypointsGlyphs(kps, conf, age, t) <==>
      exists k :: k in kps && k.score > conf && c == Marker(KindOf(k.part), MapPoint(t, k.position), age)
  {
    if kps != [] {
      var n := |kps| - 1;
      KeypointsGlyphsMembers(kps[..n], conf, age, t, c);
      assert kps == kps[..n] + [kps[n]];
    }
  }

  lemma {:induction false} PosesGlyphsMembers(poses: seq<Pose>, conf: real, age: real, t: Transform, c: Cmd)
    requires t.Valid()
    ensures c in PosesGlyphs(poses, conf, age, t) <==>
      exists p :: p in poses && c in KeypointsGlyphs(p.keypoints, conf, age, t)
  {
    if poses != [] {
      var n := |poses| - 1;
      PosesGlyphsMembers(poses[..n], conf, age, t, c);
      assert poses == poses[..n] + [poses[n]];
    }
  }

  lemma {:induction false} HistoryGlyphsMembers(h: seq<Snapshot>, now: int, conf: real, t: Transform, c: Cmd)
    requires t.Valid()
    ensures c in HistoryGlyphs(h, now, conf, t) <==>
      exists e :: e in h && c in PosesGlyphs(e.poses, conf, AgeFactor(now, e.timestamp), t)
  {
    if h != [] {
      var n := |h| - 1;
      HistoryGlyphsMembers(h[..n], now, conf, t, c);
      assert h == h[..n] + [h[n]];
    }
  }

  /** `c` is the glyph of a confident keypoint of a pose of entry `e`, aged by `e`. */
  ghost predicate GlyphOf(c: Cmd, h: seq<Snapshot>, now: int, conf: real, t: Transform)
    requires t.Valid()
  {
    exists e, p, k :: e in h && p in e.poses && k in p.keypoints && k.score > conf &&
      c == Marker(KindOf(k.part), MapPoint(t, k.position), AgeFactor(now, e.timestamp))
  }

  /**
   * The keypoint pass draws exactly the glyphs of the confident keypoints of
   * the history, each at its mapped position and with its entry's age factor.
   */
  lemma HistoryGlyphsExactly(h: seq<Snapshot>, now: int, conf: real, t: Transform, c: Cmd)
    requires t.Valid()
    ensures c in HistoryGlyphs(h, now, conf, t) <==> GlyphOf(c, h, now, conf, t)
  {
    HistoryGlyphsMembers(h, now, conf, t, c);
    if c in HistoryGlyphs(h, now, conf, t) {
      var e :| e in h && c in PosesGlyphs(e.poses, conf, AgeFactor(now, e.timestamp), t);
      PosesGlyphsMembers(e.poses, conf, AgeFactor(now, e.timestamp), t, c);
      var p :| p in e.poses && c in KeypointsGlyphs(p.keypoints, conf, AgeFactor(now, e.timestamp), t);
      KeypointsGlyphsMembers(p.keypoints, conf, AgeFactor(now, e.timestamp), t, c);
    }
    if GlyphOf(c, h, now, conf, t) {
      var e, p, k :| e in h && p in e.poses && k in p.keypoints && k.score > conf &&
        c == Marker(KindOf(k.part), MapPoint(t, k.position), AgeFactor(now, e.timestamp));
      KeypointsGlyphsMembers(p.keypoints, conf, AgeFactor(now, e.timestamp), t, c);
      PosesGlyphsMembers(e.poses, conf, AgeFactor(now, e.timestamp), t, c);
    }
  }

  /** Every mark drawn at a threshold is also drawn at any lower threshold. */
  lemma ThresholdContainment(h: seq<Snapshot>, now: int, conf: real, conf': real, t: Transform, c: Cmd)
    requires t.Valid() && conf <= conf'
    ensures c in HistoryGlyphs(h, now, conf', t) ==> c in HistoryGlyphs(h, now, conf, t)
  {
    if c in HistoryGlyphs(h, now, conf', t) {
      HistoryGlyphsExactly(h, now, conf', t, c);
      var e, p, k :| e in h && p in e.poses && k in p.keypoints && k.score > conf' &&
        c == Marker(KindOf(k.part), MapPoint(t, k.position), AgeFactor(now, e.timestamp));
      assert GlyphOf(c, h, now, conf, t);
      HistoryGlyphsExactly(h, now, conf, t, c);
    }
  }

  /** Edge `j` of a pose yields line `j`, both endpoints mapped as keypoints are. */
  lemma {:induction false} EdgesLinesAt(edges: seq<Edge>, age: real, poseIndex: nat, t: Transform)
    requires t.Valid()
    ensures |EdgesLines(edges, age, poseIndex, t)| == |edges|
    ensures forall j :: 0 <= j < |edges| ==>
      EdgesLines(edges, age, poseIndex, t)[j] ==
        Line(MapPoint(t, edges[j].a.position), MapPoint(t, edges[j].b.position), age, poseIndex)
  {
    if edges != [] {
      EdgesLinesAt(edges[..|edges| - 1], age, poseIndex, t);
    }
  }

  /** The skeleton pass draws one line per edge over the whole history, whatever the scores. */
  lemma {:induction false} HistoryLinesCount(h: seq<Snapshot>, now: int, t: Transform)
    requires t.Valid()
    ensures |HistoryLines(h, now, t)| == HistoryEdges(h)
  {
    if h != [] {
      var e := h[|h| - 1];
      HistoryLinesCount(h[..|h| - 1], now, t);
      PosesLinesCount(e.poses, AgeFactor(now, e.timestamp), t);
    }
  }

  lemma {:induction false} PosesLinesCount(poses: seq<Pose>, age: real, t: Transform)
    requires t.Valid()
    ensures |PosesLines(poses, age, t)| == PosesEdges(poses)
  {
    if poses != [] {
      PosesLinesCount(poses[..|poses| - 1], age, t);
      EdgesLinesAt(poses[|poses| - 1].skeleton, age, |poses| - 1, t);
    }
  }

  /** Every line of an entry's poses carries that entry's age and a valid pose index. */
  lemma {:induction false} PosesLinesAged(poses: seq<Pose>, age: real, t: Transform)
    requires t.Valid()
    ensures forall c :: c in PosesLines(poses, age, t) ==> c.Line? && c.age == age && c.poseIndex < |poses|
  {
    if poses != [] {
      var n := |poses| - 1;
      PosesLinesAged(poses[..n], age, t);
      EdgesLinesAt(poses[n].skeleton, age, n, t);
    }
  }

  /** Every line of the skeleton pass carries the age factor of some history entry. */
  lemma {:induction false} HistoryLinesAged(h: seq<Snapshot>, now: int, t: Transform, c: Cmd)
    requires t.Valid()
    requires c in HistoryLines(h, now, t)
    ensures c.Line? && exists e :: e in h && c.age == AgeFactor(now, e.timestamp) && c.poseIndex < |e.poses|
  {
    var n := |h| - 1;
    if c in HistoryLines(h[..n], now, t) {
      HistoryLinesAged(h[..n], now, t, c);
      var e :| e in h[..n] && c.age == AgeFactor(now, e.timestamp) && c.poseIndex < |e.poses|;
      assert e in h;
    } else {
      PosesLinesAged(h[n].poses, AgeFactor(now, h[n].timestamp), t);
      assert h[n] in h;
    }
  }

  /**
   * Right after a pose callback at `now` every entry is at most `Window` ms
   * old, so every fading glyph and every line drawn at that same `now` has an
   * age factor in [0, 1]. At later ticks the code does not clamp it. The red
   * dot carries no age factor at all.
   */
  lemma FreshTrailAges(h: seq<Snapshot>, now: int, conf: real, t: Transform, c: Cmd)
    requires t.Valid()
    requires forall e :: e in h ==> e.timestamp <= now && Live(e, now)
    requires c in HistoryGlyphs(h, now, conf, t) || c in HistoryLines(h, now, t)
    ensures !c.Dot? ==> 0.0 <= c.age <= 1.0
  {
    if c in HistoryGlyphs(h, now, conf, t) {
      HistoryGlyphsExactly(h, now, conf, t, c);
    } else {
      HistoryLinesAged(h, now, t, c);
    }
  }
}
