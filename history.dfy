/**
 * Pose detection results and the time-windowed history of them: the entries
 * `{poses, timestamp}` the pose callback appends, the 2000 ms filter applied
 * after each append, and the age factor each drawing pass derives from them.
 */
module History {
  import opened Geometry

  /** A detected body landmark: part name, position in video pixels, confidence. */
  datatype Keypoint = Keypoint(part: string, position: Point, score: real)

  /** A bone of the skeleton, `[partA, partB]`. */
  datatype Edge = Edge(a: Keypoint, b: Keypoint)

  /** One detected person: `{pose: {keypoints}, skeleton}`. */
  datatype Pose = Pose(keypoints: seq<Keypoint>, skeleton: seq<Edge>)

  /** One history entry: the results of one pose callback and its time in milliseconds. */
  datatype Snapshot = Snapshot(poses: seq<Pose>, timestamp: int)

  /** The trail length in milliseconds. */
  const Window: int := 2000

  /** An entry survives the filter at `now` when it is at most `Window` ms old. */
  predicate Live(s: Snapshot, now: int)
  {
    now - s.timestamp <= Window
  }

  /** `ageFactor = (now - timestamp) / 2000`, not clamped. */
  function AgeFactor(now: int, timestamp: int): (f: real)
    ensures timestamp <= now ==> f >= 0.0
    ensures f <= 1.0 <==> now - timestamp <= Window
  {
    (now - timestamp) as real / Window as real
  }

  /** For a fixed entry, the age factor never decreases as time goes on. */
  lemma AgeFactorMonotone(now: int, later: int, timestamp: int)
    requires now <= later
    ensures AgeFactor(now, timestamp) <= AgeFactor(later, timestamp)
  {
  }

  /** `poseHistory.filter(entry => now - entry.timestamp <= 2000)`. */
  function Prune(h: seq<Snapshot>, now: int): (r: seq<Snapshot>)
    ensures |r| <= |h|
    ensures forall i :: 0 <= i < |r| ==> Live(r[i], now)
    ensures forall s :: s in r ==> s in h
  {
    if h == [] then []
    else (if Live(h[0], now) then [h[0]] else []) + Prune(h[1..], now)
  }

  /** The filter distributes over concatenation: it works entry by entry. */
  lemma {:induction false} PruneAppend(a: seq<Snapshot>, b: seq<Snapshot>, now: int)
    ensures Prune(a + b, now) == Prune(a, now) + Prune(b, now)
  {
    if a == [] {
      assert a + b == b;
    } else {
      assert (a + b)[1..] == a[1..] + b;
      PruneAppend(a[1..], b, now);
    }
  }

  /** Filtering again at the same `now` changes nothing. */
  lemma {:induction false} PruneIdempotent(h: seq<Snapshot>, now: int)
    ensures Prune(Prune(h, now), now) == Prune(h, now)
  {
    if h != [] {
      PruneIdempotent(h[1..], now);
      if Live(h[0], now) {
        var r := Prune(h, now);
        assert r == [h[0]] + Prune(h[1..], now);
        assert r[0] == h[0] && r[1..] == Prune(h[1..], now);
        assert Prune(r, now) == [h[0]] + Prune(r[1..], now);
      } else {
        assert Prune(h, now) == Prune(h[1..], now);
      }
    }
  }

  /**
   * Exactly the expired entries are dropped: every live entry keeps all its
   * occurrences, and no expired entry remains.
   */
  lemma {:induction false} PruneMultiplicity(h: seq<Snapshot>, now: int, s: Snapshot)
    ensures multiset(Prune(h, now))[s] == if Live(s, now) then multiset(h)[s] else 0
  {
    if h != [] {
      PruneMultiplicity(h[1..], now, s);
      assert h == [h[0]] + h[1..];
      assert multiset(h) == multiset([h[0]]) + multiset(h[1..]);
    }
  }

  /**
   * `idx` lists, in increasing order, the positions of `h` that `r` keeps:
   * `r` is the subsequence of `h` at those positions.
   */
  ghost predicate Embeds(r: seq<Snapshot>, h: seq<Snapshot>, idx: seq<int>)
  {
    && |idx| == |r|
    && (forall k :: 0 <= k < |idx| ==> 0 <= idx[k] < |h| && r[k] == h[idx[k]])
    && (forall k, l :: 0 <= k < l < |idx| ==> idx[k] < idx[l])
  }

  /**
   * The filter keeps the relative order of the surviving entries, and the
   * positions it keeps are exactly those of the live entries.
   */
  lemma {:induction false} PruneKeepsOrder(h: seq<Snapshot>, now: int) returns (idx: seq<int>)
    ensures Embeds(Prune(h, now), h, idx)
    ensures forall i :: 0 <= i < |h| ==> (i in idx <==> Live(h[i], now))
  {
    if h == [] {
      idx := [];
    } else {
      var rest := PruneKeepsOrder(h[1..], now);
      var tail := Prune(h[1..], now);
      var shifted := ShiftEmbedding(h, tail, rest);
      ShiftedPositions(h, rest, shifted, now);
      if Live(h[0], now) {
        assert Prune(h, now) == [h[0]] + tail;
        idx := [0] + shifted;
        ConsEmbedding(h, tail, shifted);
        assert forall i :: 1 <= i < |h| ==> (i in idx <==> i in shifted);
      } else {
        assert Prune(h, now) == tail;
        idx := shifted;
      }
    }
  }

  /** Lifts the positions kept in `h[1..]` to the same entries' positions in `h`. */
  lemma ShiftEmbedding(h: seq<Snapshot>, tail: seq<Snapshot>, rest: seq<int>) returns (shifted: seq<int>)
    requires h != [] && Embeds(tail, h[1..], rest)
    ensures |shifted| == |rest| && forall k :: 0 <= k < |rest| ==> shifted[k] == rest[k] + 1
    ensures Embeds(tail, h, shifted)
  {
    shifted := seq(|rest|, k requires 0 <= k < |rest| => rest[k] + 1);
    forall k | 0 <= k < |shifted|
      ensures 0 <= shifted[k] < |h| && tail[k] == h[shifted[k]]
    {
      assert h[1..][rest[k]] == h[rest[k] + 1];
    }
  }

  lemma ShiftedPositions(h: seq<Snapshot>, rest: seq<int>, shifted: seq<int>, now: int)
    requires h != []
    requires forall i :: 0 <= i < |h| - 1 ==> (i in rest <==> Live(h[1..][i], now))
    requires |shifted| == |rest| && forall k :: 0 <= k < |rest| ==> shifted[k] == rest[k] + 1
    requires forall k :: 0 <= k < |rest| ==> 0 <= rest[k]
    ensures 0 !in shifted
    ensures forall i :: 1 <= i < |h| ==> (i in shifted <==> Live(h[i], now))
  {
    forall i | 1 <= i < |h|
      ensures i in shifted <==> Live(h[i], now)
    {
      assert h[1..][i - 1] == h[i];
      if i - 1 in rest {
        var k :| 0 <= k < |rest| && rest[k] == i - 1;
        assert shifted[k] == i;
      }
      if i in shifted {
        var k :| 0 <= k < |shifted| && shifted[k] == i;
        assert rest[k] == i - 1;
      }
    }
  }

  lemma ConsEmbedding(h: seq<Snapshot>, tail: seq<Snapshot>, shifted: seq<int>)
    requires h != [] && Embeds(tail, h, shifted) && 0 !in shifted
    ensures Embeds([h[0]] + tail, h, [0] + shifted)
  {
    var both := [0] + shifted;
    forall k | 0 <= k < |both|
      ensures 0 <= both[k] < |h| && ([h[0]] + tail)[k] == h[both[k]]
    {
      if k > 0 {
        assert both[k] == shifted[k - 1];
      }
    }
    forall k, l | 0 <= k < l < |both|
      ensures both[k] < both[l]
    {
      if k == 0 {
        assert shifted[l - 1] in shifted;
      }
    }
  }

  /**
   * What the pose callback leaves behind: the new entry, stamped `now`, is
   * the last one, after the surviving older entries.
   */
  lemma PushThenPrune(h: seq<Snapshot>, poses: seq<Pose>, now: int)
    ensures Prune(h + [Snapshot(poses, now)], now) == Prune(h, now) + [Snapshot(poses, now)]
  {
    PruneAppend(h, [Snapshot(poses, now)], now);
  }
}
