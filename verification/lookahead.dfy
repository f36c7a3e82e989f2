/** Speed-dependent lookahead distance and the choice of the pursuit target
    point on the path (the first half of `find_target_steering`). */
module Lookahead {
  import opened Geometry

  datatype Option<T> = None | Some(value: T)

  /** Lookahead parameters of the node: lad_gain, lad_min and lad_max. */
  const LadGain: real := 0.6
  const LadMin: real := 3.0
  const LadMax: real := 20.0

  /** Lookahead distance for a measured speed: speed times the gain, raised to
      LadMin, then lowered to LadMax (max first, then min, as in the node). */
  function LookaheadDistance(speed: real): (lad: real)
    ensures LadMin <= lad <= LadMax
    ensures LadMin <= speed * LadGain <= LadMax ==> lad == speed * LadGain
    ensures speed * LadGain < LadMin ==> lad == LadMin
    ensures speed * LadGain > LadMax ==> lad == LadMax
  {
    var raised := if speed * LadGain > LadMin then speed * LadGain else LadMin;
    if raised < LadMax then raised else LadMax
  }

  /** A vehicle-frame point is ahead of the vehicle. */
  predicate IsForward(p: Point) {
    p.x > 0.0
  }

  /** A point ahead of the vehicle whose distance is at least lad (compared as squares). */
  predicate IsTarget(p: Point, lad: real) {
    IsForward(p) && SqNorm(p) >= lad * lad
  }

  /** For a non-negative distance d and a positive lad, comparing squares is comparing distances. */
  lemma SquaredComparison(d: real, lad: real)
    requires d >= 0.0 && lad > 0.0
    ensures d >= lad <==> d * d >= lad * lad
  {
    if d >= lad {
      assert d * d >= lad * d >= lad * lad;
    } else {
      calc {
        d * d;
      <= d * lad;
      < lad * lad;
      }
    }
  }

  /** The first index below n whose point is a target, if any. */
  function FirstTarget(pts: seq<Point>, lad: real, n: nat): (r: Option<nat>)
    requires n <= |pts|
    ensures r.Some? ==> r.value < n && IsTarget(pts[r.value], lad)
    ensures r.Some? ==> forall j :: 0 <= j < r.value ==> !IsTarget(pts[j], lad)
    ensures r.None? <==> forall j :: 0 <= j < n ==> !IsTarget(pts[j], lad)
  {
    if n == 0 then None
    else match FirstTarget(pts, lad, n - 1)
      case Some(k) => Some(k)
      case None => if IsTarget(pts[n - 1], lad) then Some(n - 1) else None
  }

  /** The last index below n whose point is ahead of the vehicle, if any. */
  function LastForward(pts: seq<Point>, n: nat): (r: Option<nat>)
    requires n <= |pts|
    ensures r.Some? ==> r.value < n && IsForward(pts[r.value])
    ensures r.Some? ==> forall j :: r.value < j < n ==> !IsForward(pts[j])
    ensures r.None? <==> forall j :: 0 <= j < n ==> !IsForward(pts[j])
  {
    if n == 0 then None
    else if IsForward(pts[n - 1]) then Some(n - 1)
    else LastForward(pts, n - 1)
  }

  /** The squared value `dis` holds once the scan has looked at the first n points:
      that of the last point ahead of the vehicle, or 0 when there is none. */
  function DisSqAfter(pts: seq<Point>, n: nat): real
    requires n <= |pts|
  {
    match LastForward(pts, n)
    case None => 0.0
    case Some(j) => SqNorm(pts[j])
  }

  /** What the scan ends on: the index and vehicle-frame point, and `dis` squared. */
  datatype Selection = Selection(index: nat, point: Point, disSq: real)

  /** Reference definition of the scan over vehicle-frame points: the first target
      point, or else the last point of the path; nothing on an empty path. */
  function Select(pts: seq<Point>, lad: real): (r: Option<Selection>)
    ensures r.None? <==> |pts| == 0
    ensures r.Some? ==> r.value.index < |pts| && r.value.point == pts[r.value.index]
    // stops at the first target point
    ensures r.Some? ==> forall j :: 0 <= j < r.value.index ==> !IsTarget(pts[j], lad)
    ensures r.Some? && (exists j :: 0 <= j < |pts| && IsTarget(pts[j], lad)) ==>
              IsTarget(r.value.point, lad)
    // falls through to the last point when nothing qualifies
    ensures r.Some? && !IsTarget(r.value.point, lad) ==>
              r.value.index == |pts| - 1 && forall j :: 0 <= j < |pts| ==> !IsTarget(pts[j], lad)
    // `dis` belongs to the last forward point visited, or is 0
    ensures r.Some? && IsForward(r.value.point) ==> r.value.disSq == SqNorm(r.value.point)
    ensures r.Some? && (forall j :: 0 <= j <= r.value.index ==> !IsForward(pts[j])) ==>
              r.value.disSq == 0.0
    ensures r.Some? ==>
              forall j :: 0 <= j <= r.value.index && IsForward(pts[j]) &&
                          (forall k :: j < k <= r.value.index ==> !IsForward(pts[k])) ==>
                r.value.disSq == SqNorm(pts[j])
  {
    if |pts| == 0 then None
    else
      var k := match FirstTarget(pts, lad, |pts|) case Some(t) => t case None => |pts| - 1;
      Some(Selection(k, pts[k], DisSqAfter(pts, k + 1)))
  }

  /** Once a target is found among the first n points, looking further does not change it
      (the contract of FirstTarget determines the first target uniquely). */
  lemma FirstTargetStable(pts: seq<Point>, lad: real, n: nat, m: nat)
    requires n <= m <= |pts|
    requires FirstTarget(pts, lad, n).Some?
    ensures FirstTarget(pts, lad, m) == FirstTarget(pts, lad, n)
  {
  }

  /** The scan loop of `find_target_steering`: transform each world point of the path
      into the vehicle frame, keep `dis` for points ahead of the vehicle, and stop at
      the first one at least lad away. On an empty path the node has no point to
      return (its local variable stays unbound); here that is None. */
  method ScanPath(pose: Pose, path: seq<Point>, lad: real) returns (r: Option<Selection>)
    ensures r == Select(Localize(pose, path), lad)
  {
    ghost var pts := Localize(pose, path);
    var dis := 0.0;
    r := None;
    var i := 0;
    while i < |path|
      invariant 0 <= i <= |path|
      invariant FirstTarget(pts, lad, i) == None
      invariant dis == DisSqAfter(pts, i)
      invariant r == if i == 0 then None else Some(Selection(i - 1, pts[i - 1], dis))
    {
      var local := ToLocal(pose, path[i]);
      var stop := false;
      if local.x > 0.0 {
        dis := SqNorm(local);
        stop := dis >= lad * lad;
      }
      r := Some(Selection(i, local, dis));
      if stop {
        FirstTargetStable(pts, lad, i + 1, |pts|);
        return;
      }
      i := i + 1;
    }
  }

  /** A straight path of points 1 m apart straight ahead, vehicle at rest at the origin:
      the lookahead is LadMin = 3 and the point 3 m ahead is chosen. */
  lemma StraightPathAtRest()
    ensures Select(Localize(Pose(0.0, 0.0, 1.0, 0.0), Ahead4()), LookaheadDistance(0.0)) ==
              Some(Selection(2, Point(3.0, 0.0), 9.0))
  {
    calc {
      Select(Localize(Pose(0.0, 0.0, 1.0, 0.0), Ahead4()), LookaheadDistance(0.0));
      { AtOriginLocalIsWorld(Ahead4()); }
      Select(Ahead4(), LookaheadDistance(0.0));
      { assert LookaheadDistance(0.0) == 3.0; }
      Select(Ahead4(), 3.0);
      { Ahead4Scan(); assert DisSqAfter(Ahead4(), 3) == 9.0; }
      Some(Selection(2, Point(3.0, 0.0), 9.0));
    }
  }

  /** On Ahead4 with lad 3, the third point is the first target and the last forward point so far. */
  lemma Ahead4Scan()
    ensures FirstTarget(Ahead4(), 3.0, 4) == Some(2)
    ensures LastForward(Ahead4(), 3) == Some(2)
  {
    var path := Ahead4();
    assert !IsTarget(path[0], 3.0) && !IsTarget(path[1], 3.0) && IsTarget(path[2], 3.0);
    assert FirstTarget(path, 3.0, 3) == Some(2);
    FirstTargetStable(path, 3.0, 3, 4);
  }

  /** At the origin with heading along x, vehicle and world frame coincide. */
  lemma AtOriginLocalIsWorld(path: seq<Point>)
    ensures Localize(Pose(0.0, 0.0, 1.0, 0.0), path) == path
  {
    var pts := Localize(Pose(0.0, 0.0, 1.0, 0.0), path);
    forall i | 0 <= i < |path| ensures pts[i] == path[i] {
      assert pts[i] == ToLocal(Pose(0.0, 0.0, 1.0, 0.0), path[i]);
    }
  }

  /** Four points 1 m apart on the positive x axis. */
  function Ahead4(): seq<Point> {
    [Point(1.0, 0.0), Point(2.0, 0.0), Point(3.0, 0.0), Point(4.0, 0.0)]
  }
}
