/**
 * Ray casting (raytracer/raycast.go): the screen-to-NDC mapping, the
 * Moller-Trumbore ray/triangle test, Woo's ray/box test, the closest-hit
 * traversal of a kd-tree and the scene-level choice of the nearest hit.
 */
module Raycast {
  import opened Wrappers
  import opened Vectors
  import opened Matrices
  import opened Boxes
  import opened Triangles
  import opened KdTree
  import opened Settings
  import opened Shading

  /**
   * The first step of screenToWorld: pixel (x, y) of a width x height
   * screen in normalised device coordinates, y pointing up.
   */
  function ScreenToNdc(x: int, y: int, width: int, height: int): (r: (real, real))
    requires width > 0 && height > 0
    ensures 0 <= x < width ==> -1.0 <= r.0 < 1.0
    ensures 0 <= y < height ==> -1.0 < r.1 <= 1.0
    ensures (r.0 + 1.0) * width as real == 2.0 * x as real
    ensures (1.0 - r.1) * height as real == 2.0 * y as real
  {
    NdcBound(x, width);
    NdcBound(y, height);
    ((2.0 * x as real) / width as real - 1.0, 1.0 - (2.0 * y as real) / height as real)
  }

  lemma NdcBound(x: int, n: int)
    requires n > 0
    ensures (2.0 * x as real) / n as real * n as real == 2.0 * x as real
    ensures 0 <= x < n ==> 0.0 <= (2.0 * x as real) / n as real < 2.0
  {
    var q := (2.0 * x as real) / n as real;
    assert q * n as real == 2.0 * x as real;
  }

  /**
   * screenToWorld: the NDC point (xF, yF, 1, 1) through the inverse
   * projection, turned into the eye ray (x, y, -1, 0), through the inverse
   * view matrix, normalised.
   */
  function ScreenToWorld(x: int, y: int, width: int, height: int, proj: Matrix, view: Matrix, sqrt: real -> real): Vector
    requires width > 0 && height > 0
  {
    var ndc := ScreenToNdc(x, y, width, height);
    var eyeRay := VectorTransform(Vector(ndc.0, ndc.1, 1.0, 1.0), InvertMatrix(proj));
    NormalizeVector(VectorTransform(Vector(eyeRay.x, eyeRay.y, -1.0, 0.0), InvertMatrix(view)), sqrt)
  }

  // ---------------------------------------------------------------------
  // Moller-Trumbore ray/triangle test

  /** The hit point and oriented face normal, or no hit (Go's nil pointers). */
  datatype TriangleHit = NoHit | TriangleHit(point: Vector, normal: Vector)

  /** The determinant (p2 - p1) . (dir x (p3 - p1)). */
  function Det(dir: Vector, p1: Vector, p2: Vector, p3: Vector): real
  {
    Dot(SubVector(p2, p1), CrossProduct(dir, SubVector(p3, p1)))
  }

  /** The barycentric weight of p2. */
  function UParam(start: Vector, dir: Vector, p1: Vector, p2: Vector, p3: Vector): real
    requires Det(dir, p1, p2, p3) != 0.0
  {
    Dot(SubVector(start, p1), CrossProduct(dir, SubVector(p3, p1))) * (1.0 / Det(dir, p1, p2, p3))
  }

  /** The barycentric weight of p3. */
  function VParam(start: Vector, dir: Vector, p1: Vector, p2: Vector, p3: Vector): real
    requires Det(dir, p1, p2, p3) != 0.0
  {
    Dot(dir, CrossProduct(SubVector(start, p1), SubVector(p2, p1))) * (1.0 / Det(dir, p1, p2, p3))
  }

  /** The ray parameter of the hit point. */
  function TParam(start: Vector, dir: Vector, p1: Vector, p2: Vector, p3: Vector): real
    requires Det(dir, p1, p2, p3) != 0.0
  {
    Dot(SubVector(p3, p1), CrossProduct(SubVector(start, p1), SubVector(p2, p1))) * (1.0 / Det(dir, p1, p2, p3))
  }

  /** The ray meets the triangle's plane at weights inside the triangle, ahead of the start. */
  predicate Meets(start: Vector, dir: Vector, p1: Vector, p2: Vector, p3: Vector)
  {
    !(-DIFF < Det(dir, p1, p2, p3) < DIFF) &&
    var u := UParam(start, dir, p1, p2, p3);
    var v := VParam(start, dir, p1, p2, p3);
    0.0 <= u <= 1.0 && v > 0.0 && u + v <= 1.0 && TParam(start, dir, p1, p2, p3) > 0.0
  }

  /** The face normal, negated when it lies on the same side as the ray direction. */
  function FacingNormal(normal: Vector, dir: Vector, h: Helpers): Vector
  {
    if h.sameSide(normal, dir) then ScaleVector(normal, -1.0) else normal
  }

  /**
   * raycastTriangleIntersect: no hit when |det| < DIFF, when u is outside
   * [0, 1], when v <= 0 or u + v > 1, or when t <= 0; otherwise the point
   * start + t * dir with w = 1 and the normalised face normal facing the ray.
   */
  function RaycastTriangleIntersect(start: Vector, dir: Vector, p1: Vector, p2: Vector, p3: Vector, h: Helpers): (r: TriangleHit)
    ensures -DIFF < Det(dir, p1, p2, p3) < DIFF ==> r == NoHit
    ensures r.TriangleHit? <==> Meets(start, dir, p1, p2, p3)
    ensures r.TriangleHit? ==>
              r.point == Combine(start, dir, 1.0, TParam(start, dir, p1, p2, p3)).(w := 1.0) &&
              r.normal == FacingNormal(NormalizeVector(CrossProduct(SubVector(p2, p1), SubVector(p3, p1)), h.sqrt), dir, h)
  {
    var v1 := SubVector(p2, p1);
    var v2 := SubVector(p3, p1);
    var det := Det(dir, p1, p2, p3);
    if det < DIFF && det > -DIFF then NoHit
    else
      var u := UParam(start, dir, p1, p2, p3);
      if u < 0.0 || u > 1.0 then NoHit
      else
        var v := VParam(start, dir, p1, p2, p3);
        if !(v > 0.0 && u + v <= 1.0) then NoHit
        else
          var t := TParam(start, dir, p1, p2, p3);
          if t <= 0.0 then NoHit
          else
            var point := Combine(start, dir, 1.0, t).(w := 1.0);
            TriangleHit(point, FacingNormal(NormalizeVector(CrossProduct(v1, v2), h.sqrt), dir, h))
  }

  /**
   * A reported hit lies in the triangle: its spatial part is
   * (1 - u - v) * p1 + u * p2 + v * p3 with u >= 0, v > 0 and u + v <= 1.
   */
  lemma TriangleHitInside(start: Vector, dir: Vector, p1: Vector, p2: Vector, p3: Vector, h: Helpers)
    requires RaycastTriangleIntersect(start, dir, p1, p2, p3, h).TriangleHit?
    ensures var u := UParam(start, dir, p1, p2, p3);
            var v := VParam(start, dir, p1, p2, p3);
            u >= 0.0 && v > 0.0 && 1.0 - u - v >= 0.0 &&
            Spatial(RaycastTriangleIntersect(start, dir, p1, p2, p3, h).point) == Spatial(PlanePoint(p2, p3, p1, u, v))
  {
    var u, v, t := UParam(start, dir, p1, p2, p3), VParam(start, dir, p1, p2, p3), TParam(start, dir, p1, p2, p3);
    var pt := RaycastTriangleIntersect(start, dir, p1, p2, p3, h).point;
    assert pt == Combine(start, dir, 1.0, t).(w := 1.0);
    HitAxisX(start, dir, p1, p2, p3);
    HitAxisY(start, dir, p1, p2, p3);
    HitAxisZ(start, dir, p1, p2, p3);
  }

  /** On each axis, start + t * dir equals p1 + u * (p2 - p1) + v * (p3 - p1). */
  lemma HitAxisX(start: Vector, dir: Vector, p1: Vector, p2: Vector, p3: Vector)
    requires Det(dir, p1, p2, p3) != 0.0
    ensures start.x + TParam(start, dir, p1, p2, p3) * dir.x ==
              p1.x + (UParam(start, dir, p1, p2, p3) * (p2.x - p1.x) + VParam(start, dir, p1, p2, p3) * (p3.x - p1.x))
  {
    var e1, e2, tv := SubVector(p2, p1), SubVector(p3, p1), SubVector(start, p1);
    CramerX(tv, dir, e1, e2);
    DivideThrough(Det(dir, p1, p2, p3), tv.x, Dot(tv, CrossProduct(dir, e2)), Dot(dir, CrossProduct(tv, e1)),
                  Dot(e2, CrossProduct(tv, e1)), e1.x, e2.x, dir.x);
  }

  lemma HitAxisY(start: Vector, dir: Vector, p1: Vector, p2: Vector, p3: Vector)
    requires Det(dir, p1, p2, p3) != 0.0
    ensures start.y + TParam(start, dir, p1, p2, p3) * dir.y ==
              p1.y + (UParam(start, dir, p1, p2, p3) * (p2.y - p1.y) + VParam(start, dir, p1, p2, p3) * (p3.y - p1.y))
  {
    var e1, e2, tv := SubVector(p2, p1), SubVector(p3, p1), SubVector(start, p1);
    CramerY(tv, dir, e1, e2);
    DivideThrough(Det(dir, p1, p2, p3), tv.y, Dot(tv, CrossProduct(dir, e2)), Dot(dir, CrossProduct(tv, e1)),
                  Dot(e2, CrossProduct(tv, e1)), e1.y, e2.y, dir.y);
  }

  lemma HitAxisZ(start: Vector, dir: Vector, p1: Vector, p2: Vector, p3: Vector)
    requires Det(dir, p1, p2, p3) != 0.0
    ensures start.z + TParam(start, dir, p1, p2, p3) * dir.z ==
              p1.z + (UParam(start, dir, p1, p2, p3) * (p2.z - p1.z) + VParam(start, dir, p1, p2, p3) * (p3.z - p1.z))
  {
    var e1, e2, tv := SubVector(p2, p1), SubVector(p3, p1), SubVector(start, p1);
    CramerZ(tv, dir, e1, e2);
    DivideThrough(Det(dir, p1, p2, p3), tv.z, Dot(tv, CrossProduct(dir, e2)), Dot(dir, CrossProduct(tv, e1)),
                  Dot(e2, CrossProduct(tv, e1)), e1.z, e2.z, dir.z);
  }

  /** Cramer's rule for start - p1 = -t dir + u e1 + v e2, multiplied through by det. */
  lemma CramerX(tv: Vector, d: Vector, e1: Vector, e2: Vector)
    ensures Dot(e1, CrossProduct(d, e2)) * tv.x ==
              Dot(tv, CrossProduct(d, e2)) * e1.x + Dot(d, CrossProduct(tv, e1)) * e2.x - Dot(e2, CrossProduct(tv, e1)) * d.x
  {
  }

  lemma CramerY(tv: Vector, d: Vector, e1: Vector, e2: Vector)
    ensures Dot(e1, CrossProduct(d, e2)) * tv.y ==
              Dot(tv, CrossProduct(d, e2)) * e1.y + Dot(d, CrossProduct(tv, e1)) * e2.y - Dot(e2, CrossProduct(tv, e1)) * d.y
  {
  }

  lemma CramerZ(tv: Vector, d: Vector, e1: Vector, e2: Vector)
    ensures Dot(e1, CrossProduct(d, e2)) * tv.z ==
              Dot(tv, CrossProduct(d, e2)) * e1.z + Dot(d, CrossProduct(tv, e1)) * e2.z - Dot(e2, CrossProduct(tv, e1)) * d.z
  {
  }

  lemma DivideThrough(det: real, tc: real, a: real, b: real, c: real, e1: real, e2: real, d: real)
    requires det != 0.0
    requires det * tc == a * e1 + b * e2 - c * d
    ensures tc + (c * (1.0 / det)) * d == (a * (1.0 / det)) * e1 + (b * (1.0 / det)) * e2
  {
    var k := 1.0 / det;
    assert k * det == 1.0;
    calc {
      tc + (c * k) * d;
      (k * det) * tc + (c * k) * d;
      k * (det * tc) + k * (c * d);
      k * (a * e1 + b * e2 - c * d) + k * (c * d);
      (a * k) * e1 + (b * k) * e2;
    }
  }

  // ---------------------------------------------------------------------
  // Woo's ray/box test

  datatype Quadrant = Left | Right | Middle

  /** Which side of the slab [mn, mx] the start coordinate s is on. */
  function QuadrantOf(s: real, mn: real, mx: real): Quadrant
  {
    if s < mn then Left else if s > mx then Right else Middle
  }

  /** The slab face the ray may enter through; 0 when the start is within the slab. */
  function CandidatePlane(s: real, mn: real, mx: real): real
  {
    if s < mn then mn else if s > mx then mx else 0.0
  }

  /** maxT on one axis: the ray parameter of the candidate plane, or -1. */
  function PlaneT(s: real, d: real, mn: real, mx: real): real
  {
    if QuadrantOf(s, mn, mx) != Middle && d != 0.0 then (CandidatePlane(s, mn, mx) - s) / d else -1.0
  }

  function PlaneTs(start: Vector, dir: Vector, mn: Vector, mx: Vector): Vector
  {
    Vector(PlaneT(start.x, dir.x, mn.x, mx.x), PlaneT(start.y, dir.y, mn.y, mx.y), PlaneT(start.z, dir.z, mn.z, mx.z), 0.0)
  }

  /** whichPlane: the first axis of largest maxT. */
  function WhichPlane(t: Vector): (r: nat)
    ensures r < 3
    ensures forall i :: 0 <= i < 3 ==> t.At(i) <= t.At(r)
    ensures forall i :: 0 <= i < r ==> t.At(i) < t.At(r)
  {
    var a := if t.At(0) < t.At(1) then 1 else 0;
    if t.At(a) < t.At(2) then 2 else a
  }

  /** The point start + t * dir. */
  function RayPoint(start: Vector, dir: Vector, t: real): Vector
  {
    Vector(start.x + t * dir.x, start.y + t * dir.y, start.z + t * dir.z, start.w)
  }

  /**
   * What raycastBoxIntersect decides: the start is in the box, or the
   * latest candidate plane is ahead of the start and the ray meets it
   * within the box on the two other axes.
   */
  predicate WooHit(start: Vector, dir: Vector, mn: Vector, mx: Vector)
  {
    Covers(mn, mx, start) ||
    var ts := PlaneTs(start, dir, mn, mx);
    var wp := WhichPlane(ts);
    ts.At(wp) >= 0.0 &&
    forall i :: 0 <= i < 3 && i != wp ==> mn.At(i) <= RayPoint(start, dir, ts.At(wp)).At(i) <= mx.At(i)
  }

  /** The first loop of raycastBoxIntersect: each axis's quadrant and candidate plane. */
  method ClassifyAxes(start: Vector, mn: Vector, mx: Vector)
    returns (inside: bool, quadrant: seq<Quadrant>, candidatePlane: Vector)
    ensures |quadrant| == 3
    ensures forall k :: 0 <= k < 3 ==> quadrant[k] == QuadrantOf(start.At(k), mn.At(k), mx.At(k))
    ensures forall k :: 0 <= k < 3 ==> candidatePlane.At(k) == CandidatePlane(start.At(k), mn.At(k), mx.At(k))
    ensures inside <==> Covers(mn, mx, start)
  {
    inside := true;
    quadrant := [Right, Right, Right];
    candidatePlane := Zero;
    for i := 0 to 3
      invariant |quadrant| == 3
      invariant forall k :: 0 <= k < i ==> quadrant[k] == QuadrantOf(start.At(k), mn.At(k), mx.At(k))
      invariant forall k :: 0 <= k < i ==> candidatePlane.At(k) == CandidatePlane(start.At(k), mn.At(k), mx.At(k))
      invariant forall k :: i <= k < 4 ==> candidatePlane.At(k) == 0.0
      invariant inside <==> forall k :: 0 <= k < i ==> mn.At(k) <= start.At(k) <= mx.At(k)
    {
      if start.At(i) < mn.At(i) {
        quadrant := quadrant[i := Left];
        candidatePlane := candidatePlane.Set(i, mn.At(i));
        inside := false;
      } else if start.At(i) > mx.At(i) {
        quadrant := quadrant[i := Right];
        candidatePlane := candidatePlane.Set(i, mx.At(i));
        inside := false;
      } else {
        quadrant := quadrant[i := Middle];
      }
    }
  }

  /** The second loop: maxT on each axis, -1 where the start is within the slab or the ray is parallel to it. */
  method PlaneDistances(start: Vector, dir: Vector, mn: Vector, mx: Vector, quadrant: seq<Quadrant>, candidatePlane: Vector)
    returns (maxT: Vector)
    requires |quadrant| == 3
    requires forall k :: 0 <= k < 3 ==> quadrant[k] == QuadrantOf(start.At(k), mn.At(k), mx.At(k))
    requires forall k :: 0 <= k < 3 ==> candidatePlane.At(k) == CandidatePlane(start.At(k), mn.At(k), mx.At(k))
    ensures maxT == PlaneTs(start, dir, mn, mx)
  {
    maxT := Zero;
    for i := 0 to 3
      invariant forall k :: 0 <= k < i ==> maxT.At(k) == PlaneTs(start, dir, mn, mx).At(k)
      invariant forall k :: i <= k < 4 ==> maxT.At(k) == 0.0
    {
      if quadrant[i] != Middle && dir.At(i) != 0.0 {
        maxT := maxT.Set(i, (candidatePlane.At(i) - start.At(i)) / dir.At(i));
      } else {
        maxT := maxT.Set(i, -1.0);
      }
    }
    assert maxT.At(0) == PlaneTs(start, dir, mn, mx).At(0);
    assert maxT.At(1) == PlaneTs(start, dir, mn, mx).At(1);
    assert maxT.At(2) == PlaneTs(start, dir, mn, mx).At(2);
    assert maxT.At(3) == PlaneTs(start, dir, mn, mx).At(3);
  }

  /** The third loop: the first axis of largest maxT. */
  method LatestPlane(maxT: Vector) returns (whichPlane: nat)
    ensures whichPlane == WhichPlane(maxT)
  {
    whichPlane := 0;
    for i := 1 to 3
      invariant whichPlane < i
      invariant forall k :: 0 <= k < i ==> maxT.At(k) <= maxT.At(whichPlane)
      invariant forall k :: 0 <= k < whichPlane ==> maxT.At(k) < maxT.At(whichPlane)
    {
      if maxT.At(whichPlane) < maxT.At(i) {
        whichPlane := i;
      }
    }
  }

  /** The last loop: the ray at maxT[whichPlane] lies within the box on every other axis. */
  method WithinOtherAxes(start: Vector, dir: Vector, mn: Vector, mx: Vector, t: real, whichPlane: nat, candidatePlane: Vector)
    returns (ok: bool)
    requires whichPlane < 3
    ensures ok <==> forall i :: 0 <= i < 3 && i != whichPlane ==> mn.At(i) <= RayPoint(start, dir, t).At(i) <= mx.At(i)
  {
    var coord := Zero;
    for i := 0 to 3
      invariant forall k :: 0 <= k < i && k != whichPlane ==> mn.At(k) <= RayPoint(start, dir, t).At(k) <= mx.At(k)
    {
      if whichPlane != i {
        coord := coord.Set(i, start.At(i) + t * dir.At(i));
        assert coord.At(i) == RayPoint(start, dir, t).At(i);
        if coord.At(i) < mn.At(i) || coord.At(i) > mx.At(i) {
          assert i < 3 && i != whichPlane && !(mn.At(i) <= RayPoint(start, dir, t).At(i) <= mx.At(i));
          return false;
        }
        coord := coord.Set(i, candidatePlane.At(i));
      }
    }
    return true;
  }

  /**
   * raycastBoxIntersect: true when the start is in the box; false when the
   * latest candidate plane is behind the start; otherwise whether the ray
   * meets that plane within the box.
   */
  method RaycastBoxIntersect(start: Vector, dir: Vector, box: BoundingBox) returns (hit: bool)
    ensures hit == WooHit(start, dir, box.MinExtend, box.MaxExtend)
    ensures Covers(box.MinExtend, box.MaxExtend, start) ==> hit
    ensures var ts := PlaneTs(start, dir, box.MinExtend, box.MaxExtend);
            !Covers(box.MinExtend, box.MaxExtend, start) && ts.At(WhichPlane(ts)) < 0.0 ==> !hit
  {
    var mn, mx := box.MinExtend, box.MaxExtend;
    var inside, quadrant, candidatePlane := ClassifyAxes(start, mn, mx);
    if inside {
      return true;
    }
    var maxT := PlaneDistances(start, dir, mn, mx, quadrant, candidatePlane);
    var whichPlane := LatestPlane(maxT);
    if maxT.At(whichPlane) < 0.0 {
      return false;
    }
    hit := WithinOtherAxes(start, dir, mn, mx, maxT.At(whichPlane), whichPlane, candidatePlane);
  }

  /** A proper box: no axis has its minimum above its maximum. */
  predicate ProperBox(mn: Vector, mx: Vector)
  {
    forall i :: 0 <= i < 3 ==> mn.At(i) <= mx.At(i)
  }

  /**
   * The box test is sound: when it reports a hit on a proper box, some point
   * of the ray at t >= 0 lies in the box (on the chosen plane, the entry point).
   */
  lemma WooHitMeetsBox(start: Vector, dir: Vector, mn: Vector, mx: Vector)
    requires ProperBox(mn, mx)
    requires WooHit(start, dir, mn, mx)
    ensures exists t :: t >= 0.0 && Covers(mn, mx, RayPoint(start, dir, t))
  {
    if Covers(mn, mx, start) {
      assert RayPoint(start, dir, 0.0) == start;
    } else {
      EntryPointCovered(start, dir, mn, mx);
    }
  }

  /** Outside the box, the point on the latest candidate plane is in the box. */
  lemma EntryPointCovered(start: Vector, dir: Vector, mn: Vector, mx: Vector)
    requires ProperBox(mn, mx)
    requires !Covers(mn, mx, start) && WooHit(start, dir, mn, mx)
    ensures var ts := PlaneTs(start, dir, mn, mx);
            ts.At(WhichPlane(ts)) >= 0.0 && Covers(mn, mx, RayPoint(start, dir, ts.At(WhichPlane(ts))))
  {
    var ts := PlaneTs(start, dir, mn, mx);
    var wp := WhichPlane(ts);
    var t := ts.At(wp);
    PlaneTsAt(start, dir, mn, mx, wp);
    CoveredWhenAllAxes(start, dir, mn, mx, t, wp);
  }

  /** The ray at t >= 0 reaches the candidate plane of axis wp and is within the box on the other axes. */
  lemma CoveredWhenAllAxes(start: Vector, dir: Vector, mn: Vector, mx: Vector, t: real, wp: nat)
    requires wp < 3 && mn.At(wp) <= mx.At(wp)
    requires t == PlaneT(start.At(wp), dir.At(wp), mn.At(wp), mx.At(wp)) && t >= 0.0
    requires forall i :: 0 <= i < 3 && i != wp ==> mn.At(i) <= RayPoint(start, dir, t).At(i) <= mx.At(i)
    ensures Covers(mn, mx, RayPoint(start, dir, t))
  {
    EntersOnPlane(start.At(wp), dir.At(wp), mn.At(wp), mx.At(wp), t);
    RayPointAt(start, dir, t, wp);
  }

  lemma PlaneTsAt(start: Vector, dir: Vector, mn: Vector, mx: Vector, i: nat)
    requires i < 3
    ensures PlaneTs(start, dir, mn, mx).At(i) == PlaneT(start.At(i), dir.At(i), mn.At(i), mx.At(i))
  {
  }

  lemma RayPointAt(start: Vector, dir: Vector, t: real, i: nat)
    requires i < 3
    ensures RayPoint(start, dir, t).At(i) == start.At(i) + t * dir.At(i)
  {
  }

  /** A non-negative maxT reaches the candidate plane, which is a face of a proper slab. */
  lemma EntersOnPlane(s: real, d: real, mn: real, mx: real, t: real)
    requires mn <= mx
    requires t == PlaneT(s, d, mn, mx) && t >= 0.0
    ensures mn <= s + t * d <= mx
  {
    var c := CandidatePlane(s, mn, mx);
    assert (c - s) / d * d == c - s;
  }

  // ---------------------------------------------------------------------
  // Closest-hit traversal

  /**
   * How a traversal step may change the record: only Hits, or a hit that is
   * nearer than the stored Dist (or the first one, when Dist is -1).
   */
  predicate Improves(a: Intersection, b: Intersection)
  {
    b == a.(Hits := b.Hits) ||
    (b.Hit && b.Dist > 0.0 && (a.Dist == -1.0 || b.Dist < a.Dist) && b.ObjectName == a.ObjectName)
  }

  lemma ImprovesTransitive(a: Intersection, b: Intersection, c: Intersection)
    requires Improves(a, b) && Improves(b, c)
    ensures Improves(a, c)
  {
  }

  /** The distance from the start to the triangle's hit point, 0 when it is missed. */
  function HitDistance(start: Vector, dir: Vector, t: Triangle, h: Helpers): real
  {
    match RaycastTriangleIntersect(start, dir, t.P1, t.P2, t.P3, h)
    case NoHit => 0.0
    case TriangleHit(p, _) => VectorDistance(p, start, h.sqrt)
  }

  /** The number of triangles of the list the ray hits. */
  function CountHits(start: Vector, dir: Vector, tris: seq<Triangle>, h: Helpers): (n: nat)
    ensures n <= |tris|
  {
    if |tris| == 0 then 0
    else CountHits(start, dir, tris[..|tris| - 1], h) +
         (if RaycastTriangleIntersect(start, dir, tris[|tris| - 1].P1, tris[|tris| - 1].P2, tris[|tris| - 1].P3, h).TriangleHit? then 1 else 0)
  }

  /**
   * One pass of the triangle loop of raycastNodeIntersect: a hit counts in
   * Hits, and replaces the record when it is at a positive distance nearer
   * than Dist (or Dist is -1); the normal is then refined by getNormal.
   */
  method IntersectTriangle(start: Vector, dir: Vector, t: Triangle, rec: Intersection,
                           cfg: Config, bumps: map<string, Image>, h: Helpers)
    returns (r: Intersection)
    requires WellFormedImages(bumps)
    ensures r.Hits == rec.Hits + (if RaycastTriangleIntersect(start, dir, t.P1, t.P2, t.P3, h).TriangleHit? then 1 else 0)
    ensures Improves(rec, r)
    ensures r == rec.(Hits := r.Hits) ||
            (r.Triangle == Some(t) && r.RayStart == start && r.RayDir == dir && r.Dist == HitDistance(start, dir, t, h))
    ensures HitDistance(start, dir, t, h) > 0.0 ==> r.Dist != -1.0 && r.Dist <= HitDistance(start, dir, t, h)
  {
    r := rec;
    var hit := RaycastTriangleIntersect(start, dir, t.P1, t.P2, t.P3, h);
    if hit.TriangleHit? {
      r := r.(Hits := r.Hits + 1);
      var dist := VectorDistance(hit.point, start, h.sqrt);
      if dist > 0.0 && (r.Dist == -1.0 || dist < r.Dist) {
        r := r.(Hit := true, IntersectionNormal := hit.normal, Intersection := hit.point,
                Triangle := Some(t), RayStart := start, RayDir := dir, Dist := dist);
        r := GetNormal(r, cfg, bumps, h);
      }
    }
  }

  /**
   * The triangle loop of raycastNodeIntersect: Hits grows by the number of
   * triangles hit, the record only improves, it is replaced only by a hit on
   * one of the triangles, and no triangle hit at a positive distance is
   * nearer than the final Dist.
   */
  method IntersectTriangles(start: Vector, dir: Vector, tris: seq<Triangle>, rec: Intersection,
                            cfg: Config, bumps: map<string, Image>, h: Helpers)
    returns (r: Intersection)
    requires WellFormedImages(bumps)
    ensures r.Hits == rec.Hits + CountHits(start, dir, tris, h)
    ensures Improves(rec, r)
    ensures r == rec.(Hits := r.Hits) ||
            (r.Triangle.Some? && r.Triangle.value in tris && r.RayStart == start && r.RayDir == dir)
    ensures forall k :: 0 <= k < |tris| && HitDistance(start, dir, tris[k], h) > 0.0 ==>
              r.Dist != -1.0 && r.Dist <= HitDistance(start, dir, tris[k], h)
  {
    r := rec;
    for i := 0 to |tris|
      invariant r.Hits == rec.Hits + CountHits(start, dir, tris[..i], h)
      invariant Improves(rec, r)
      invariant r == rec.(Hits := r.Hits) ||
                (r.Triangle.Some? && r.Triangle.value in tris && r.RayStart == start && r.RayDir == dir)
      invariant forall k :: 0 <= k < i && HitDistance(start, dir, tris[k], h) > 0.0 ==>
                  r.Dist != -1.0 && r.Dist <= HitDistance(start, dir, tris[k], h)
    {
      assert tris[..i + 1][..i] == tris[..i];
      var before := r;
      r := IntersectTriangle(start, dir, tris[i], r, cfg, bumps, h);
      ImprovesTransitive(rec, before, r);
    }
    assert tris[..|tris|] == tris;
  }

  /** Both children are present and at least one holds triangles: the traversal descends. */
  predicate Descends(n: Node)
  {
    n.Left.Some? && n.Right.Some? && (n.Left.value.TriangleCount > 0 || n.Right.value.TriangleCount > 0)
  }

  /** The triangles a traversal of `n` may test: those of the nodes where it stops descending. */
  function TestedTriangles(n: Node): set<Triangle>
  {
    if Descends(n) then TestedTriangles(n.Left.value) + TestedTriangles(n.Right.value)
    else set t | t in n.Triangles
  }

  /** The corners getBoundingBox yields for a node: its stored box, else the box of its triangles. */
  ghost function NodeBox(n: Node): (Vector, Vector)
    reads n.BoundingBox
  {
    if n.BoundingBox != null then (n.BoundingBox.MinExtend, n.BoundingBox.MaxExtend)
    else if |n.Triangles| == 0 then (Zero, Zero)
    else (ListMin(n.Triangles), ListMax(n.Triangles))
  }

  /**
   * raycastNodeIntersect: a missed box leaves the record as it is; otherwise
   * the children are searched left then right, or the node's triangles are
   * tested. Hits never drops, the record only improves, and a replaced record
   * carries one of the triangles the traversal tests.
   */
  method RaycastNodeIntersect(start: Vector, dir: Vector, node: Node, rec: Intersection,
                              cfg: Config, bumps: map<string, Image>, h: Helpers)
    returns (r: Intersection)
    requires WellFormedImages(bumps)
    decreases node
    ensures !WooHit(start, dir, NodeBox(node).0, NodeBox(node).1) ==> r == rec
    ensures r.Hits >= rec.Hits
    ensures Improves(rec, r)
    ensures r == rec.(Hits := r.Hits) ||
            (r.Triangle.Some? && r.Triangle.value in TestedTriangles(node) && r.RayStart == start && r.RayDir == dir)
  {
    var box, _ := GetBoundingBox(node);
    var inBox := RaycastBoxIntersect(start, dir, box);
    if !inBox {
      return rec;
    }
    if Descends(node) {
      var r1 := RaycastNodeIntersect(start, dir, node.Left.value, rec, cfg, bumps, h);
      r := RaycastNodeIntersect(start, dir, node.Right.value, r1, cfg, bumps, h);
      ImprovesTransitive(rec, r1, r);
      return;
    }
    r := IntersectTriangles(start, dir, node.Triangles, rec, cfg, bumps, h);
  }

  /** The record raycastObjectIntersect starts from: the zero record with Dist = -1. */
  const Unset: Intersection := NoIntersection.(Dist := -1.0)

  /**
   * raycastObjectIntersect: either nothing was recorded (Dist stays -1,
   * Hit false) or a hit at a positive distance on one of the tree's triangles.
   */
  method RaycastObjectIntersect(root: Node, start: Vector, dir: Vector,
                                cfg: Config, bumps: map<string, Image>, h: Helpers)
    returns (r: Intersection)
    requires WellFormedImages(bumps)
    ensures r.Dist == -1.0 ==> r == Unset.(Hits := r.Hits)
    ensures r.Dist != -1.0 ==>
              r.Hit && r.Dist > 0.0 && r.Triangle.Some? && r.Triangle.value in TestedTriangles(root) &&
              r.RayStart == start && r.RayDir == dir
    ensures r.Hit <==> r.Dist != -1.0
    ensures r.ObjectName == ""
  {
    r := RaycastNodeIntersect(start, dir, root, Unset, cfg, bumps, h);
  }

  // ---------------------------------------------------------------------
  // Scene-level selection

  /** An object's hit the scene cast keeps: a hit at distance DIFF or more. */
  predicate Kept(i: Intersection)
  {
    i.Hit && i.Dist >= DIFF
  }

  /** The sum of Hits over the kept results. */
  function TotalHits(rs: seq<Intersection>): int
  {
    if |rs| == 0 then 0
    else TotalHits(rs[..|rs| - 1]) + (if Kept(rs[|rs| - 1]) then rs[|rs| - 1].Hits else 0)
  }

  /** The running best distance of the selection loop over the results, -1 before any kept hit. */
  function BestDist(rs: seq<Intersection>): real
  {
    if |rs| == 0 then -1.0
    else
      var b := BestDist(rs[..|rs| - 1]);
      var x := rs[|rs| - 1];
      if Kept(x) && (b == -1.0 || x.Dist < b) then x.Dist else b
  }

  /**
   * The best distance is -1 exactly when no result is kept; otherwise it is
   * the least Dist among the kept results.
   */
  lemma {:induction false} BestDistIsLeast(rs: seq<Intersection>)
    ensures BestDist(rs) == -1.0 <==> forall k :: 0 <= k < |rs| ==> !Kept(rs[k])
    ensures BestDist(rs) != -1.0 ==>
              BestDist(rs) >= DIFF &&
              (exists k :: 0 <= k < |rs| && Kept(rs[k]) && rs[k].Dist == BestDist(rs)) &&
              forall k :: 0 <= k < |rs| && Kept(rs[k]) ==> BestDist(rs) <= rs[k].Dist
  {
    if |rs| > 0 {
      var init := rs[..|rs| - 1];
      BestDistIsLeast(init);
      assert forall k :: 0 <= k < |init| ==> init[k] == rs[k];
      if BestDist(init) != -1.0 {
        var j :| 0 <= j < |init| && Kept(init[j]) && init[j].Dist == BestDist(init);
        assert Kept(rs[j]) && rs[j].Dist == BestDist(init);
      }
    }
  }

  /**
   * The selection loop of raycastSceneIntersect: skips misses and hits
   * nearer than DIFF, sums Hits of the kept results and keeps the first
   * nearest one; RayDir, Dist and Hits are then overwritten.
   */
  method SelectBest(results: seq<Intersection>, ray: Vector) returns (best: Intersection)
    ensures best.Dist == BestDist(results) && best.Hits == TotalHits(results) && best.RayDir == ray
    ensures BestDist(results) == -1.0 ==> best == NoIntersection.(RayDir := ray, Dist := -1.0, Hits := TotalHits(results))
    ensures BestDist(results) != -1.0 ==>
              exists k :: 0 <= k < |results| && Kept(results[k]) &&
                          best == results[k].(RayDir := ray, Hits := TotalHits(results))
    ensures !best.Hit <==> best.Dist == -1.0
  {
    var bestHit := NoIntersection;
    var bestDist := -1.0;
    var totalHits := 0;
    for i := 0 to |results|
      invariant bestDist == BestDist(results[..i]) && totalHits == TotalHits(results[..i])
      invariant bestDist == -1.0 ==> bestHit == NoIntersection
      invariant bestDist != -1.0 ==>
                  exists k :: 0 <= k < i && Kept(results[k]) && bestHit == results[k] && bestDist == results[k].Dist
    {
      assert results[..i + 1][..i] == results[..i];
      var intersect := results[i];
      if !intersect.Hit {
        continue;
      }
      if intersect.Dist < DIFF {
        continue;
      }
      totalHits := totalHits + intersect.Hits;
      if bestDist == -1.0 || intersect.Dist < bestDist {
        bestHit := intersect;
        bestDist := intersect.Dist;
      }
    }
    assert results[..|results|] == results;
    best := bestHit.(RayDir := ray, Dist := bestDist, Hits := totalHits);
  }

  /**
   * What raycastObjectIntersect promises of the cast of `root` from `start`
   * along `dir`, once the goroutine has named the result `name`: a miss is
   * the unset record with its hit count; a hit lies at a positive distance
   * on a triangle of the object, from `start` along `dir`.
   */
  predicate CastOf(root: Node, start: Vector, dir: Vector, name: string, r: Intersection)
  {
    && r.ObjectName == name
    && (r.Hit <==> r.Dist != -1.0)
    && (r.Dist == -1.0 ==> r == Unset.(Hits := r.Hits, ObjectName := name))
    && (r.Dist != -1.0 ==>
          r.Dist > 0.0 && r.Triangle.Some? && r.Triangle.value in TestedTriangles(root) &&
          r.RayStart == start && r.RayDir == dir)
  }

  /**
   * raycastSceneIntersect: every object is cast from position moved by
   * RayCorrection * ray (in some order, as the goroutines deliver them),
   * named after its key, and the nearest kept hit is chosen.
   */
  method RaycastSceneIntersect(objects: map<string, Node>, position: Vector, ray: Vector,
                               cfg: Config, bumps: map<string, Image>, h: Helpers)
    returns (best: Intersection, results: seq<Intersection>)
    requires WellFormedImages(bumps)
    ensures |results| == |objects|
    ensures best.Dist == BestDist(results) && best.Hits == TotalHits(results) && best.RayDir == ray
    ensures best.Dist == -1.0 || best.Dist >= DIFF
    ensures forall k :: 0 <= k < |results| ==> results[k].ObjectName in objects
    ensures forall a, b :: 0 <= a < b < |results| ==> results[a].ObjectName != results[b].ObjectName
    ensures forall name :: name in objects ==> exists k :: 0 <= k < |results| && results[k].ObjectName == name
    ensures forall k :: 0 <= k < |results| ==>
              CastOf(objects[results[k].ObjectName], AddVector(position, ScaleVector(ray, cfg.RayCorrection)), ray,
                     results[k].ObjectName, results[k])
    ensures forall k :: 0 <= k < |results| && results[k].Hit ==>
              results[k].RayStart == AddVector(position, ScaleVector(ray, cfg.RayCorrection))
    ensures best.Hit ==> best.RayStart == AddVector(position, ScaleVector(ray, cfg.RayCorrection))
    ensures best.Hit ==> best.Triangle.Some? && best.Dist >= DIFF
    ensures !best.Hit <==> best.Dist == -1.0
  {
    var start := AddVector(position, ScaleVector(ray, cfg.RayCorrection));
    results := CastObjects(objects, start, ray, cfg, bumps, h);
    best := SelectBest(results, ray);
    BestDistIsLeast(results);
  }

  /**
   * The fan-out of raycastSceneIntersect: one cast per object, named after
   * its key, in some order (the order the goroutines deliver them).
   */
  method CastObjects(objects: map<string, Node>, start: Vector, ray: Vector,
                     cfg: Config, bumps: map<string, Image>, h: Helpers)
    returns (results: seq<Intersection>)
    requires WellFormedImages(bumps)
    ensures |results| == |objects|
    ensures forall k :: 0 <= k < |results| ==> results[k].ObjectName in objects
    ensures forall a, b :: 0 <= a < b < |results| ==> results[a].ObjectName != results[b].ObjectName
    ensures forall name :: name in objects ==> exists k :: 0 <= k < |results| && results[k].ObjectName == name
    ensures forall k :: 0 <= k < |results| ==> CastOf(objects[results[k].ObjectName], start, ray, results[k].ObjectName, results[k])
  {
    var rs: seq<Intersection> := [];
    var todo := objects.Keys;
    while todo != {}
      invariant todo <= objects.Keys
      invariant |rs| + |todo| == |objects|
      invariant forall k :: 0 <= k < |rs| ==> rs[k].ObjectName in objects && rs[k].ObjectName !in todo
      invariant forall a, b :: 0 <= a < b < |rs| ==> rs[a].ObjectName != rs[b].ObjectName
      invariant forall name :: name in objects && name !in todo ==> exists k :: 0 <= k < |rs| && rs[k].ObjectName == name
      invariant forall k :: 0 <= k < |rs| ==> CastOf(objects[rs[k].ObjectName], start, ray, rs[k].ObjectName, rs[k])
      decreases |todo|
    {
      var name :| name in todo;
      rs := CastOne(objects, todo, name, rs, start, ray, cfg, bumps, h);
      todo := todo - {name};
    }
    results := rs;
  }

  /** One goroutine of the fan-out: the object under `name` is cast and its named result appended. */
  method CastOne(objects: map<string, Node>, todo: set<string>, name: string, rs: seq<Intersection>,
                 start: Vector, ray: Vector, cfg: Config, bumps: map<string, Image>, h: Helpers)
    returns (next: seq<Intersection>)
    requires WellFormedImages(bumps) && name in todo && todo <= objects.Keys
    requires forall k :: 0 <= k < |rs| ==> rs[k].ObjectName in objects && rs[k].ObjectName !in todo
    requires forall a, b :: 0 <= a < b < |rs| ==> rs[a].ObjectName != rs[b].ObjectName
    requires forall other :: other in objects && other !in todo ==> exists k :: 0 <= k < |rs| && rs[k].ObjectName == other
    requires forall k :: 0 <= k < |rs| ==> CastOf(objects[rs[k].ObjectName], start, ray, rs[k].ObjectName, rs[k])
    ensures |next| == |rs| + 1 && next[..|rs|] == rs
    ensures CastOf(objects[name], start, ray, name, next[|rs|])
    ensures forall k :: 0 <= k < |next| ==> next[k].ObjectName in objects && next[k].ObjectName !in todo - {name}
    ensures forall a, b :: 0 <= a < b < |next| ==> next[a].ObjectName != next[b].ObjectName
    ensures forall other :: other in objects && other !in todo - {name} ==> exists k :: 0 <= k < |next| && next[k].ObjectName == other
    ensures forall k :: 0 <= k < |next| ==> CastOf(objects[next[k].ObjectName], start, ray, next[k].ObjectName, next[k])
  {
    var result := RaycastObjectIntersect(objects[name], start, ray, cfg, bumps, h);
    next := rs + [result.(ObjectName := name)];
    assert CastOf(objects[name], start, ray, name, next[|rs|]);
    forall other | other in objects && other !in todo - {name}
      ensures exists k :: 0 <= k < |next| && next[k].ObjectName == other
    {
      if other == name {
        assert next[|rs|].ObjectName == other;
      } else {
        var k :| 0 <= k < |rs| && rs[k].ObjectName == other;
        assert next[k] == rs[k];
      }
    }
  }
}
