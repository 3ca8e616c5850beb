/**
 * Homogeneous 4-vectors of the ray tracer (raytracer/vector.go).
 * Floating point is modelled by Dafny's exact `real`; the square root
 * behind vectorNorm is not modelled and is passed in as `sqrt`.
 */
module Vectors {

  /** Tolerance used throughout the renderer (DIFF in raycast.go). */
  const DIFF: real := 0.000000001

  /** The four components x, y, z, w; w = 1 marks a point, w = 0 a direction. */
  datatype Vector = Vector(x: real, y: real, z: real, w: real) {

    /** Component `i`, as `v[i]` in Go. */
    function At(i: nat): real
      requires i < 4
    {
      if i == 0 then x else if i == 1 then y else if i == 2 then z else w
    }

    /** The vector with component `i` replaced by `r`, as `v[i] = r`. */
    function Set(i: nat, r: real): (u: Vector)
      requires i < 4
      ensures u.At(i) == r
      ensures forall j :: 0 <= j < 4 && j != i ==> u.At(j) == At(j)
    {
      if i == 0 then this.(x := r)
      else if i == 1 then this.(y := r)
      else if i == 2 then this.(z := r)
      else this.(w := r)
    }
  }

  const Zero: Vector := Vector(0.0, 0.0, 0.0, 0.0)

  /** addVector, which is not among the modelled files: componentwise on all four components. */
  function AddVector(a: Vector, b: Vector): Vector
  {
    Vector(a.x + b.x, a.y + b.y, a.z + b.z, a.w + b.w)
  }

  /** scaleVector, which is not among the modelled files: every component times `f`. */
  function ScaleVector(a: Vector, f: real): Vector
  {
    Vector(a.x * f, a.y * f, a.z * f, a.w * f)
  }

  lemma AddAt(a: Vector, b: Vector, i: nat)
    requires i < 4
    ensures AddVector(a, b).At(i) == a.At(i) + b.At(i)
  {
  }

  lemma ScaleAt(a: Vector, f: real, i: nat)
    requires i < 4
    ensures ScaleVector(a, f).At(i) == a.At(i) * f
  {
  }

  /** Difference of the spatial parts; the result is always a point (w = 1). */
  function SubVector(v1: Vector, v2: Vector): (r: Vector)
    ensures r.w == 1.0
  {
    Vector(v1.x - v2.x, v1.y - v2.y, v1.z - v2.z, 1.0)
  }

  /** The spatial part of a vector, with w dropped to 0. */
  function Spatial(v: Vector): Vector
  {
    Vector(v.x, v.y, v.z, 0.0)
  }

  /** The dot product of the spatial parts; w takes no part. */
  function Dot(v1: Vector, v2: Vector): real
  {
    v1.x * v2.x + v1.y * v2.y + v1.z * v2.z
  }

  /** The cross product is a direction orthogonal to both of its arguments. */
  function CrossProduct(v1: Vector, v2: Vector): (r: Vector)
    ensures r.w == 0.0
    ensures Dot(r, v1) == 0.0 && Dot(r, v2) == 0.0
  {
    Vector(v1.y * v2.z - v1.z * v2.y,
           v1.z * v2.x - v1.x * v2.z,
           v1.x * v2.y - v1.y * v2.x,
           0.0)
  }

  /** f1 * v1 + f2 * v2 on all four components. */
  function Combine(v1: Vector, v2: Vector, f1: real, f2: real): (r: Vector)
    ensures r == AddVector(ScaleVector(v1, f1), ScaleVector(v2, f2))
  {
    Vector(f1 * v1.x + f2 * v2.x,
           f1 * v1.y + f2 * v2.y,
           f1 * v1.z + f2 * v2.z,
           f1 * v1.w + f2 * v2.w)
  }

  /** The sum of a list of vectors, accumulated left to right. */
  function SumVectors(vs: seq<Vector>): Vector
  {
    if |vs| == 0 then Zero
    else AddVector(vs[|vs| - 1], SumVectors(vs[..|vs| - 1]))
  }

  /** The sum of squares under vectorNorm's square root. */
  function SquaredNorm(v: Vector): real
  {
    v.x * v.x + v.y * v.y + v.z * v.z
  }

  /**
   * NormalizeVector: a zero norm returns the input unchanged; otherwise the
   * spatial part is divided by the norm. The w component is kept either way.
   */
  function NormalizeVector(v: Vector, sqrt: real -> real): (r: Vector)
    ensures r.w == v.w
    ensures sqrt(SquaredNorm(v)) == 0.0 ==> r == v
    ensures sqrt(SquaredNorm(v)) != 0.0 ==>
              Spatial(r) == ScaleVector(Spatial(v), 1.0 / sqrt(SquaredNorm(v)))
  {
    var vn := sqrt(SquaredNorm(v));
    if vn == 0.0 then v
    else
      var invlen := 1.0 / vn;
      Vector(v.x * invlen, v.y * invlen, v.z * invlen, v.w)
  }

  /** A square root that is exact at `s`. */
  predicate ExactSqrtAt(sqrt: real -> real, s: real)
  {
    s >= 0.0 && sqrt(s) >= 0.0 && sqrt(s) * sqrt(s) == s
  }

  /** With a square root exact at |v|^2, a non-zero vector normalises to unit length. */
  lemma NormalizedIsUnit(v: Vector, sqrt: real -> real)
    requires ExactSqrtAt(sqrt, SquaredNorm(v))
    requires SquaredNorm(v) != 0.0
    ensures Dot(NormalizeVector(v, sqrt), NormalizeVector(v, sqrt)) == 1.0
  {
    var n := sqrt(SquaredNorm(v));
    assert n != 0.0;
    var r := NormalizeVector(v, sqrt);
    var k := 1.0 / n;
    assert r.x == v.x * k && r.y == v.y * k && r.z == v.z * k;
    calc {
      Dot(r, r);
      (v.x * k) * (v.x * k) + (v.y * k) * (v.y * k) + (v.z * k) * (v.z * k);
      SquaredNorm(v) * (k * k);
      (n * n) * (k * k);
      (n * k) * (n * k);
      1.0;
    }
  }

  /** Whatever the square root returns, normalising keeps the direction: r x v = 0. */
  lemma NormalizedIsParallel(v: Vector, sqrt: real -> real)
    ensures Spatial(CrossProduct(NormalizeVector(v, sqrt), v)) == Zero
  {
    var n := sqrt(SquaredNorm(v));
    if n != 0.0 {
      var k := 1.0 / n;
      var r := NormalizeVector(v, sqrt);
      assert r.x == v.x * k && r.y == v.y * k && r.z == v.z * k;
      assert (v.y * k) * v.z - (v.z * k) * v.y == 0.0;
      assert (v.z * k) * v.x - (v.x * k) * v.z == 0.0;
      assert (v.x * k) * v.y - (v.y * k) * v.x == 0.0;
    }
  }

  /** dot ignores w on both sides and is symmetric. */
  lemma DotIgnoresW(v1: Vector, v2: Vector, a: real, b: real)
    ensures Dot(v1.(w := a), v2.(w := b)) == Dot(v1, v2) == Dot(v2, v1)
  {
  }

  /** SubVector agrees with Combine(v1, v2, 1, -1) on x, y and z. */
  lemma SubVectorIsCombine(v1: Vector, v2: Vector)
    ensures Spatial(SubVector(v1, v2)) == Spatial(Combine(v1, v2, 1.0, -1.0))
  {
  }

  /** VectorDistance: the norm of v2 - v1, with the square root passed in. */
  function VectorDistance(v1: Vector, v2: Vector, sqrt: real -> real): real
  {
    sqrt(SquaredNorm(SubVector(v2, v1)))
  }

  /** The component-wise absolute value (absVector). */
  function AbsVector(v: Vector): (r: Vector)
    ensures r.x >= 0.0 && r.y >= 0.0 && r.z >= 0.0 && r.w >= 0.0
  {
    Vector(Abs(v.x), Abs(v.y), Abs(v.z), Abs(v.w))
  }

  function Abs(r: real): real
  {
    if r < 0.0 then -r else r
  }

  /** The result of BarycentricCoordinates: weights u, v, w and the success flag. */
  datatype Barycentric = Barycentric(u: real, v: real, w: real, success: bool)

  /** A triangle whose edge cross product is not the zero vector. */
  predicate NonDegenerate(p1: Vector, p2: Vector, p3: Vector)
  {
    Spatial(CrossProduct(SubVector(p1, p3), SubVector(p2, p3))) != Zero
  }

  /** The two axes kept after dropping the dominant axis of the normal. */
  function ProjectionAxes(n: Vector): (axes: (nat, nat))
    ensures axes.0 < axes.1 < 3
  {
    var a := AbsVector(n);
    var a1 := if a.y > a.x then 1 else 0;
    var a1' := if a.z > a.At(a1) then 2 else a1;
    if a1' == 0 then (1, 2) else if a1' == 1 then (0, 2) else (0, 1)
  }

  /** The denominator of u (that of v is its negation) is ± the dominant normal component. */
  lemma ProjectionDenominator(e1: Vector, e2: Vector)
    requires Spatial(CrossProduct(e1, e2)) != Zero
    ensures var (a1, a2) := ProjectionAxes(CrossProduct(e1, e2));
            e1.At(a2) * e2.At(a1) - e1.At(a1) * e2.At(a2) != 0.0
  {
  }

  /**
   * BarycentricCoordinates projects onto the two axes that drop the normal's
   * largest component and solves for u and v there; w = 1 - u - v.
   * Success needs u >= DIFF, v >= DIFF and u + v <= 1 + DIFF. For a
   * degenerate triangle Go divides by zero, which yields infinities
   * or NaN and no success; the model returns (0, 0, 1, false) there.
   */
  function BarycentricCoordinates(v1: Vector, v2: Vector, v3: Vector, p: Vector): (b: Barycentric)
    ensures b.u + b.v + b.w == 1.0
    ensures b.success <==> NonDegenerate(v1, v2, v3) && b.u >= DIFF && b.v >= DIFF && b.u + b.v <= 1.0 + DIFF
  {
    if !NonDegenerate(v1, v2, v3) then Barycentric(0.0, 0.0, 1.0, false)
    else
      var uv := ProjectedWeights(SubVector(v1, v3), SubVector(v2, v3), SubVector(p, v3));
      var u := uv.0;
      var v := uv.1;
      Barycentric(u, v, 1.0 - u - v, u >= DIFF && v >= DIFF && u + v <= 1.0 + DIFF)
  }

  /** u and v of `pt` against the edges e1 and e2, solved on the projection axes. */
  function ProjectedWeights(e1: Vector, e2: Vector, pt: Vector): (real, real)
    requires Spatial(CrossProduct(e1, e2)) != Zero
  {
    var axes := ProjectionAxes(CrossProduct(e1, e2));
    ProjectionDenominator(e1, e2);
    SolveOnAxes(e1, e2, pt, axes.0, axes.1)
  }

  function SolveOnAxes(e1: Vector, e2: Vector, pt: Vector, a1: nat, a2: nat): (real, real)
    requires a1 < 3 && a2 < 3
    requires e1.At(a2) * e2.At(a1) - e1.At(a1) * e2.At(a2) != 0.0
  {
    ((pt.At(a2) * e2.At(a1) - pt.At(a1) * e2.At(a2)) / (e1.At(a2) * e2.At(a1) - e1.At(a1) * e2.At(a2)),
     (pt.At(a2) * e1.At(a1) - pt.At(a1) * e1.At(a2)) / (e2.At(a2) * e1.At(a1) - e2.At(a1) * e1.At(a2)))
  }

  /** Solving for the weights of u0*e1 + v0*e2 gives back u0 and v0. */
  lemma ProjectedWeightsSolve(e1: Vector, e2: Vector, pt: Vector, u0: real, v0: real)
    requires Spatial(CrossProduct(e1, e2)) != Zero
    requires pt.x == u0 * e1.x + v0 * e2.x && pt.y == u0 * e1.y + v0 * e2.y && pt.z == u0 * e1.z + v0 * e2.z
    ensures ProjectedWeights(e1, e2, pt) == (u0, v0)
  {
    var axes := ProjectionAxes(CrossProduct(e1, e2));
    ProjectionDenominator(e1, e2);
    SolveOnAxesSolve(e1, e2, pt, axes.0, axes.1, u0, v0);
  }

  lemma SolveOnAxesSolve(e1: Vector, e2: Vector, pt: Vector, a1: nat, a2: nat, u0: real, v0: real)
    requires a1 < 3 && a2 < 3
    requires e1.At(a2) * e2.At(a1) - e1.At(a1) * e2.At(a2) != 0.0
    requires pt.x == u0 * e1.x + v0 * e2.x && pt.y == u0 * e1.y + v0 * e2.y && pt.z == u0 * e1.z + v0 * e2.z
    ensures SolveOnAxes(e1, e2, pt, a1, a2) == (u0, v0)
  {
    LinearAt(pt, e1, e2, u0, v0, a1);
    LinearAt(pt, e1, e2, u0, v0, a2);
    var p1, p2 := pt.At(a1), pt.At(a2);
    var e11, e12, e21, e22 := e1.At(a1), e1.At(a2), e2.At(a1), e2.At(a2);
    SolveProjected(p1, p2, e11, e12, e21, e22, u0, v0);
    assert SolveOnAxes(e1, e2, pt, a1, a2).0 == (p2 * e21 - p1 * e22) / (e12 * e21 - e11 * e22);
    assert SolveOnAxes(e1, e2, pt, a1, a2).1 == (p2 * e11 - p1 * e12) / (e22 * e11 - e21 * e12);
  }

  /** The point u0*v1 + v0*v2 + (1 - u0 - v0)*v3 of the triangle's plane. */
  function PlanePoint(v1: Vector, v2: Vector, v3: Vector, u0: real, v0: real): Vector
  {
    AddVector(v3, AddVector(ScaleVector(SubVector(v1, v3), u0), ScaleVector(SubVector(v2, v3), v0)))
  }

  /** Cramer's rule on the two projected coordinates. */
  lemma SolveProjected(p1: real, p2: real, e11: real, e12: real, e21: real, e22: real, u0: real, v0: real)
    requires p1 == u0 * e11 + v0 * e21 && p2 == u0 * e12 + v0 * e22
    requires e12 * e21 - e11 * e22 != 0.0
    ensures (p2 * e21 - p1 * e22) / (e12 * e21 - e11 * e22) == u0
    ensures (p2 * e11 - p1 * e12) / (e22 * e11 - e21 * e12) == v0
  {
    assert p2 * e21 - p1 * e22 == u0 * (e12 * e21 - e11 * e22);
    assert p2 * e11 - p1 * e12 == v0 * (e22 * e11 - e21 * e12);
  }

  lemma LinearAt(pt: Vector, e1: Vector, e2: Vector, u0: real, v0: real, i: nat)
    requires i < 3
    requires pt.x == u0 * e1.x + v0 * e2.x && pt.y == u0 * e1.y + v0 * e2.y && pt.z == u0 * e1.z + v0 * e2.z
    ensures pt.At(i) == u0 * e1.At(i) + v0 * e2.At(i)
  {
  }

  /** Barycentric coordinates recover the weights of any point of the plane. */
  lemma BarycentricRecoversWeights(v1: Vector, v2: Vector, v3: Vector, u0: real, v0: real)
    requires NonDegenerate(v1, v2, v3)
    ensures var b := BarycentricCoordinates(v1, v2, v3, PlanePoint(v1, v2, v3, u0, v0));
            b.u == u0 && b.v == v0 && b.w == 1.0 - u0 - v0
  {
    var e1 := SubVector(v1, v3);
    var e2 := SubVector(v2, v3);
    var pt := SubVector(PlanePoint(v1, v2, v3, u0, v0), v3);
    assert pt.x == u0 * e1.x + v0 * e2.x && pt.y == u0 * e1.y + v0 * e2.y && pt.z == u0 * e1.z + v0 * e2.z;
    ProjectedWeightsSolve(e1, e2, pt, u0, v0);
  }

  /** The least component `j` over a non-empty list, folded left to right. */
  function MinAt(vs: seq<Vector>, j: nat): real
    requires |vs| > 0 && j < 4
  {
    if |vs| == 1 then vs[0].At(j)
    else
      var m := MinAt(vs[..|vs| - 1], j);
      if vs[|vs| - 1].At(j) < m then vs[|vs| - 1].At(j) else m
  }

  /** The greatest component `j` over a non-empty list, folded left to right. */
  function MaxAt(vs: seq<Vector>, j: nat): real
    requires |vs| > 0 && j < 4
  {
    if |vs| == 1 then vs[0].At(j)
    else
      var m := MaxAt(vs[..|vs| - 1], j);
      if vs[|vs| - 1].At(j) > m then vs[|vs| - 1].At(j) else m
  }

  /** MinAt and MaxAt bound every element and are attained by one. */
  lemma {:induction false} MinMaxAtBounds(vs: seq<Vector>, j: nat)
    requires |vs| > 0 && j < 4
    ensures forall i :: 0 <= i < |vs| ==> MinAt(vs, j) <= vs[i].At(j) <= MaxAt(vs, j)
    ensures exists i :: 0 <= i < |vs| && vs[i].At(j) == MinAt(vs, j)
    ensures exists i :: 0 <= i < |vs| && vs[i].At(j) == MaxAt(vs, j)
  {
    if |vs| > 1 {
      var init := vs[..|vs| - 1];
      MinMaxAtBounds(init, j);
      assert forall i :: 0 <= i < |init| ==> init[i] == vs[i];
      var imin :| 0 <= imin < |init| && init[imin].At(j) == MinAt(init, j);
      var imax :| 0 <= imax < |init| && init[imax].At(j) == MaxAt(init, j);
      if vs[|vs| - 1].At(j) >= MinAt(init, j) {
        assert vs[imin].At(j) == MinAt(vs, j);
      }
      if vs[|vs| - 1].At(j) <= MaxAt(init, j) {
        assert vs[imax].At(j) == MaxAt(vs, j);
      }
    }
  }

  /**
   * calculateBounds: zero vectors for an empty list; otherwise the
   * component-wise minimum and maximum over all four components.
   */
  method CalculateBounds(vlist: seq<Vector>) returns (mn: Vector, mx: Vector)
    ensures |vlist| == 0 ==> mn == Zero && mx == Zero
    ensures |vlist| > 0 ==> forall j :: 0 <= j < 4 ==> mn.At(j) == MinAt(vlist, j) && mx.At(j) == MaxAt(vlist, j)
  {
    if |vlist| == 0 {
      return Zero, Zero;
    }
    mn := vlist[0];
    mx := vlist[0];
    for i := 0 to |vlist|
      invariant var n := if i == 0 then 1 else i;
                forall j :: 0 <= j < 4 ==> mn.At(j) == MinAt(vlist[..n], j) && mx.At(j) == MaxAt(vlist[..n], j)
    {
      var n := if i == 0 then 1 else i;
      assert vlist[..i + 1][..i] == vlist[..i];
      for j := 0 to 4
        invariant forall j' :: 0 <= j' < j ==> mn.At(j') == MinAt(vlist[..i + 1], j') && mx.At(j') == MaxAt(vlist[..i + 1], j')
        invariant forall j' :: j <= j' < 4 ==> mn.At(j') == MinAt(vlist[..n], j') && mx.At(j') == MaxAt(vlist[..n], j')
      {
        if vlist[i].At(j) < mn.At(j) {
          mn := mn.Set(j, vlist[i].At(j));
        }
        if vlist[i].At(j) > mx.At(j) {
          mx := mx.Set(j, vlist[i].At(j));
        }
      }
    }
    assert vlist[..|vlist|] == vlist;
  }
}
