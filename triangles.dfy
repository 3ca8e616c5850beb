// Triangles, materials, photons and the ray/triangle intersection record
// (raytracer/intersection.go, raytracer/material.go, raytracer/photon.go).
module Triangles {
  import opened Wrappers
  import opened Vectors
  import opened Boxes

  /** One face: three vertex indices and a smoothing flag (face[3] == 1 means smooth). */
  datatype Indice = Indice(i0: int, i1: int, i2: int, i3: int)

  datatype Material = Material(
    Color: Vector,
    Texture: string,
    Transmission: real,
    IndexOfRefraction: real,
    Indices: seq<Indice>,
    Glossiness: real,
    Roughness: real,
    Light: bool,
    LightStrength: real)

  datatype Photon = Photon(Location: Vector, Direction: Vector, Color: Vector, Intensity: real)

  datatype Triangle = Triangle(
    id: int,
    P1: Vector, P2: Vector, P3: Vector,
    N1: Vector, N2: Vector, N3: Vector,
    T1: Vector, T2: Vector, T3: Vector,
    Material: Material,
    Photons: seq<Photon>,
    Smooth: bool)

  /**
   * The record a ray cast fills in. Go points at the hit triangle;
   * here the record carries the triangle's value, None standing for nil.
   */
  datatype Intersection = Intersection(
    Hit: bool,
    Triangle: Option<Triangle>,
    Intersection: Vector,
    IntersectionNormal: Vector,
    RayStart: Vector,
    RayDir: Vector,
    ObjectName: string,
    Dist: real,
    Hits: int)

  /** Go's zero value of an Intersection. */
  const NoIntersection: Intersection :=
    Intersection(false, None, Zero, Zero, Zero, Zero, "", 0.0, 0)

  /** equals: two triangles are equal when their three vertices are. */
  predicate Equals(t: Triangle, dest: Triangle)
  {
    t.P1 == dest.P1 && t.P2 == dest.P2 && t.P3 == dest.P3
  }

  /** midPoint: the mean of the three vertices on all four components. */
  function MidPoint(t: Triangle): Vector
  {
    ScaleVector(AddVector(AddVector(t.P1, t.P2), t.P3), 1.0 / 3.0)
  }

  /** The midpoint is the mean of the three vertices, component by component. */
  lemma MidPointIsMean(t: Triangle, i: nat)
    requires i < 4
    ensures 3.0 * MidPoint(t).At(i) == t.P1.At(i) + t.P2.At(i) + t.P3.At(i)
  {
  }

  /** The box getBoundingBox computes: P1 extended by P2 and by P3. */
  function TriangleMin(t: Triangle): Vector
  {
    Vector(Min(Min(t.P1.x, t.P2.x), t.P3.x), Min(Min(t.P1.y, t.P2.y), t.P3.y), Min(Min(t.P1.z, t.P2.z), t.P3.z), t.P1.w)
  }

  function TriangleMax(t: Triangle): Vector
  {
    Vector(Max(Max(t.P1.x, t.P2.x), t.P3.x), Max(Max(t.P1.y, t.P2.y), t.P3.y), Max(Max(t.P1.z, t.P2.z), t.P3.z), t.P1.w)
  }

  /** The triangle's box covers its three vertices and each bound is met by one of them. */
  lemma TriangleBoxTight(t: Triangle)
    ensures Covers(TriangleMin(t), TriangleMax(t), t.P1)
    ensures Covers(TriangleMin(t), TriangleMax(t), t.P2)
    ensures Covers(TriangleMin(t), TriangleMax(t), t.P3)
    ensures forall i :: 0 <= i < 3 ==>
              (TriangleMin(t).At(i) == t.P1.At(i) || TriangleMin(t).At(i) == t.P2.At(i) || TriangleMin(t).At(i) == t.P3.At(i)) &&
              (TriangleMax(t).At(i) == t.P1.At(i) || TriangleMax(t).At(i) == t.P2.At(i) || TriangleMax(t).At(i) == t.P3.At(i))
  {
  }

  /**
   * getBoundingBox: a new box starting at P1 and extended by P2 and P3.
   */
  method TriangleBox(t: Triangle) returns (b: BoundingBox)
    ensures fresh(b)
    ensures b.MinExtend == TriangleMin(t) && b.MaxExtend == TriangleMax(t)
  {
    b := new BoundingBox(t.P1, t.P1);
    b.ExtendVector(t.P2);
    b.ExtendVector(t.P3);
    assert b.MinExtend.At(0) == TriangleMin(t).At(0) && b.MinExtend.At(1) == TriangleMin(t).At(1) && b.MinExtend.At(2) == TriangleMin(t).At(2);
    assert b.MaxExtend.At(0) == TriangleMax(t).At(0) && b.MaxExtend.At(1) == TriangleMax(t).At(1) && b.MaxExtend.At(2) == TriangleMax(t).At(2);
  }
}
