/**
 * Surface look-ups of an intersection record (raytracer/intersection.go):
 * texture coordinates, the UV wrap-around, texel indexing, the colour and
 * bump-map look-ups and the shading normal.
 */
module Shading {
  import opened Vectors
  import opened Matrices
  import opened Triangles
  import opened Settings

  /** An image as the decoded Images and BumpMapNormals hold it: columns of texels. */
  type Image = seq<seq<Vector>>

  /** Every column is at least as long as the first, which look-ups use as the height. */
  predicate WellFormedImage(img: Image)
  {
    |img| > 0 && |img[0]| > 0 && forall i :: 0 <= i < |img| ==> |img[i]| >= |img[0]|
  }

  predicate WellFormedImages(images: map<string, Image>)
  {
    forall k :: k in images ==> WellFormedImage(images[k])
  }

  /** The fractional part s - floor(s). */
  function Frac(s: real): (r: real)
    ensures 0.0 <= r < 1.0
  {
    s - s.Floor as real
  }

  /** float64(int64(x)): truncation toward zero. */
  function Trunc(x: real): (r: int)
    ensures x >= 0.0 ==> 0 <= r && r as real <= x < r as real + 1.0
    ensures x < 0.0 ==> r <= 0 && r as real - 1.0 < x <= r as real
  {
    if x >= 0.0 then x.Floor else -((-x).Floor)
  }

  /** The two-sided wrap applied to both texture coordinates before flipping v. */
  function WrapBack(s: real): (r: real)
    ensures 0.0 <= r <= 1.0
  {
    var a := if s > 1.0 then s - s.Floor as real else s;
    if a < 0.0 then 1.0 - (Abs(a) - Abs(a).Floor as real) else a
  }

  /**
   * The u coordinate after the wrap of getColor and getBumpNormal: the
   * wrap, then the integral part subtracted.
   */
  function WrapU(s: real): (r: real)
  {
    var b := WrapBack(s);
    b - Trunc(b) as real
  }

  /** The v coordinate: the same wrap, flipped as 1 - v, then the integral part subtracted. */
  function WrapV(s: real): (r: real)
  {
    var c := 1.0 - WrapBack(s);
    c - Trunc(c) as real
  }

  /** The wrapped u is the fractional part of s, so it lies in [0, 1). */
  lemma WrapUIsFrac(s: real)
    ensures WrapU(s) == Frac(s)
    ensures 0.0 <= WrapU(s) < 1.0
  {
    if s < 0.0 {
      NegativeWrap(s);
    }
  }

  /** The wrapped v is the fractional part of -s, so it lies in [0, 1). */
  lemma WrapVIsFracOfNegation(s: real)
    ensures WrapV(s) == Frac(-s)
    ensures 0.0 <= WrapV(s) < 1.0
  {
    if s < 0.0 {
      NegativeWrap(s);
    } else if s > 1.0 {
      FracOfNegation(s);
    } else if 0.0 < s < 1.0 {
      FracOfNegation(s);
    }
  }

  /** For negative s the wrap gives 1 - frac(-s), which is frac(s) unless s is integral. */
  lemma NegativeWrap(s: real)
    requires s < 0.0
    ensures WrapBack(s) == 1.0 - Frac(-s)
    ensures Frac(-s) == 0.0 ==> Frac(s) == 0.0
    ensures Frac(-s) != 0.0 ==> Frac(s) == 1.0 - Frac(-s)
  {
    FracOfNegation(-s);
  }

  /** frac(-s) is 1 - frac(s), or 0 when s is integral. */
  lemma FracOfNegation(s: real)
    ensures Frac(s) == 0.0 ==> Frac(-s) == 0.0
    ensures Frac(s) != 0.0 ==> Frac(-s) == 1.0 - Frac(s)
  {
    var f := s.Floor;
    if Frac(s) != 0.0 {
      assert (-s).Floor == -f - 1;
    } else {
      assert (-s).Floor == -f;
    }
  }

  /** int(len * s): the texel index along an axis of `len` texels. */
  function TexelIndex(len: nat, s: real): (r: int)
    ensures 0.0 <= s < 1.0 && len > 0 ==> 0 <= r < len
  {
    var x := len as real * s;
    if 0.0 <= s < 1.0 && len > 0 then TexelBound(len, s); Trunc(x) else Trunc(x)
  }

  lemma TexelBound(len: nat, s: real)
    requires 0.0 <= s < 1.0 && len > 0
    ensures 0 <= Trunc(len as real * s) < len
  {
    var x := len as real * s;
    assert 0.0 <= x < len as real;
    assert x.Floor as real <= x;
  }

  /**
   * getTexCoords: the texture coordinates T1, T2, T3 weighted by the
   * barycentric coordinates of the hit point; z and w are 0.
   */
  function TexCoords(t: Triangle, p: Vector): (r: Vector)
    ensures r.z == 0.0 && r.w == 0.0
  {
    var b := BarycentricCoordinates(t.P1, t.P2, t.P3, p);
    Vector(b.u * t.T1.x + b.v * t.T2.x + b.w * t.T3.x,
           b.u * t.T1.y + b.v * t.T2.y + b.w * t.T3.y,
           0.0, 0.0)
  }

  /**
   * At the point of weights u0, v0 of a non-degenerate triangle, the texture
   * coordinates interpolate T1, T2 and T3 with the same weights.
   */
  lemma TexCoordsInterpolate(t: Triangle, u0: real, v0: real)
    requires NonDegenerate(t.P1, t.P2, t.P3)
    ensures var r := TexCoords(t, PlanePoint(t.P1, t.P2, t.P3, u0, v0));
            r.x == u0 * t.T1.x + v0 * t.T2.x + (1.0 - u0 - v0) * t.T3.x &&
            r.y == u0 * t.T1.y + v0 * t.T2.y + (1.0 - u0 - v0) * t.T3.y
  {
    BarycentricRecoversWeights(t.P1, t.P2, t.P3, u0, v0);
  }

  /** The texel of `img` that the texture coordinates `s` select. */
  function Texel(img: Image, s: Vector): (r: Vector)
    requires WellFormedImage(img)
    ensures exists x, y :: 0 <= x < |img| && 0 <= y < |img[x]| && r == img[x][y]
  {
    WrapUIsFrac(s.x);
    WrapVIsFracOfNegation(s.y);
    var px := TexelIndex(|img|, WrapU(s.x));
    var py := TexelIndex(|img[0]|, WrapV(s.y));
    img[px][py]
  }

  /** The wraps Texel applies are the fractional parts of u and of -v. */
  lemma TexelOfFracs(img: Image, s: Vector)
    requires WellFormedImage(img)
    ensures var px := TexelIndex(|img|, Frac(s.x));
            var py := TexelIndex(|img[0]|, Frac(-s.y));
            0 <= px < |img| && 0 <= py < |img[px]| && Texel(img, s) == img[px][py]
  {
    WrapUIsFrac(s.x);
    WrapVIsFracOfNegation(s.y);
  }

  /** The texel read is at column int(len * frac(u)) and row int(len0 * frac(-v)). */
  lemma TexelPosition(img: Image, s: Vector)
    requires WellFormedImage(img)
    ensures var px := Trunc(|img| as real * Frac(s.x));
            var py := Trunc(|img[0]| as real * Frac(-s.y));
            0 <= px < |img| && 0 <= py < |img[px]| && Texel(img, s) == img[px][py]
  {
    TexelOfFracs(img, s);
    assert TexelIndex(|img|, Frac(s.x)) == Trunc(|img| as real * Frac(s.x));
    assert TexelIndex(|img[0]|, Frac(-s.y)) == Trunc(|img[0]| as real * Frac(-s.y));
  }

  /** getColor: white without colours, else the texture's texel, else the material colour. */
  function GetColor(i: Intersection, cfg: Config, images: map<string, Image>): (r: Vector)
    requires cfg.RenderColors ==> i.Triangle.Some?
    requires WellFormedImages(images)
    ensures !cfg.RenderColors ==> r == Vector(1.0, 1.0, 1.0, 1.0)
    ensures cfg.RenderColors && (i.Triangle.value.Material.Texture == "" || i.Triangle.value.Material.Texture !in images) ==>
              r == i.Triangle.value.Material.Color
    ensures cfg.RenderColors && i.Triangle.value.Material.Texture != "" && i.Triangle.value.Material.Texture in images ==>
              var img := images[i.Triangle.value.Material.Texture];
              exists x, y :: 0 <= x < |img| && 0 <= y < |img[x]| && r == img[x][y]
  {
    if !cfg.RenderColors then Vector(1.0, 1.0, 1.0, 1.0)
    else
      var material := i.Triangle.value.Material;
      if material.Texture != "" && material.Texture in images then
        Texel(images[material.Texture], TexCoords(i.Triangle.value, i.Intersection))
      else material.Color
  }

  /** hasBumpMap: the material names a texture that has a bump map. */
  predicate HasBumpMap(i: Intersection, bumps: map<string, Image>)
    requires i.Triangle.Some?
  {
    i.Triangle.value.Material.Texture != "" && i.Triangle.value.Material.Texture in bumps
  }

  /**
   * The tangent and bitangent getBumpNormal builds around the normal n:
   * n x (0, -1, 0), or n x (0, 0, 1) when the first is shorter than DIFF,
   * normalised, and the normalised n x tangent.
   */
  function TangentFrame(n: Vector, h: Helpers): (Vector, Vector)
  {
    var t0 := CrossProduct(n, Vector(0.0, -1.0, 0.0, 0.0));
    var t1 := if Length(h, t0) < DIFF then CrossProduct(n, Vector(0.0, 0.0, 1.0, 0.0)) else t0;
    var t := NormalizeVector(t1, h.sqrt);
    (t, NormalizeVector(CrossProduct(n, t), h.sqrt))
  }

  /** Whatever the square root, the tangent frame is orthogonal: t . n = b . n = b . t = 0. */
  lemma TangentFrameOrthogonal(n: Vector, h: Helpers)
    ensures Dot(TangentFrame(n, h).0, n) == 0.0
    ensures Dot(TangentFrame(n, h).1, n) == 0.0
    ensures Dot(TangentFrame(n, h).1, TangentFrame(n, h).0) == 0.0
  {
    var t0 := CrossProduct(n, Vector(0.0, -1.0, 0.0, 0.0));
    var t1 := if Length(h, t0) < DIFF then CrossProduct(n, Vector(0.0, 0.0, 1.0, 0.0)) else t0;
    NormalizedOrthogonal(t1, n, h.sqrt);
    var t := NormalizeVector(t1, h.sqrt);
    var c := CrossProduct(n, t);
    NormalizedOrthogonal(c, n, h.sqrt);
    NormalizedOrthogonal(c, t, h.sqrt);
  }

  /** Normalising a vector orthogonal to m keeps it orthogonal to m. */
  lemma NormalizedOrthogonal(v: Vector, m: Vector, sqrt: real -> real)
    requires Dot(v, m) == 0.0
    ensures Dot(NormalizeVector(v, sqrt), m) == 0.0
  {
    var n := sqrt(SquaredNorm(v));
    if n != 0.0 {
      var k := 1.0 / n;
      var r := NormalizeVector(v, sqrt);
      assert r.x == v.x * k && r.y == v.y * k && r.z == v.z * k;
      assert Dot(r, m) == k * Dot(v, m);
    }
  }

  /**
   * getBumpNormal: the stored bump normal of the texel, carried into the
   * tangent frame (t, b, n) and normalised, with w = 0; without a texture
   * it is the current normal.
   */
  function GetBumpNormal(i: Intersection, bumps: map<string, Image>, h: Helpers): (r: Vector)
    requires i.Triangle.Some?
    requires i.Triangle.value.Material.Texture != "" ==> HasBumpMap(i, bumps)
    requires WellFormedImages(bumps)
    ensures i.Triangle.value.Material.Texture == "" ==> r == i.IntersectionNormal
    ensures i.Triangle.value.Material.Texture != "" ==> r.w == 0.0
  {
    var material := i.Triangle.value.Material;
    if material.Texture != "" then
      var bump := Texel(bumps[material.Texture], TexCoords(i.Triangle.value, i.Intersection));
      var frame := TangentFrame(i.IntersectionNormal, h);
      var tbn := Matrix(frame.0, frame.1, i.IntersectionNormal, Vector(0.0, 0.0, 0.0, 1.0));
      NormalizeVector(VectorTransform(bump, tbn), h.sqrt).(w := 0.0)
    else i.IntersectionNormal
  }

  /**
   * The interpolated normal of a smooth triangle: N1, N2, N3 (all negated
   * when N1 is not on the side of the current normal) weighted by the
   * barycentric coordinates of the hit point, then normalised.
   */
  function SmoothNormal(t: Triangle, p: Vector, normal: Vector, h: Helpers): Vector
  {
    var b := BarycentricCoordinates(t.P1, t.P2, t.P3, p);
    var flip := !h.sameSide(t.N1, normal);
    var n1 := if flip then ScaleVector(t.N1, -1.0) else t.N1;
    var n2 := if flip then ScaleVector(t.N2, -1.0) else t.N2;
    var n3 := if flip then ScaleVector(t.N3, -1.0) else t.N3;
    NormalizeVector(AddVector(AddVector(ScaleVector(n1, b.u), ScaleVector(n2, b.v)), ScaleVector(n3, b.w)), h.sqrt)
  }

  /**
   * Where the three vertex normals agree, as on a flat face, the smooth
   * normal is that normal (or its negation) normalised: the weights sum to 1.
   */
  lemma SmoothNormalOfFlatFace(t: Triangle, p: Vector, normal: Vector, h: Helpers)
    requires t.N1 == t.N2 == t.N3
    ensures SmoothNormal(t, p, normal, h) ==
              NormalizeVector(if h.sameSide(t.N1, normal) then t.N1 else ScaleVector(t.N1, -1.0), h.sqrt)
  {
    var b := BarycentricCoordinates(t.P1, t.P2, t.P3, p);
    var n := if h.sameSide(t.N1, normal) then t.N1 else ScaleVector(t.N1, -1.0);
    WeightsSumToOne(n, b.u, b.v, b.w);
  }

  lemma WeightsSumToOne(n: Vector, u: real, v: real, w: real)
    requires u + v + w == 1.0
    ensures AddVector(AddVector(ScaleVector(n, u), ScaleVector(n, v)), ScaleVector(n, w)) == n
  {
    assert n.x * u + n.x * v + n.x * w == n.x * (u + v + w);
    assert n.y * u + n.y * v + n.y * w == n.y * (u + v + w);
    assert n.z * u + n.z * v + n.z * w == n.z * (u + v + w);
    assert n.w * u + n.w * v + n.w * w == n.w * (u + v + w);
  }

  /**
   * getNormal: on a hit, a smooth triangle's normal is interpolated, and a
   * bump map (when rendered) then replaces it; nothing but the normal changes.
   */
  function GetNormal(i: Intersection, cfg: Config, bumps: map<string, Image>, h: Helpers): (r: Intersection)
    requires i.Hit ==> i.Triangle.Some?
    requires WellFormedImages(bumps)
    ensures !i.Hit ==> r == i
    ensures r == i.(IntersectionNormal := r.IntersectionNormal)
    ensures i.Hit && !i.Triangle.value.Smooth && !(HasBumpMap(i, bumps) && cfg.RenderBumpMap) ==> r == i
    ensures i.Hit && HasBumpMap(i, bumps) && cfg.RenderBumpMap ==> r.IntersectionNormal.w == 0.0
  {
    if !i.Hit then i
    else
      var t := i.Triangle.value;
      var i1 := if t.Smooth then i.(IntersectionNormal := SmoothNormal(t, i.Intersection, i.IntersectionNormal, h)) else i;
      if HasBumpMap(i1, bumps) && cfg.RenderBumpMap then i1.(IntersectionNormal := GetBumpNormal(i1, bumps, h))
      else i1
  }
}
