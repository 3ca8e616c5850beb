/**
 * Shading of one hit (Intersection.render in raytracer/intersection.go):
 * the environment or the transparent colour on a miss, the plain colour at
 * the depth limit, and otherwise the surface colour lit by the direct light
 * and the occlusion term, followed by reflected and refracted rays traced
 * one level deeper and blended in.
 */
module Rendering {
  import opened Wrappers
  import opened Vectors
  import opened Triangles
  import opened Settings
  import opened Shading
  import opened Context
  import opened Ambient
  import opened DirectLighting

  /** base * (1 - f) + other * f on the colour channels, alpha 1. */
  function Blend(base: Vector, other: Vector, f: real): Vector
  {
    Vector(base.x * (1.0 - f) + other.x * f, base.y * (1.0 - f) + other.y * f, base.z * (1.0 - f) + other.z * f, 1.0)
  }

  /** The colour lit channel by channel, opaque unless the distance is negative. */
  function Shade(color: Vector, light: Vector, dist: real): Vector
  {
    Vector(color.x * light.x, color.y * light.y, color.z * light.z, if dist < 0.0 then 0.0 else 1.0)
  }

  /** The light with the occlusion rate added to every channel, alpha 1. */
  function Occluded(light: Vector, rate: real): Vector
  {
    Vector(light.x + rate, light.y + rate, light.z + rate, 1.0)
  }

  /** The ambient samples of a hit, as ambientSampling returns them. */
  function Samples(i: Intersection, w: World): seq<Intersection>
    requires i.Triangle.Some?
  {
    var dirs := SampleDirections(i, w);
    OtherHits(seq(|dirs|, k requires 0 <= k < |dirs| => w.cast(i.Intersection, dirs[k])), i.Triangle.value)
  }

  /** ambientLightCalc's value for the samples of a hit. */
  function Occlusion(i: Intersection, w: World): real
    requires i.Triangle.Some?
  {
    OcclusionRatio(Samples(i, w), w.cfg.SamplerLimit, OcclusionRadius(w.cfg, w.shortRadius))
  }

  /** The light a hit is shaded with, given the direct light calculateTotalLight returned. */
  function LightAt(i: Intersection, w: World, direct: Vector): Vector
    requires i.Triangle.Some?
  {
    var light := if w.cfg.RenderLights then direct else Zero;
    if w.cfg.RenderOcclusion then Occluded(light, Occlusion(i, w) * w.cfg.OcclusionRate) else light
  }

  /** The colour a hit is shaded with: its own colour, shared with the ambient colour when enabled. */
  function SurfaceAt(i: Intersection, w: World): Vector
    requires Ready(w) && i.Triangle.Some?
  {
    var c := GetColor(i, w.cfg, w.images);
    if w.cfg.RenderAmbientColors then
      var samples := Samples(i, w);
      var dirs := SampleDirections(i, w);
      OtherHitsFiltered(seq(|dirs|, k requires 0 <= k < |dirs| => w.cast(i.Intersection, dirs[k])), i.Triangle.value);
      w.h.limit(Blend(c, MeanColor(CountedColors(samples, w)), w.cfg.AmbientColorSharingRatio), 1.0)
    else c
  }

  /** The material's traced directions: the normal for a smooth material, roughness * 10 samples otherwise. */
  function Directions(i: Intersection, h: Helpers): seq<Vector>
    requires i.Triangle.Some?
  {
    var m := i.Triangle.value.Material;
    if m.Glossiness > 0.0 || m.Transmission > 0.0 then
      if m.Roughness == 0.0 then [i.IntersectionNormal]
      else if (m.Roughness * 10.0).Floor > 0 then h.spread(i.IntersectionNormal, (m.Roughness * 10.0).Floor, 1.0 - m.Roughness)
      else []
    else []
  }

  /** The part of the refracted colour that replaces the shaded one. */
  function Transparency(m: Material): real
  {
    m.Transmission * (1.0 - m.Roughness)
  }

  /** The reflected and the refracted means blended into the shaded colour, as enabled. */
  function Traced(i: Intersection, cfg: Config, shaded: Vector, reflected: seq<Vector>, refracted: seq<Vector>): Vector
    requires i.Triangle.Some?
  {
    var m := i.Triangle.value.Material;
    var c := if m.Glossiness > 0.0 && cfg.RenderReflections then Blend(shaded, MeanColor(reflected), m.Glossiness) else shaded;
    if m.Transmission > 0.0 && cfg.RenderRefractions then Blend(c, MeanColor(refracted), Transparency(m)) else c
  }

  /**
   * The direction of a traced ray: the view ray reflected about the traced
   * direction, or the view ray refracted at the hit (the refraction does not
   * use the traced direction).
   */
  function TraceDirection(i: Intersection, h: Helpers, dir: Vector, reflect: bool): Vector
    requires i.Triangle.Some?
  {
    if reflect then h.reflect(i.RayDir, dir) else h.refract(i.RayDir, i.IntersectionNormal, i.Triangle.value.Material.IndexOfRefraction)
  }

  /**
   * The colour render gives a hit at `depth`: on a miss the transparent
   * colour or the environment's colour in the ray's direction; at the depth
   * limit the hit's colour; otherwise the surface colour shaded by the light
   * at the hit (the total light at depth 0 when lights are on), limited, with
   * the colours traced one level deeper blended in.
   */
  function RenderColor(w: World, i: Intersection, depth: int): Vector
    requires Ready(w) && Resolved(i)
    decreases w.cfg.MaxReflectionDepth - depth, 1
  {
    if !i.Hit then
      if w.environment.None? then w.cfg.TransparentColor else w.environment.value(i.RayDir)
    else if depth >= w.cfg.MaxReflectionDepth then GetColor(i, w.cfg, w.images)
    else
      var shaded := w.h.limit(Shade(SurfaceAt(i, w), LightAt(i, w, TotalLight(w, i, 0)), i.Dist), 1.0);
      Traced(i, w.cfg, shaded, TracedColors(w, i, depth, true), TracedColors(w, i, depth, false))
  }

  /** The colours of the rays traced from a hit, one per traced direction, each rendered one level deeper. */
  function TracedColors(w: World, i: Intersection, depth: int, reflect: bool): (r: seq<Vector>)
    requires Ready(w) && i.Hit && i.Triangle.Some? && depth < w.cfg.MaxReflectionDepth
    decreases w.cfg.MaxReflectionDepth - depth, 0
    ensures |r| == |Directions(i, w.h)|
  {
    var dirs := Directions(i, w.h);
    seq(|dirs|, k requires 0 <= k < |dirs| =>
      RenderColor(w, w.cast(i.Intersection, TraceDirection(i, w.h, dirs[k], reflect)), depth + 1))
  }

  /**
   * render: a miss gives the transparent colour, or the environment's colour
   * in the ray's direction; at the depth limit a hit gives its colour; any
   * other hit gives its surface colour times its light (opaque unless the
   * distance is negative), limited, with the mean colour of the reflected
   * and of the refracted rays (one per traced direction, rendered one level
   * deeper) blended in by glossiness and transparency.
   */
  method Render(w: World, i: Intersection, depth: int)
    returns (color: Vector, ghost direct: Vector, ghost shaded: Vector, ghost reflected: seq<Vector>, ghost refracted: seq<Vector>)
    requires Ready(w) && Resolved(i)
    decreases w.cfg.MaxReflectionDepth - depth, 3
    ensures !i.Hit && w.environment.None? ==> color == w.cfg.TransparentColor
    ensures !i.Hit && w.environment.Some? ==> color == w.environment.value(i.RayDir)
    ensures i.Hit && depth >= w.cfg.MaxReflectionDepth ==> color == GetColor(i, w.cfg, w.images)
    ensures i.Hit && depth < w.cfg.MaxReflectionDepth ==>
              shaded == w.h.limit(Shade(SurfaceAt(i, w), LightAt(i, w, direct), i.Dist), 1.0) &&
              color == Traced(i, w.cfg, shaded, reflected, refracted)
    ensures i.Hit && depth < w.cfg.MaxReflectionDepth && i.Triangle.value.Material.Glossiness > 0.0 && w.cfg.RenderReflections ==>
              |reflected| == |Directions(i, w.h)|
    ensures i.Hit && depth < w.cfg.MaxReflectionDepth && i.Triangle.value.Material.Transmission > 0.0 && w.cfg.RenderRefractions ==>
              |refracted| == |Directions(i, w.h)|
    ensures color == RenderColor(w, i, depth)
  {
    direct, shaded, reflected, refracted := Zero, Zero, [], [];
    if !i.Hit {
      if w.environment.None? {
        return w.cfg.TransparentColor, direct, shaded, reflected, refracted;
      }
      return w.environment.value(i.RayDir), direct, shaded, reflected, refracted;
    }
    if depth >= w.cfg.MaxReflectionDepth {
      return GetColor(i, w.cfg, w.images), direct, shaded, reflected, refracted;
    }
    var samples := AmbientSampling(i, w);
    assert samples == Samples(i, w);
    var light;
    light, direct := HitLight(w, i, samples);
    color := GetColor(i, w.cfg, w.images);
    if w.cfg.RenderAmbientColors {
      var aColor := AmbientColor(i, samples, w);
      var r := w.cfg.AmbientColorSharingRatio;
      color := Blend(color, aColor, r);
      color := w.h.limit(color, 1.0);
    }
    assert color == SurfaceAt(i, w);
    color := Shade(color, light, i.Dist);
    color := w.h.limit(color, 1.0);
    shaded := color;
    color, reflected, refracted := TraceHit(w, i, color, depth);
  }

  /** The light of render: the direct light when enabled, plus the occlusion term when enabled. */
  method HitLight(w: World, i: Intersection, samples: seq<Intersection>) returns (light: Vector, ghost direct: Vector)
    requires Ready(w) && i.Hit && i.Triangle.Some? && samples == Samples(i, w)
    ensures light == LightAt(i, w, direct)
    ensures light == LightAt(i, w, TotalLight(w, i, 0))
  {
    light, direct := Zero, Zero;
    if w.cfg.RenderLights {
      light := GetDirectLight(w, i);
      direct := light;
    }
    if w.cfg.RenderOcclusion {
      light := AddOcclusion(w, samples, light);
      OcclusionOfSamples(i, w, samples);
    }
  }

  /** getDirectLight: calculateTotalLight at depth 0, whatever the depth of the hit. */
  method GetDirectLight(w: World, i: Intersection) returns (light: Vector)
    requires Ready(w) && i.Hit && i.Triangle.Some?
    ensures light == TotalLight(w, i, 0)
  {
    ghost var perLight;
    light, perLight := CalculateTotalLight(w, i, 0);
  }

  /** Occlusion in terms of samples already cast. */
  lemma OcclusionOfSamples(i: Intersection, w: World, samples: seq<Intersection>)
    requires i.Triangle.Some? && samples == Samples(i, w)
    ensures Occlusion(i, w) == OcclusionRatio(samples, w.cfg.SamplerLimit, OcclusionRadius(w.cfg, w.shortRadius))
  {
  }

  /** The occlusion step of render: ambientLightCalc's rate, scaled, added to each channel. */
  method AddOcclusion(w: World, samples: seq<Intersection>, light: Vector) returns (r: Vector)
    ensures r == Occluded(light, OcclusionRatio(samples, w.cfg.SamplerLimit, OcclusionRadius(w.cfg, w.shortRadius)) * w.cfg.OcclusionRate)
  {
    var aRate := AmbientLightCalc(samples, w.cfg.SamplerLimit, w.cfg, w.shortRadius);
    aRate := aRate * w.cfg.OcclusionRate;
    r := Occluded(light, aRate);
  }

  /** The tracing part of render: reflection, then refraction, each blended into the colour. */
  method TraceHit(w: World, i: Intersection, shaded: Vector, depth: int)
    returns (color: Vector, ghost reflected: seq<Vector>, ghost refracted: seq<Vector>)
    requires Ready(w) && i.Hit && i.Triangle.Some? && depth < w.cfg.MaxReflectionDepth
    decreases w.cfg.MaxReflectionDepth - depth, 2
    ensures color == Traced(i, w.cfg, shaded, reflected, refracted)
    ensures i.Triangle.value.Material.Glossiness > 0.0 && w.cfg.RenderReflections ==> |reflected| == |Directions(i, w.h)|
    ensures i.Triangle.value.Material.Transmission > 0.0 && w.cfg.RenderRefractions ==> |refracted| == |Directions(i, w.h)|
    ensures color == Traced(i, w.cfg, shaded, TracedColors(w, i, depth, true), TracedColors(w, i, depth, false))
  {
    color, reflected, refracted := shaded, [], [];
    var dirs := TracedDirections(i, w.h);
    var m := i.Triangle.value.Material;
    if m.Glossiness > 0.0 && w.cfg.RenderReflections {
      var collColor;
      collColor, reflected := TraceRays(w, i, dirs, depth + 1, true);
      assert reflected == TracedColors(w, i, depth, true);
      color := Blend(color, collColor, m.Glossiness);
    }
    ghost var c := color;
    assert c == if m.Glossiness > 0.0 && w.cfg.RenderReflections then Blend(shaded, MeanColor(reflected), m.Glossiness) else shaded;
    if m.Transmission > 0.0 && w.cfg.RenderRefractions {
      var collColor;
      collColor, refracted := TraceRays(w, i, dirs, depth + 1, false);
      assert refracted == TracedColors(w, i, depth, false);
      var trans := m.Transmission * (1.0 - m.Roughness);
      assert trans == Transparency(m);
      color := Blend(color, collColor, trans);
    }
  }

  /** The directions render traces, built as Go builds its dirs slice. */
  method TracedDirections(i: Intersection, h: Helpers) returns (dirs: seq<Vector>)
    requires i.Triangle.Some?
    ensures dirs == Directions(i, h)
  {
    dirs := [];
    var m := i.Triangle.value.Material;
    if m.Glossiness > 0.0 || m.Transmission > 0.0 {
      if m.Roughness == 0.0 {
        dirs := dirs + [i.IntersectionNormal];
      } else {
        var numNormals := (m.Roughness * 10.0).Floor;
        if numNormals > 0 {
          var dirSamples := h.spread(i.IntersectionNormal, numNormals, 1.0 - m.Roughness);
          dirs := dirs + dirSamples;
        }
      }
    }
  }

  /**
   * The reflection (`reflect`) or refraction loop of render: one ray per
   * direction from the hit point, each rendered at `depth`; the result is
   * the mean of their colours.
   */
  method TraceRays(w: World, i: Intersection, dirs: seq<Vector>, depth: int, reflect: bool)
    returns (mean: Vector, ghost colors: seq<Vector>)
    requires Ready(w) && i.Hit && i.Triangle.Some?
    requires depth <= w.cfg.MaxReflectionDepth
    decreases w.cfg.MaxReflectionDepth - depth + 1, 1
    ensures |colors| == |dirs| && mean == MeanColor(colors)
    ensures forall k :: 0 <= k < |dirs| ==> colors[k] == RenderColor(w, w.cast(i.Intersection, TraceDirection(i, w.h, dirs[k], reflect)), depth)
  {
    var collColor := Zero;
    colors := [];
    for m := 0 to |dirs|
      invariant |colors| == m
      invariant collColor == SumVectors(colors)
      invariant forall k :: 0 <= k < m ==> colors[k] == RenderColor(w, w.cast(i.Intersection, TraceDirection(i, w.h, dirs[k], reflect)), depth)
    {
      var dir := if reflect then w.h.reflect(i.RayDir, dirs[m])
                 else w.h.refract(i.RayDir, i.IntersectionNormal, i.Triangle.value.Material.IndexOfRefraction);
      var target := w.cast(i.Intersection, dir);
      var targetColor, _, _, _, _ := Render(w, target, depth);
      assert (colors + [targetColor])[..m] == colors;
      assert AddVector(collColor, targetColor) == AddVector(targetColor, collColor);
      collColor := AddVector(collColor, targetColor);
      colors := colors + [targetColor];
    }
    if |dirs| > 0 {
      collColor := ScaleVector(collColor, 1.0 / |dirs| as real);
    }
    return collColor, colors;
  }

  // ---------------------------------------------------------------------
  // What the blending keeps

  /** A colour whose channels lie in [0, 1]. */
  predicate InUnitCube(v: Vector)
  {
    0.0 <= v.x <= 1.0 && 0.0 <= v.y <= 1.0 && 0.0 <= v.z <= 1.0
  }

  /** Blending by 0 keeps the base colour and by 1 takes the other colour (alpha set to 1). */
  lemma BlendEndpoints(base: Vector, other: Vector)
    ensures Blend(base, other, 0.0) == base.(w := 1.0)
    ensures Blend(base, other, 1.0) == other.(w := 1.0)
  {
  }

  /** A blend by a factor in [0, 1] lies between its two colours, channel by channel. */
  lemma BlendBetween(b: real, o: real, f: real)
    requires 0.0 <= f <= 1.0
    ensures b * (1.0 - f) + o * f >= (if b < o then b else o)
    ensures b * (1.0 - f) + o * f <= (if b < o then o else b)
  {
    if b < o {
      ProductNonNegative(o - b, f);
      ProductNonNegative(o - b, 1.0 - f);
    } else {
      ProductNonNegative(b - o, f);
      ProductNonNegative(b - o, 1.0 - f);
    }
  }

  lemma ProductNonNegative(a: real, b: real)
    requires a >= 0.0 && b >= 0.0
    ensures a * b >= 0.0
  {
  }

  /** Blending two colours of the unit cube by a factor in [0, 1] stays in the unit cube. */
  lemma BlendInUnitCube(base: Vector, other: Vector, f: real)
    requires InUnitCube(base) && InUnitCube(other) && 0.0 <= f <= 1.0
    ensures InUnitCube(Blend(base, other, f))
  {
    var r := Blend(base, other, f);
    BlendChannelInUnit(base.x, other.x, f, r.x);
    BlendChannelInUnit(base.y, other.y, f, r.y);
    BlendChannelInUnit(base.z, other.z, f, r.z);
  }

  lemma BlendChannelInUnit(b: real, o: real, f: real, r: real)
    requires 0.0 <= b <= 1.0 && 0.0 <= o <= 1.0 && 0.0 <= f <= 1.0 && r == b * (1.0 - f) + o * f
    ensures 0.0 <= r <= 1.0
  {
    BlendBetween(b, o, f);
  }

  /** The channels of a sum of unit-cube colours lie between 0 and the number of colours. */
  lemma {:induction false} SumInBox(cs: seq<Vector>)
    requires forall k :: 0 <= k < |cs| ==> InUnitCube(cs[k])
    ensures var s := SumVectors(cs); var n := |cs| as real;
            0.0 <= s.x <= n && 0.0 <= s.y <= n && 0.0 <= s.z <= n
  {
    if |cs| > 0 {
      var init := cs[..|cs| - 1];
      assert forall k :: 0 <= k < |init| ==> init[k] == cs[k];
      SumInBox(init);
    }
  }

  /** The mean of unit-cube colours is in the unit cube. */
  lemma MeanInUnitCube(cs: seq<Vector>)
    requires forall k :: 0 <= k < |cs| ==> InUnitCube(cs[k])
    ensures InUnitCube(MeanColor(cs))
  {
    if |cs| > 0 {
      SumInBox(cs);
      var s, n := SumVectors(cs), |cs| as real;
      ScaledDown(s.x, n);
      ScaledDown(s.y, n);
      ScaledDown(s.z, n);
    }
  }

  lemma ScaledDown(s: real, n: real)
    requires n > 0.0 && 0.0 <= s <= n
    ensures 0.0 <= s * (1.0 / n) <= 1.0
  {
    assert s * (1.0 / n) == s / n;
  }

  /**
   * Tracing keeps colours in the unit cube: if the shaded colour and every
   * reflected and refracted colour are in it, and glossiness and
   * transparency lie in [0, 1], so is the traced colour.
   */
  lemma TracedInUnitCube(i: Intersection, cfg: Config, shaded: Vector, reflected: seq<Vector>, refracted: seq<Vector>)
    requires i.Triangle.Some?
    requires 0.0 <= i.Triangle.value.Material.Glossiness <= 1.0 && 0.0 <= Transparency(i.Triangle.value.Material) <= 1.0
    requires InUnitCube(shaded)
    requires forall k :: 0 <= k < |reflected| ==> InUnitCube(reflected[k])
    requires forall k :: 0 <= k < |refracted| ==> InUnitCube(refracted[k])
    ensures InUnitCube(Traced(i, cfg, shaded, reflected, refracted))
  {
    var m := i.Triangle.value.Material;
    MeanInUnitCube(reflected);
    MeanInUnitCube(refracted);
    var c := if m.Glossiness > 0.0 && cfg.RenderReflections then Blend(shaded, MeanColor(reflected), m.Glossiness) else shaded;
    if m.Glossiness > 0.0 && cfg.RenderReflections {
      BlendInUnitCube(shaded, MeanColor(reflected), m.Glossiness);
    }
    if m.Transmission > 0.0 && cfg.RenderRefractions {
      BlendInUnitCube(c, MeanColor(refracted), Transparency(m));
    }
  }

  /** A material that neither reflects nor transmits is not traced: the shaded colour is the result. */
  lemma UntracedKeepsShade(i: Intersection, cfg: Config, h: Helpers, shaded: Vector, reflected: seq<Vector>, refracted: seq<Vector>)
    requires i.Triangle.Some?
    requires i.Triangle.value.Material.Glossiness <= 0.0 && i.Triangle.value.Material.Transmission <= 0.0
    ensures Traced(i, cfg, shaded, reflected, refracted) == shaded
    ensures Directions(i, h) == []
  {
  }
}
