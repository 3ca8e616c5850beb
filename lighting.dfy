/**
 * Direct lighting (raytracer/direct_lighting.go): point and directional
 * lights with shadow rays, light passing through unsmoothed glass, and the
 * per-light sum with photon deposits added for caustics.
 */
module DirectLighting {
  import opened Wrappers
  import opened Vectors
  import opened Triangles
  import opened Settings
  import opened Shading
  import opened Context

  /** Light of colour `c` at intensity `I`: the colour's rgb scaled by I, and w = I. */
  function Lit(c: Vector, I: real): Vector
  {
    Vector(c.x * I, c.y * I, c.z * I, I)
  }

  /** The hit record with its triangle's LightStrength set to `s`. */
  function WithStrength(i: Intersection, s: real): Intersection
    requires i.Triangle.Some?
  {
    var t := i.Triangle.value;
    i.(Triangle := Some(t.(Material := t.Material.(LightStrength := s))))
  }

  /** The shadow ray's result either ends on the receiving triangle or `near` holds. */
  predicate Reaches(i: Intersection, shortest: Intersection, near: bool)
    requires i.Triangle.Some?
  {
    (shortest.Triangle.Some? && shortest.Triangle.value.id == i.Triangle.value.id) || near
  }

  /** The shadow ray is stopped by another, unsmoothed, transmissive triangle. */
  predicate ThroughGlass(i: Intersection, shortest: Intersection)
    requires i.Triangle.Some?
  {
    shortest.Hit && shortest.Triangle.Some? && shortest.Triangle.value.id != i.Triangle.value.id &&
    shortest.Triangle.value.Material.Transmission > 0.0 && !shortest.Triangle.value.Smooth
  }

  /** The colour of a light that passed through glass: tinted by the glass colour, alpha 1. */
  function Tinted(c: Vector, glass: Vector): Vector
  {
    Vector(c.x * glass.x, c.y * glass.y, c.z * glass.z, 1.0)
  }

  /** The strength of the light behind the glass, falling off with the square of the glass's distance. */
  function GlassStrength(shortest: Intersection, dotP: real, strength: real, cfg: Config): real
    requires shortest.Triangle.Some?
  {
    InvSquare(shortest.Dist) * cfg.Exposure * (dotP * strength * shortest.Triangle.value.Material.Transmission)
  }

  /** The light that continues from the glass's hit point. */
  function GlassLight(shortest: Intersection, light: Light, dotP: real, w: World): Light
    requires Ready(w) && shortest.Triangle.Some?
  {
    Light(shortest.Intersection, Tinted(light.Color, GetColor(shortest, w.cfg, w.images)), true,
          GlassStrength(shortest, dotP, light.LightStrength, w.cfg), false, Zero)
  }

  // ---------------------------------------------------------------------
  // Point lights

  /** The light an emissive receiver of strength `s` gives off: the light's colour, exposed, alpha 1. */
  function Emitted(light: Light, s: real, cfg: Config): Vector
  {
    Vector(cfg.Exposure * light.Color.x * s, cfg.Exposure * light.Color.y * s, cfg.Exposure * light.Color.z * s, 1.0)
  }

  /** dot(normal, direction to the light): negative when the surface faces away. */
  function PointFacing(i: Intersection, light: Light, h: Helpers): real
  {
    Dot(i.IntersectionNormal, NormalizeVector(SubVector(light.Position, i.Intersection), h.sqrt))
  }

  /** The shadow ray cast from the light towards the point. */
  function PointShadow(i: Intersection, light: Light, w: World): Intersection
  {
    w.cast(light.Position, NormalizeVector(SubVector(i.Intersection, light.Position), w.h.sqrt))
  }

  /** The intensity a lit point receives: inverse-square falloff, or the receiver's own positive LightStrength. */
  function PointIntensity(i: Intersection, light: Light, w: World): real
    requires i.Triangle.Some?
  {
    var strength := i.Triangle.value.Material.LightStrength;
    if strength > 0.0 then strength * w.cfg.Exposure
    else InvSquare(VectorDistance(i.Intersection, light.Position, w.h.sqrt)) * w.cfg.Exposure * (PointFacing(i, light, w.h) * light.LightStrength)
  }

  /** The shadow ray reaches the point: on its triangle, or within DIFF of the light's distance. */
  predicate PointReaches(i: Intersection, light: Light, w: World)
    requires i.Triangle.Some?
  {
    Reaches(i, PointShadow(i, light, w),
            Abs(VectorDistance(i.Intersection, light.Position, w.h.sqrt) - PointShadow(i, light, w).Dist) < DIFF)
  }

  /**
   * The light calculateLight gives a hit for a point light: nothing on a
   * miss or facing away; an emissive receiver's glow at its own strength (the
   * light's when it has none); a reached point lit unless the normals
   * disagree; through glass, the light behind the glass while it is strong
   * enough and `fuel` panes remain; otherwise nothing.
   */
  function PointLight(w: World, i: Intersection, light: Light, fuel: nat): Vector
    requires Ready(w) && Resolved(i)
    decreases fuel
  {
    if !i.Hit || PointFacing(i, light, w.h) < 0.0 then Zero
    else if i.Triangle.value.Material.Light then
      var s := i.Triangle.value.Material.LightStrength;
      Emitted(light, if s == 0.0 then light.LightStrength else s, w.cfg)
    else if PointReaches(i, light, w) then
      if w.h.sameSide(i.IntersectionNormal, PointShadow(i, light, w).IntersectionNormal)
      then Lit(light.Color, PointIntensity(i, light, w)) else Zero
    else if ThroughGlass(i, PointShadow(i, light, w)) then
      var sub := GlassLight(PointShadow(i, light, w), light, PointFacing(i, light, w.h), w);
      if sub.LightStrength <= DIFF || fuel == 0 then Zero
      else PointLight(w, i, sub, fuel - 1)
    else Zero
  }

  /**
   * calculateLight: nothing on a miss or when the surface faces away; an
   * emissive receiver shines with the light's colour at its own strength
   * (taking the light's strength when it has none, the write the receiver
   * record returns); a point the shadow ray reaches is lit with its
   * intensity unless the normals disagree; light through glass continues
   * from the glass (at most `fuel` panes); otherwise nothing.
   */
  method CalculateLight(w: World, i: Intersection, light: Light, fuel: nat)
    returns (result: Vector, receiver: Intersection)
    requires Ready(w) && Resolved(i)
    decreases fuel, 1
    ensures Resolved(receiver)
    ensures !i.Hit ==> result == Zero && receiver == i
    ensures i.Hit && PointFacing(i, light, w.h) < 0.0 ==> result == Zero && receiver == i
    ensures receiver == i ||
            (i.Hit && i.Triangle.value.Material.Light && i.Triangle.value.Material.LightStrength == 0.0 &&
             PointFacing(i, light, w.h) >= 0.0 && receiver == WithStrength(i, light.LightStrength))
    ensures i.Hit && PointFacing(i, light, w.h) >= 0.0 && i.Triangle.value.Material.Light ==>
              var s := receiver.Triangle.value.Material.LightStrength;
              s == (if i.Triangle.value.Material.LightStrength == 0.0 then light.LightStrength else i.Triangle.value.Material.LightStrength) &&
              result == Emitted(light, s, w.cfg)
    ensures i.Hit && PointFacing(i, light, w.h) >= 0.0 && !i.Triangle.value.Material.Light && PointReaches(i, light, w) ==>
              result == (if w.h.sameSide(i.IntersectionNormal, PointShadow(i, light, w).IntersectionNormal)
                         then Lit(light.Color, PointIntensity(i, light, w)) else Zero)
    ensures i.Hit && PointFacing(i, light, w.h) >= 0.0 && !i.Triangle.value.Material.Light &&
            !PointReaches(i, light, w) && !ThroughGlass(i, PointShadow(i, light, w))
            ==> result == Zero
    ensures result == PointLight(w, i, light, fuel)
  {
    receiver := i;
    if !i.Hit {
      return Zero, i;
    }
    var l1 := NormalizeVector(SubVector(light.Position, i.Intersection), w.h.sqrt);
    var l2 := i.IntersectionNormal;
    var dotP := Dot(l2, l1);
    if dotP < 0.0 {
      return Zero, i;
    }
    var t := i.Triangle.value;
    if t.Material.Light {
      if t.Material.LightStrength == 0.0 {
        receiver := WithStrength(i, light.LightStrength);
      }
      var s := receiver.Triangle.value.Material.LightStrength;
      return Emitted(light, s, w.cfg), receiver;
    }
    var rayDir := NormalizeVector(SubVector(i.Intersection, light.Position), w.h.sqrt);
    var rayLength := VectorDistance(i.Intersection, light.Position, w.h.sqrt);
    var shortest := w.cast(light.Position, rayDir);
    assert dotP == PointFacing(i, light, w.h);
    assert shortest == PointShadow(i, light, w);
    var s := Abs(rayLength - shortest.Dist);
    if (shortest.Triangle.Some? && shortest.Triangle.value.id == t.id) || s < DIFF {
      if !w.h.sameSide(i.IntersectionNormal, shortest.IntersectionNormal) {
        return Zero, i;
      }
      var intensity := InvSquare(rayLength) * w.cfg.Exposure;
      intensity := intensity * (dotP * light.LightStrength);
      assert t.Material.LightStrength <= 0.0 ==> intensity == PointIntensity(i, light, w);
      if t.Material.LightStrength > 0.0 {
        intensity := t.Material.LightStrength * w.cfg.Exposure;
      }
      assert intensity == PointIntensity(i, light, w);
      return Lit(light.Color, intensity), i;
    }
    if ThroughGlass(i, shortest) {
      var subLight := GlassLight(shortest, light, dotP, w);
      if subLight.LightStrength > DIFF {
        if fuel == 0 {
          return Zero, i;
        }
        var sub := FollowPointGlass(w, i, subLight, fuel - 1);
        return sub, i;
      }
    }
    return Zero, i;
  }

  /** The light behind a pane of glass for a point light, which calculateLight returns as it is. */
  method FollowPointGlass(w: World, i: Intersection, subLight: Light, rest: nat) returns (result: Vector)
    requires Ready(w) && Resolved(i)
    decreases rest, 2
    ensures result == PointLight(w, i, subLight, rest)
  {
    var receiver;
    result, receiver := CalculateLight(w, i, subLight, rest);
  }

  /**
   * A lit point receives no negative light: with non-negative exposure and
   * strengths, a surface that faces the light gets a non-negative intensity.
   */
  lemma PointIntensityNonNegative(i: Intersection, light: Light, w: World)
    requires i.Triangle.Some?
    requires w.cfg.Exposure >= 0.0 && light.LightStrength >= 0.0 && PointFacing(i, light, w.h) >= 0.0
    ensures PointIntensity(i, light, w) >= 0.0
  {
    var d := InvSquare(VectorDistance(i.Intersection, light.Position, w.h.sqrt));
    var strength := i.Triangle.value.Material.LightStrength;
    if strength > 0.0 {
      NonNegativeProduct(strength, w.cfg.Exposure);
    } else {
      NonNegativeProduct(d, w.cfg.Exposure);
      NonNegativeProduct(PointFacing(i, light, w.h), light.LightStrength);
      NonNegativeProduct(d * w.cfg.Exposure, PointFacing(i, light, w.h) * light.LightStrength);
    }
  }

  lemma NonNegativeProduct(a: real, b: real)
    requires a >= 0.0 && b >= 0.0
    ensures a * b >= 0.0
  {
  }

  /**
   * Inverse-square falloff: of two receivers with no strength of their own,
   * facing the light equally, the farther one receives no more light.
   */
  lemma FartherIsDimmer(d1: real, d2: real, k: real)
    requires 0.0 < d1 <= d2 && k >= 0.0
    ensures InvSquare(d2) * k <= InvSquare(d1) * k
  {
    var p, q := d1 * d1, d2 * d2;
    MulMono(d1, d1, d2);
    MulMono(d2, d1, d2);
    assert p <= q;
    InverseDecreases(InvSquare(d1), InvSquare(d2), p, q);
    NonNegativeProduct(InvSquare(d1) - InvSquare(d2), k);
  }

  /** Multiplying by a non-negative factor keeps the order. */
  lemma MulMono(a: real, b: real, c: real)
    requires a >= 0.0 && b <= c
    ensures a * b <= a * c
  {
    assert a * c - a * b == a * (c - b);
    NonNegativeProduct(a, c - b);
  }

  /** Of two positive quantities, the larger has the smaller inverse. */
  lemma InverseDecreases(a: real, b: real, p: real, q: real)
    requires 0.0 < p <= q && a * p == 1.0 && b * q == 1.0 && b >= 0.0
    ensures b <= a
  {
    assert b * p <= b * q;
    assert (a - b) * p >= 0.0;
  }

  // ---------------------------------------------------------------------
  // Directional lights

  /** The direction towards a directional light. */
  function TowardsLight(light: Light): Vector
  {
    ScaleVector(light.Direction, -1.0)
  }

  /** dot(normal, direction towards the light). */
  function DirectionalFacing(i: Intersection, light: Light): real
  {
    Dot(i.IntersectionNormal, TowardsLight(light))
  }

  /** The start of the shadow ray for one sphere sample: far along the light direction, jittered. */
  function FarStart(i: Intersection, light: Light, sample: Vector): Vector
  {
    AddVector(AddVector(ScaleVector(TowardsLight(light), 999999999999.0), i.Intersection), sample)
  }

  /** The shadow ray for one sample, cast back towards the point. */
  function DirectionalShadow(i: Intersection, light: Light, sample: Vector, w: World): Intersection
  {
    var start := FarStart(i, light, sample);
    w.cast(start, NormalizeVector(SubVector(i.Intersection, start), w.h.sqrt))
  }

  /** The light of one sample that reaches the point: colour at intensity dot * strength * exposure. */
  function SampleLight(i: Intersection, light: Light, cfg: Config): Vector
  {
    Lit(light.Color, DirectionalFacing(i, light) * light.LightStrength * cfg.Exposure)
  }

  /** The shadow rays of all the samples, in sample order. */
  function Shadows(i: Intersection, light: Light, samples: seq<Vector>, w: World): seq<Intersection>
  {
    seq(|samples|, k requires 0 <= k < |samples| => DirectionalShadow(i, light, samples[k], w))
  }

  /** A shadow ray that reaches the point (on its triangle, or with a distance below DIFF). */
  predicate Seen(i: Intersection, shadow: Intersection)
    requires i.Triangle.Some?
  {
    Reaches(i, shadow, shadow.Dist < DIFF)
  }

  /** A shadow ray that reaches the point but whose normal disagrees: the whole light is cut off. */
  predicate Blocked(i: Intersection, shadow: Intersection, h: Helpers)
    requires i.Triangle.Some?
  {
    Seen(i, shadow) && !h.sameSide(i.IntersectionNormal, shadow.IntersectionNormal)
  }

  /** A shadow ray stopped by glass that lets enough light through to be followed. */
  predicate PassesGlass(i: Intersection, light: Light, shadow: Intersection, cfg: Config)
    requires i.Triangle.Some?
  {
    ThroughGlass(i, shadow) && GlassStrength(shadow, DirectionalFacing(i, light), light.LightStrength, cfg) > DIFF
  }

  /** The first `n` shadow rays end the loop neither way. */
  predicate Plain(i: Intersection, light: Light, shadows: seq<Intersection>, n: nat, w: World)
    requires i.Triangle.Some? && n <= |shadows|
  {
    forall k :: 0 <= k < n ==> !Blocked(i, shadows[k], w.h) && !PassesGlass(i, light, shadows[k], w.cfg)
  }

  /** How many shadow rays reach the point. */
  function CountSeen(i: Intersection, shadows: seq<Intersection>): nat
    requires i.Triangle.Some?
  {
    if |shadows| == 0 then 0
    else CountSeen(i, shadows[..|shadows| - 1]) + (if Seen(i, shadows[|shadows| - 1]) then 1 else 0)
  }

  /** `n` copies of `v` added up. */
  function Times(v: Vector, n: nat): Vector
  {
    if n == 0 then Zero else AddVector(Times(v, n - 1), v)
  }

  /** Adding up n copies is scaling by n. */
  lemma {:induction false} TimesIsScale(v: Vector, n: nat)
    ensures Times(v, n) == ScaleVector(v, n as real)
  {
    if n > 0 {
      TimesIsScale(v, n - 1);
      var m := (n - 1) as real;
      assert v.x * m + v.x == v.x * (m + 1.0);
      assert v.y * m + v.y == v.y * (m + 1.0);
      assert v.z * m + v.z == v.z * (m + 1.0);
      assert v.w * m + v.w == v.w * (m + 1.0);
    }
  }

  /** A shadow ray that ends calculateDirectionalLight's loop: blocked, or through glass. */
  predicate Stops(i: Intersection, light: Light, shadow: Intersection, w: World)
    requires i.Triangle.Some?
  {
    Blocked(i, shadow, w.h) || PassesGlass(i, light, shadow, w.cfg)
  }

  /** The index of the first shadow ray from `from` on that ends the loop, or |shadows| when none does. */
  function FirstStop(i: Intersection, light: Light, shadows: seq<Intersection>, w: World, from: nat): (r: nat)
    requires i.Triangle.Some? && from <= |shadows| && Plain(i, light, shadows, from, w)
    decreases |shadows| - from
    ensures from <= r <= |shadows| && Plain(i, light, shadows, r, w)
    ensures r < |shadows| ==> Stops(i, light, shadows[r], w)
  {
    if from == |shadows| || Stops(i, light, shadows[from], w) then from
    else FirstStop(i, light, shadows, w, from + 1)
  }

  /** The first stop is the ray that stops after plain ones, or the end when all are plain. */
  lemma {:induction false} FirstStopIs(i: Intersection, light: Light, shadows: seq<Intersection>, w: World, from: nat, k: nat)
    requires i.Triangle.Some? && from <= k <= |shadows| && Plain(i, light, shadows, k, w)
    requires k < |shadows| ==> Stops(i, light, shadows[k], w)
    decreases k - from
    ensures FirstStop(i, light, shadows, w, from) == k
  {
    if from < k {
      assert !Stops(i, light, shadows[from], w);
      FirstStopIs(i, light, shadows, w, from + 1, k);
    }
  }

  /**
   * The light calculateDirectionalLight gives a hit: nothing on a miss or
   * facing away; otherwise the shadow rays of the sphere samples are taken
   * in order until one ends the loop. A blocked ray gives nothing; a ray
   * through glass gives the light behind the glass while `fuel` panes
   * remain; when no ray ends the loop, the reaching rays' light scaled by
   * hits / LightSampleCount.
   */
  function DirectionalLight(w: World, i: Intersection, light: Light, fuel: nat): Vector
    requires Ready(w) && Resolved(i)
    decreases fuel
  {
    if !i.Hit || DirectionalFacing(i, light) < 0.0 then Zero
    else
      var shadows := Shadows(i, light, w.h.sampleSphere(0.5, w.cfg.LightSampleCount), w);
      var k := FirstStop(i, light, shadows, w, 0);
      if k == |shadows| then
        var hits := CountSeen(i, shadows);
        if hits > 0
        then ScaleVector(Times(SampleLight(i, light, w.cfg), hits), Ratio(hits as real, w.cfg.LightSampleCount as real))
        else Zero
      else if Blocked(i, shadows[k], w.h) || fuel == 0 then Zero
      else DirectionalLight(w, i, GlassLight(shadows[k], light, DirectionalFacing(i, light), w), fuel - 1)
  }

  /** DirectionalLight at a hit facing the light, once the ray the loop ends at (or the end) is known. */
  lemma DirectionalLightAt(w: World, i: Intersection, light: Light, fuel: nat, shadows: seq<Intersection>, k: nat)
    requires Ready(w) && i.Hit && i.Triangle.Some? && DirectionalFacing(i, light) >= 0.0
    requires shadows == Shadows(i, light, w.h.sampleSphere(0.5, w.cfg.LightSampleCount), w)
    requires k <= |shadows| && Plain(i, light, shadows, k, w) && (k < |shadows| ==> Stops(i, light, shadows[k], w))
    ensures k == |shadows| ==>
              var hits := CountSeen(i, shadows);
              DirectionalLight(w, i, light, fuel) ==
                if hits > 0
                then ScaleVector(Times(SampleLight(i, light, w.cfg), hits), Ratio(hits as real, w.cfg.LightSampleCount as real))
                else Zero
    ensures k < |shadows| && (Blocked(i, shadows[k], w.h) || fuel == 0) ==> DirectionalLight(w, i, light, fuel) == Zero
    ensures k < |shadows| && !Blocked(i, shadows[k], w.h) && fuel > 0 ==>
              DirectionalLight(w, i, light, fuel) ==
                DirectionalLight(w, i, GlassLight(shadows[k], light, DirectionalFacing(i, light), w), fuel - 1)
  {
    FirstStopIs(i, light, shadows, w, 0, k);
  }

  /**
   * What DirectionalLight means for the loop: a blocked ray after plain
   * ones gives nothing, and when every ray is plain the reaching rays'
   * light is scaled by hits / LightSampleCount.
   */
  lemma DirectionalLightMeans(w: World, i: Intersection, light: Light, fuel: nat)
    requires Ready(w) && i.Hit && i.Triangle.Some? && DirectionalFacing(i, light) >= 0.0
    ensures var shadows := Shadows(i, light, w.h.sampleSphere(0.5, w.cfg.LightSampleCount), w);
            var v := DirectionalLight(w, i, light, fuel);
            (forall k :: 0 <= k < |shadows| && Plain(i, light, shadows, k, w) && Blocked(i, shadows[k], w.h) ==> v == Zero) &&
            (Plain(i, light, shadows, |shadows|, w) ==>
               var hits := CountSeen(i, shadows);
               v == if hits > 0
                    then ScaleVector(Times(SampleLight(i, light, w.cfg), hits), Ratio(hits as real, w.cfg.LightSampleCount as real))
                    else Zero)
  {
    var shadows := Shadows(i, light, w.h.sampleSphere(0.5, w.cfg.LightSampleCount), w);
    forall k | 0 <= k < |shadows| && Plain(i, light, shadows, k, w) && Blocked(i, shadows[k], w.h)
      ensures DirectionalLight(w, i, light, fuel) == Zero
    {
      DirectionalLightAt(w, i, light, fuel, shadows, k);
    }
    if Plain(i, light, shadows, |shadows|, w) {
      DirectionalLightAt(w, i, light, fuel, shadows, |shadows|);
    }
  }

  /**
   * calculateDirectionalLight: nothing on a miss or when the surface faces
   * away; each sphere sample's shadow ray that reaches the point adds the
   * same light, and the sum is scaled by hits / LightSampleCount. A reaching
   * sample with disagreeing normals cuts the light off, and glass in the way
   * hands over to the light behind it (at most `fuel` panes).
   */
  method CalculateDirectionalLight(w: World, i: Intersection, light: Light, fuel: nat)
    returns (result: Vector)
    requires Ready(w) && Resolved(i)
    decreases fuel, 2
    ensures !i.Hit ==> result == Zero
    ensures i.Hit && DirectionalFacing(i, light) < 0.0 ==> result == Zero
    ensures i.Hit && DirectionalFacing(i, light) >= 0.0 ==>
              var shadows := Shadows(i, light, w.h.sampleSphere(0.5, w.cfg.LightSampleCount), w);
              (forall k :: 0 <= k < |shadows| && Plain(i, light, shadows, k, w) && Blocked(i, shadows[k], w.h)
                 ==> result == Zero) &&
              (Plain(i, light, shadows, |shadows|, w) ==>
                 var hits := CountSeen(i, shadows);
                 result == if hits > 0
                           then ScaleVector(Times(SampleLight(i, light, w.cfg), hits), Ratio(hits as real, w.cfg.LightSampleCount as real))
                           else Zero)
    ensures result == DirectionalLight(w, i, light, fuel)
  {
    if !i.Hit {
      return Zero;
    }
    var lightD := TowardsLight(light);
    var dotP := Dot(i.IntersectionNormal, lightD);
    if dotP < 0.0 {
      return Zero;
    }
    var samples := w.h.sampleSphere(0.5, w.cfg.LightSampleCount);
    var totalHits := 0;
    var totalLight := Zero;
    ghost var unit := SampleLight(i, light, w.cfg);
    ghost var shadows := Shadows(i, light, samples, w);
    for k := 0 to |samples|
      invariant Plain(i, light, shadows, k, w)
      invariant totalHits == CountSeen(i, shadows[..k])
      invariant totalLight == Times(unit, totalHits)
    {
      assert shadows[..k + 1][..k] == shadows[..k];
      var stop, behind;
      stop, behind, totalLight, totalHits := SamplePass(w, i, light, dotP, samples[k], totalLight, totalHits);
      if stop {
        result := Stopped(w, i, light, fuel, behind, shadows, k);
        DirectionalLightMeans(w, i, light, fuel);
        return;
      }
    }
    assert shadows[..|samples|] == shadows;
    DirectionalLightAt(w, i, light, fuel, shadows, |shadows|);
    DirectionalLightMeans(w, i, light, fuel);
    if totalHits > 0 {
      return ScaleVector(totalLight, Ratio(totalHits as real, w.cfg.LightSampleCount as real));
    }
    return Zero;
  }

  /**
   * The end of calculateDirectionalLight's loop at ray `k`: nothing when the
   * ray is blocked; the light behind the glass when it passes glass, while
   * `fuel` panes remain.
   */
  method Stopped(w: World, i: Intersection, light: Light, fuel: nat, behind: Option<Light>,
                 ghost shadows: seq<Intersection>, ghost k: nat)
    returns (result: Vector)
    requires Ready(w) && i.Hit && i.Triangle.Some? && DirectionalFacing(i, light) >= 0.0
    requires shadows == Shadows(i, light, w.h.sampleSphere(0.5, w.cfg.LightSampleCount), w) && k < |shadows|
    requires Plain(i, light, shadows, k, w) && Stops(i, light, shadows[k], w)
    requires Blocked(i, shadows[k], w.h) ==> behind.None?
    requires !Blocked(i, shadows[k], w.h) ==> behind == Some(GlassLight(shadows[k], light, DirectionalFacing(i, light), w))
    decreases fuel, 1
    ensures result == DirectionalLight(w, i, light, fuel)
  {
    DirectionalLightAt(w, i, light, fuel, shadows, k);
    if behind.None? || fuel == 0 {
      return Zero;
    }
    result := FollowGlass(w, i, behind.value, fuel - 1);
  }

  /** The light behind a pane of glass, which the loop returns as it is. */
  method FollowGlass(w: World, i: Intersection, subLight: Light, rest: nat) returns (result: Vector)
    requires Ready(w) && Resolved(i)
    decreases rest, 3
    ensures result == DirectionalLight(w, i, subLight, rest)
  {
    result := CalculateDirectionalLight(w, i, subLight, rest);
  }

  /** A blocked ray after plain ones is the only blocked ray with plain predecessors, and not all rays are plain. */
  lemma BlockedStops(i: Intersection, light: Light, shadows: seq<Intersection>, k: nat, w: World)
    requires i.Triangle.Some? && k < |shadows|
    requires Plain(i, light, shadows, k, w) && Blocked(i, shadows[k], w.h)
    ensures forall j :: 0 <= j < |shadows| && Plain(i, light, shadows, j, w) && Blocked(i, shadows[j], w.h) ==> j == k
    ensures forall j :: 0 <= j < |shadows| && Plain(i, light, shadows, j, w) ==>
              Blocked(i, shadows[j], w.h) || !PassesGlass(i, light, shadows[j], w.cfg)
    ensures !Plain(i, light, shadows, |shadows|, w)
  {
  }

  /** Once glass is followed at ray k, no blocked ray has plain predecessors, and not all rays are plain. */
  lemma GlassStops(i: Intersection, light: Light, shadows: seq<Intersection>, k: nat, w: World)
    requires i.Triangle.Some? && k < |shadows|
    requires Plain(i, light, shadows, k, w) && PassesGlass(i, light, shadows[k], w.cfg) && !Blocked(i, shadows[k], w.h)
    ensures forall j :: 0 <= j < |shadows| && Plain(i, light, shadows, j, w) ==> !Blocked(i, shadows[j], w.h)
    ensures forall j :: 0 <= j < |shadows| && Plain(i, light, shadows, j, w) && PassesGlass(i, light, shadows[j], w.cfg) ==> j == k
    ensures !Plain(i, light, shadows, |shadows|, w)
  {
  }

  /**
   * One pass of calculateDirectionalLight's loop, for one sphere sample:
   * the sample's shadow ray adds the sample light and a hit when it reaches
   * the point; the loop stops when the normals disagree (with no light
   * behind) and when glass lets enough through (with the light behind the
   * glass, which the loop follows).
   */
  method SamplePass(w: World, i: Intersection, light: Light, dotP: real, sample: Vector,
                    totalLight: Vector, totalHits: nat)
    returns (stop: bool, behind: Option<Light>, newLight: Vector, newHits: nat)
    requires Ready(w) && i.Hit && i.Triangle.Some? && dotP == DirectionalFacing(i, light)
    ensures var shadow := DirectionalShadow(i, light, sample, w);
            (stop <==> Blocked(i, shadow, w.h) || PassesGlass(i, light, shadow, w.cfg)) &&
            (Blocked(i, shadow, w.h) ==> behind.None?) &&
            (!Blocked(i, shadow, w.h) ==>
               newHits == totalHits + (if Seen(i, shadow) then 1 else 0) &&
               newLight == if Seen(i, shadow) then AddVector(totalLight, SampleLight(i, light, w.cfg)) else totalLight) &&
            (!Blocked(i, shadow, w.h) && PassesGlass(i, light, shadow, w.cfg) ==>
               behind == Some(GlassLight(shadow, light, dotP, w)))
  {
    newLight, newHits := totalLight, totalHits;
    behind := None;
    var lightD := TowardsLight(light);
    var rayStart := ScaleVector(lightD, 999999999999.0);
    rayStart := AddVector(rayStart, i.Intersection);
    rayStart := AddVector(rayStart, sample);
    var dir := NormalizeVector(SubVector(i.Intersection, rayStart), w.h.sqrt);
    var shortest := w.cast(rayStart, dir);
    assert shortest == DirectionalShadow(i, light, sample, w);
    if (shortest.Triangle.Some? && shortest.Triangle.value.id == i.Triangle.value.id) || shortest.Dist < DIFF {
      if !w.h.sameSide(i.IntersectionNormal, shortest.IntersectionNormal) {
        return true, None, newLight, newHits;
      }
      var intensity := dotP * light.LightStrength;
      intensity := intensity * w.cfg.Exposure;
      assert Lit(light.Color, intensity) == SampleLight(i, light, w.cfg);
      newLight := AddVector(newLight, Lit(light.Color, intensity));
      newHits := newHits + 1;
    }
    if ThroughGlass(i, shortest) {
      var subLight := GlassLight(shortest, light, dotP, w);
      if subLight.LightStrength > DIFF {
        return true, Some(subLight), newLight, newHits;
      }
    }
    stop := false;
  }

  /**
   * The directional result grows with the square of the number of reaching
   * samples: `hits` copies of the sample light scaled by hits / count is the
   * sample light scaled by hits * (hits / count), not by hits / count.
   */
  lemma DirectionalSquareLaw(v: Vector, hits: nat, count: int)
    ensures ScaleVector(Times(v, hits), Ratio(hits as real, count as real)) ==
            ScaleVector(v, hits as real * Ratio(hits as real, count as real))
  {
    TimesIsScale(v, hits);
    ScaleTwice(v, hits as real, Ratio(hits as real, count as real), hits as real * Ratio(hits as real, count as real));
  }

  lemma ScaleTwice(v: Vector, a: real, b: real, ab: real)
    requires ab == a * b
    ensures ScaleVector(ScaleVector(v, a), b) == ScaleVector(v, ab)
  {
    assert v.x * a * b == v.x * (a * b);
    assert v.y * a * b == v.y * (a * b);
    assert v.z * a * b == v.z * (a * b);
    assert v.w * a * b == v.w * (a * b);
  }

  /**
   * The light handed on behind glass carries no direction, so when the
   * loop follows glass for a directional light the light behind it faces
   * the point at zero and every sample light it adds has intensity 0.
   */
  lemma GlassLightIsUndirected(i: Intersection, shortest: Intersection, light: Light, dotP: real, w: World)
    requires Ready(w) && shortest.Triangle.Some?
    ensures DirectionalFacing(i, GlassLight(shortest, light, dotP, w)) == 0.0
    ensures SampleLight(i, GlassLight(shortest, light, dotP, w), w.cfg).w == 0.0
  {
    var g := GlassLight(shortest, light, dotP, w);
    assert g.Direction == Zero;
    UndirectedLight(i, g, w.cfg);
  }

  /** A light with the zero direction faces every point at zero. */
  lemma UndirectedLight(i: Intersection, g: Light, cfg: Config)
    requires g.Direction == Zero
    ensures DirectionalFacing(i, g) == 0.0
    ensures SampleLight(i, g, cfg).w == 0.0
  {
    assert TowardsLight(g) == Zero;
  }

  // ---------------------------------------------------------------------
  // Aggregation

  /** The sum of the per-light results whose w is positive. */
  function SumLit(cs: seq<Vector>): Vector
  {
    if |cs| == 0 then Zero
    else
      var rest := SumLit(cs[..|cs| - 1]);
      if cs[|cs| - 1].w > 0.0 then AddVector(rest, cs[|cs| - 1]) else rest
  }

  /** The summed w is positive exactly when some light's result has positive w. */
  lemma {:induction false} SumLitPositive(cs: seq<Vector>)
    ensures SumLit(cs).w >= 0.0
    ensures SumLit(cs).w > 0.0 <==> exists k :: 0 <= k < |cs| && cs[k].w > 0.0
  {
    if |cs| > 0 {
      var init := cs[..|cs| - 1];
      SumLitPositive(init);
      assert forall k :: 0 <= k < |init| ==> init[k] == cs[k];
      if SumLit(init).w > 0.0 {
        var j :| 0 <= j < |init| && init[j].w > 0.0;
        assert cs[j].w > 0.0;
      }
    }
  }

  /** The photons deposited within PhotonSpacing of the point, each scaled by Exposure, added up. */
  function PhotonGlow(photons: seq<Photon>, point: Vector, cfg: Config, sqrt: real -> real): Vector
  {
    if |photons| == 0 then Zero
    else
      var rest := PhotonGlow(photons[..|photons| - 1], point, cfg, sqrt);
      var p := photons[|photons| - 1];
      if VectorDistance(p.Location, point, sqrt) < cfg.PhotonSpacing then AddVector(rest, ScaleVector(p.Color, cfg.Exposure))
      else rest
  }

  /** Photons no nearer than PhotonSpacing add nothing. */
  lemma {:induction false} DistantPhotonsAddNothing(photons: seq<Photon>, point: Vector, cfg: Config, sqrt: real -> real)
    requires forall k :: 0 <= k < |photons| ==> VectorDistance(photons[k].Location, point, sqrt) >= cfg.PhotonSpacing
    ensures PhotonGlow(photons, point, cfg, sqrt) == Zero
  {
    if |photons| > 0 {
      var init := photons[..|photons| - 1];
      assert forall k :: 0 <= k < |init| ==> init[k] == photons[k];
      DistantPhotonsAddNothing(init, point, cfg, sqrt);
    }
  }

  /** The caustics term: the photon glow when photon rendering is on. */
  function Caustics(i: Intersection, cfg: Config, sqrt: real -> real): Vector
    requires i.Triangle.Some?
  {
    if cfg.PhotonSpacing > 0.0 && cfg.RenderCaustics then PhotonGlow(i.Triangle.value.Photons, i.Intersection, cfg, sqrt)
    else Zero
  }

  /** What one light gives a hit in calculateTotalLight's loop, glass followed for glassDepth panes. */
  function LightFrom(w: World, i: Intersection, light: Light): Vector
    requires Ready(w) && Resolved(i)
  {
    if light.Directional then DirectionalLight(w, i, light, w.glassDepth) else PointLight(w, i, light, w.glassDepth)
  }

  /** The results of all the lights, in order. */
  function LightsAt(w: World, i: Intersection): (r: seq<Vector>)
    requires Ready(w) && Resolved(i)
    ensures |r| == |w.lights|
  {
    seq(|w.lights|, k requires 0 <= k < |w.lights| => LightFrom(w, i, w.lights[k]))
  }

  /**
   * The total light at a hit: nothing on a miss or at the depth limit, an
   * emissive triangle's colour scaled by its strength, and otherwise the
   * lights' results with positive w added up, plus the caustics term.
   */
  function TotalLight(w: World, i: Intersection, depth: int): Vector
    requires Ready(w) && Resolved(i)
  {
    if !i.Hit || depth >= w.cfg.MaxReflectionDepth then Zero
    else if i.Triangle.value.Material.Light then
      ScaleVector(i.Triangle.value.Material.Color, i.Triangle.value.Material.LightStrength)
    else AddVector(SumLit(LightsAt(w, i)), Caustics(i, w.cfg, w.h.sqrt))
  }

  /** A point light the surface faces away from contributes nothing to the sum. */
  lemma BackFacingLightsGiveNothing(w: World, i: Intersection)
    requires Ready(w) && Resolved(i)
    ensures forall k :: 0 <= k < |w.lights| && !w.lights[k].Directional && PointFacing(i, w.lights[k], w.h) < 0.0 ==>
              LightsAt(w, i)[k] == Zero
  {
    forall k | 0 <= k < |w.lights| && !w.lights[k].Directional && PointFacing(i, w.lights[k], w.h) < 0.0
      ensures LightsAt(w, i)[k] == Zero
    {
      assert LightsAt(w, i)[k] == PointLight(w, i, w.lights[k], w.glassDepth);
    }
  }

  /** One light's turn in calculateTotalLight's loop: the directional or the point calculation. */
  method OneLight(w: World, i: Intersection, light: Light) returns (v: Vector)
    requires Ready(w) && Resolved(i)
    ensures v == LightFrom(w, i, light)
  {
    if light.Directional {
      v := CalculateDirectionalLight(w, i, light, w.glassDepth);
    } else {
      var receiver;
      v, receiver := CalculateLight(w, i, light, w.glassDepth);
    }
  }

  /**
   * calculateTotalLight: nothing on a miss or at the depth limit; an
   * emissive triangle gives its colour scaled by its strength; otherwise the
   * sum of the lights' results with positive w, plus the caustics term.
   */
  method CalculateTotalLight(w: World, i: Intersection, depth: int)
    returns (result: Vector, ghost perLight: seq<Vector>)
    requires Ready(w) && Resolved(i)
    ensures !i.Hit || depth >= w.cfg.MaxReflectionDepth ==> result == Zero
    ensures i.Hit && depth < w.cfg.MaxReflectionDepth && i.Triangle.value.Material.Light ==>
              result == ScaleVector(i.Triangle.value.Material.Color, i.Triangle.value.Material.LightStrength)
    ensures i.Hit && depth < w.cfg.MaxReflectionDepth && !i.Triangle.value.Material.Light ==>
              |perLight| == |w.lights| && result == AddVector(SumLit(perLight), Caustics(i, w.cfg, w.h.sqrt))
    ensures i.Hit && depth < w.cfg.MaxReflectionDepth && !i.Triangle.value.Material.Light ==>
              forall k :: 0 <= k < |w.lights| && !w.lights[k].Directional && PointFacing(i, w.lights[k], w.h) < 0.0 ==>
                perLight[k] == Zero
    ensures i.Hit && depth < w.cfg.MaxReflectionDepth && !i.Triangle.value.Material.Light ==> perLight == LightsAt(w, i)
    ensures result == TotalLight(w, i, depth)
  {
    perLight := [];
    if !i.Hit || depth >= w.cfg.MaxReflectionDepth {
      return Zero, perLight;
    }
    if i.Triangle.value.Material.Light {
      return ScaleVector(i.Triangle.value.Material.Color, i.Triangle.value.Material.LightStrength), perLight;
    }
    result := Zero;
    for k := 0 to |w.lights|
      invariant |perLight| == k
      invariant result == SumLit(perLight)
      invariant perLight == LightsAt(w, i)[..k]
    {
      var light := OneLight(w, i, w.lights[k]);
      assert (perLight + [light])[..k] == perLight;
      perLight := perLight + [light];
      if light.w > 0.0 {
        result := AddVector(result, light);
      }
    }
    assert LightsAt(w, i)[..|w.lights|] == LightsAt(w, i);
    BackFacingLightsGiveNothing(w, i);
    if w.cfg.PhotonSpacing > 0.0 && w.cfg.RenderCaustics {
      var glow := Glow(i.Triangle.value.Photons, i.Intersection, w.cfg, w.h.sqrt);
      AddAssociates(SumLit(perLight), glow);
      result := AddVector(result, glow);
    }
  }

  /** The caustics loop of calculateTotalLight: the photons closer than the spacing, each scaled by the exposure, added up. */
  method Glow(photons: seq<Photon>, point: Vector, cfg: Config, sqrt: real -> real) returns (glow: Vector)
    ensures glow == PhotonGlow(photons, point, cfg, sqrt)
  {
    glow := Zero;
    for k := 0 to |photons|
      invariant glow == PhotonGlow(photons[..k], point, cfg, sqrt)
    {
      assert photons[..k + 1][..k] == photons[..k];
      if VectorDistance(photons[k].Location, point, sqrt) < cfg.PhotonSpacing {
        glow := AddVector(glow, ScaleVector(photons[k].Color, cfg.Exposure));
      }
    }
    assert photons[..|photons|] == photons;
  }

  lemma AddAssociates(a: Vector, b: Vector)
    ensures AddVector(a, b) == Vector(a.x + b.x, a.y + b.y, a.z + b.z, a.w + b.w)
  {
  }
}
