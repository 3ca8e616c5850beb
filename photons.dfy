/**
 * Caustics photon map (raytracer/photon.go, raytracer/photon_map.go):
 * photons are shot from every light towards sample points on glossy and
 * transmissive triangles, attenuated on each hit, deposited on matte
 * triangles and reflected or refracted onwards one level deeper.
 */
module Photons {
  import opened Wrappers
  import opened Vectors
  import opened Triangles
  import opened Settings
  import opened Context

  /** Neither glossy nor transmissive: the only triangles that keep photons. */
  predicate Matte(t: Triangle)
  {
    t.Material.Glossiness == 0.0 && t.Material.Transmission == 0.0
  }

  /** The photons deposited on triangle `id`, in deposit order. */
  function PhotonsOn(log: seq<(Triangle, Photon)>, id: int): seq<Photon>
  {
    if |log| == 0 then []
    else PhotonsOn(log[..|log| - 1], id) + (if log[|log| - 1].0.id == id then [log[|log| - 1].1] else [])
  }

  /** Deposits are only ever appended: a longer log keeps every triangle's earlier photons in front. */
  lemma {:induction false} PhotonsOnPrefix(a: seq<(Triangle, Photon)>, b: seq<(Triangle, Photon)>, id: int)
    requires a <= b
    ensures PhotonsOn(a, id) <= PhotonsOn(b, id)
    decreases |b|
  {
    if |a| < |b| {
      var init := b[..|b| - 1];
      assert a <= init;
      PhotonsOnPrefix(a, init, id);
    } else {
      assert a == b;
    }
  }

  /**
   * Every triangle's Photons slice, kept as one log of (triangle, photon)
   * deposits; the photons on a triangle are PhotonsOn(log, its id).
   * The lighting code reads a triangle's own `Photons` field; the world's
   * triangles are taken to carry PhotonsOn(log, id) of the finished store,
   * and nothing here states that link.
   */
  class PhotonStore {
    var log: seq<(Triangle, Photon)>

    /** Every deposit sits on a matte triangle and carries no intensity of its own. */
    ghost predicate Valid()
      reads this
    {
      forall k :: 0 <= k < |log| ==> Matte(log[k].0) && log[k].1.Intensity == 0.0
    }

    constructor ()
      ensures log == [] && Valid()
    {
      log := [];
    }

    /** Appends a photon to a matte triangle's photons. */
    method Deposit(t: Triangle, p: Photon)
      modifies this
      requires Valid() && Matte(t) && p.Intensity == 0.0
      ensures log == old(log) + [(t, p)] && Valid()
      ensures PhotonsOn(log, t.id) == PhotonsOn(old(log), t.id) + [p]
    {
      log := log + [(t, p)];
      assert log[..|log| - 1] == old(log);
    }
  }

  /** What the photon's ray hits first. */
  function PhotonHit(w: World, photon: Photon): Intersection
  {
    w.cast(photon.Location, photon.Direction)
  }

  /** dot(hit normal, -direction): negative when the photon arrives from behind. */
  function Incidence(w: World, photon: Photon): real
  {
    Dot(PhotonHit(w, photon).IntersectionNormal, ScaleVector(photon.Direction, -1.0))
  }

  /** The photon is strong enough, within the depth limit, hits something and arrives from the front. */
  predicate Arrives(w: World, photon: Photon, depth: int)
  {
    photon.Intensity >= DIFF && depth <= w.cfg.MaxReflectionDepth && PhotonHit(w, photon).Hit && Incidence(w, photon) >= 0.0
  }

  /** The intensity at the hit: divided by the squared travel distance and scaled by the incidence. */
  function Attenuated(w: World, photon: Photon): real
  {
    photon.Intensity * InvSquare(VectorDistance(PhotonHit(w, photon).Intersection, photon.Location, w.h.sqrt)) * Incidence(w, photon)
  }

  /** The photon left on a matte hit: at the hit point, coloured by the attenuated intensity. */
  function Deposited(w: World, photon: Photon): Photon
  {
    Photon(PhotonHit(w, photon).Intersection, photon.Direction, ScaleVector(photon.Color, Attenuated(w, photon)), 0.0)
  }

  /** The photon reflected off a glossy hit: from the hit point, carrying the attenuated intensity times the glossiness. */
  function Reflected(w: World, photon: Photon, t: Triangle): Photon
  {
    var hit := PhotonHit(w, photon);
    Photon(hit.Intersection, w.h.reflect(photon.Direction, hit.IntersectionNormal), photon.Color,
           Attenuated(w, photon) * t.Material.Glossiness)
  }

  /** The photon refracted through a transmissive hit: from the hit point, carrying the attenuated intensity times the transmission. */
  function Refracted(w: World, photon: Photon, t: Triangle): Photon
  {
    var hit := PhotonHit(w, photon);
    Photon(hit.Intersection, w.h.refract(photon.Direction, hit.IntersectionNormal, t.Material.IndexOfRefraction), photon.Color,
           Attenuated(w, photon) * t.Material.Transmission)
  }

  /**
   * The photons a trace follows further, each with the depth it is traced
   * at: none unless the photon arrives; otherwise the reflected one when
   * the hit triangle is glossy, then the refracted one when it is
   * transmissive, both one level deeper.
   */
  function Followed(w: World, photon: Photon, depth: int): (r: seq<(Photon, int)>)
    requires Ready(w)
    ensures |r| <= 2
    ensures forall k :: 0 <= k < |r| ==> r[k].1 == depth + 1 && r[k].0.Location == PhotonHit(w, photon).Intersection
  {
    if !Arrives(w, photon, depth) then []
    else
      var t := PhotonHit(w, photon).Triangle.value;
      (if t.Material.Glossiness > 0.0 then [(Reflected(w, photon, t), depth + 1)] else []) +
      (if t.Material.Transmission > 0.0 then [(Refracted(w, photon, t), depth + 1)] else [])
  }

  /**
   * The deposits a photon traced at `depth` leaves, in the order
   * tracePhoton makes them: nothing unless it arrives; otherwise the
   * attenuated photon on a matte hit, then the deposits of the reflected
   * photon when the hit is glossy, then those of the refracted photon when
   * it is transmissive, both traced one level deeper. Every deposit lies on
   * a matte triangle and carries zero intensity.
   */
  function Deposits(w: World, photon: Photon, depth: int): (r: seq<(Triangle, Photon)>)
    requires Ready(w)
    decreases w.cfg.MaxReflectionDepth - depth + 1
    ensures forall k :: 0 <= k < |r| ==> Matte(r[k].0) && r[k].1.Intensity == 0.0
    ensures !Arrives(w, photon, depth) ==> r == []
  {
    if !Arrives(w, photon, depth) then []
    else
      var t := PhotonHit(w, photon).Triangle.value;
      (if Matte(t) then [(t, Deposited(w, photon))] else []) +
      (if t.Material.Glossiness > 0.0 then Deposits(w, Reflected(w, photon, t), depth + 1) else []) +
      (if t.Material.Transmission > 0.0 then Deposits(w, Refracted(w, photon, t), depth + 1) else [])
  }

  /** A photon traced past the depth limit deposits nothing, however strong it is. */
  lemma DepositsBounded(w: World, photon: Photon, depth: int)
    requires Ready(w) && depth > w.cfg.MaxReflectionDepth
    ensures Deposits(w, photon, depth) == []
  {
  }

  /**
   * An arriving photon on a matte hit leaves exactly one deposit, at the
   * hit; on a hit that is neither matte nor glossy nor transmissive
   * (negative coefficients) it leaves none.
   */
  lemma MatteHitDepositsOnce(w: World, photon: Photon, depth: int)
    requires Ready(w) && Arrives(w, photon, depth)
    ensures var t := PhotonHit(w, photon).Triangle.value;
            Matte(t) ==> Deposits(w, photon, depth) == [(t, Deposited(w, photon))]
  {
  }

  /**
   * With non-negative glossiness and transmission, an arriving photon is
   * either deposited (matte hit) or followed, never both and never
   * neither; and when glossiness plus transmission is at most 1, the
   * followed photons carry no more than the attenuated intensity.
   */
  lemma FollowedOrDeposited(w: World, photon: Photon, depth: int)
    requires Ready(w) && Arrives(w, photon, depth)
    requires var m := PhotonHit(w, photon).Triangle.value.Material; m.Glossiness >= 0.0 && m.Transmission >= 0.0
    ensures Matte(PhotonHit(w, photon).Triangle.value) <==> Followed(w, photon, depth) == []
    ensures var m := PhotonHit(w, photon).Triangle.value.Material;
            var f := Followed(w, photon, depth);
            m.Glossiness + m.Transmission <= 1.0 && Attenuated(w, photon) >= 0.0 ==>
              (if |f| == 0 then 0.0 else f[0].0.Intensity) + (if |f| == 2 then f[1].0.Intensity else 0.0) <= Attenuated(w, photon)
  {
    var t := PhotonHit(w, photon).Triangle.value;
    var a := Attenuated(w, photon);
    var g, tr := t.Material.Glossiness, t.Material.Transmission;
    if g + tr <= 1.0 && a >= 0.0 {
      SplitIntensity(a, g, tr);
    }
  }

  lemma SplitIntensity(a: real, g: real, tr: real)
    requires a >= 0.0 && g >= 0.0 && tr >= 0.0 && g + tr <= 1.0
    ensures a * g + a * tr <= a && a * g <= a && a * tr <= a
  {
    assert a * g + a * tr == a * (g + tr);
  }

  /**
   * tracePhoton: nothing happens to a photon that is too weak, past the
   * depth limit, misses or arrives from behind; a photon hitting a matte
   * triangle is attenuated and deposited there and goes no further; on a
   * glossy or transmissive triangle it continues reflected and refracted
   * with the attenuated intensity scaled by glossiness and transmission.
   * The log grows by exactly the deposits `Deposits` predicts, in order.
   */
  method TracePhoton(w: World, store: PhotonStore, photon: Photon, depth: int)
    returns (ghost followed: seq<(Photon, int)>)
    modifies store
    requires Ready(w) && store.Valid()
    decreases w.cfg.MaxReflectionDepth - depth + 1, 2
    ensures store.Valid() && old(store.log) <= store.log
    ensures !Arrives(w, photon, depth) ==> store.log == old(store.log)
    ensures Arrives(w, photon, depth) && Matte(PhotonHit(w, photon).Triangle.value) ==>
              store.log == old(store.log) + [(PhotonHit(w, photon).Triangle.value, Deposited(w, photon))]
    ensures followed == Followed(w, photon, depth)
    ensures store.log == old(store.log) + Deposits(w, photon, depth)
  {
    followed := [];
    if photon.Intensity < DIFF {
      return;
    }
    if depth > w.cfg.MaxReflectionDepth {
      return;
    }
    var hit := w.cast(photon.Location, photon.Direction);
    if !hit.Hit {
      return;
    }
    var rayLength := VectorDistance(hit.Intersection, photon.Location, w.h.sqrt);
    var dotP := Dot(hit.IntersectionNormal, ScaleVector(photon.Direction, -1.0));
    if dotP < 0.0 {
      return;
    }
    var invDistSqr := InvSquare(rayLength);
    var intensity := photon.Intensity * invDistSqr;
    intensity := intensity * dotP;
    assert intensity == Attenuated(w, photon);
    assert Arrives(w, photon, depth) && hit == PhotonHit(w, photon);
    followed := Scatter(w, store, photon, depth, hit, intensity);
    MatteHitDepositsOnce(w, photon, depth);
  }

  /**
   * The rest of tracePhoton once the photon has arrived with the attenuated
   * intensity: it is deposited on a matte hit, and followed reflected and
   * refracted one level deeper on a glossy or transmissive one.
   */
  method Scatter(w: World, store: PhotonStore, photon: Photon, depth: int, hit: Intersection, intensity: real)
    returns (ghost followed: seq<(Photon, int)>)
    modifies store
    requires Ready(w) && store.Valid() && Arrives(w, photon, depth)
    requires hit == PhotonHit(w, photon) && intensity == Attenuated(w, photon)
    decreases w.cfg.MaxReflectionDepth - depth + 1, 1
    ensures store.Valid() && old(store.log) <= store.log
    ensures followed == Followed(w, photon, depth)
    ensures store.log == old(store.log) + Deposits(w, photon, depth)
  {
    var trace := ScaleVector(photon.Color, intensity);
    var t := hit.Triangle.value;
    ghost var matte: seq<(Triangle, Photon)> := if Matte(t) then [(t, Deposited(w, photon))] else [];
    if t.Material.Glossiness == 0.0 && t.Material.Transmission == 0.0 {
      store.Deposit(t, Photon(hit.Intersection, photon.Direction, trace, 0.0));
    }
    assert store.log == old(store.log) + matte;
    ghost var reflected := FollowReflected(w, store, photon, depth, hit, intensity);
    AppendAssociates(old(store.log), matte, reflected);
    ghost var refracted := FollowRefracted(w, store, photon, depth, hit, intensity);
    AppendAssociates(old(store.log), matte + reflected, refracted);
    followed := (if t.Material.Glossiness > 0.0 then [(Reflected(w, photon, t), depth + 1)] else []) +
                (if t.Material.Transmission > 0.0 then [(Refracted(w, photon, t), depth + 1)] else []);
    assert Deposits(w, photon, depth) == matte + reflected + refracted;
  }

  /**
   * The reflection branch of tracePhoton: on a glossy hit, the photon
   * reflected about the hit normal, with the attenuated intensity times the
   * glossiness, is traced one level deeper. `deposits` are the deposits it
   * leaves.
   */
  method FollowReflected(w: World, store: PhotonStore, photon: Photon, depth: int, hit: Intersection, intensity: real)
    returns (ghost deposits: seq<(Triangle, Photon)>)
    modifies store
    requires Ready(w) && store.Valid() && Arrives(w, photon, depth)
    requires hit == PhotonHit(w, photon) && intensity == Attenuated(w, photon)
    decreases w.cfg.MaxReflectionDepth - depth + 1, 0
    ensures store.Valid() && old(store.log) <= store.log
    ensures var t := hit.Triangle.value;
            deposits == if t.Material.Glossiness > 0.0 then Deposits(w, Reflected(w, photon, t), depth + 1) else []
    ensures store.log == old(store.log) + deposits
  {
    deposits := [];
    var t := hit.Triangle.value;
    if t.Material.Glossiness > 0.0 {
      var reflect := w.h.reflect(photon.Direction, hit.IntersectionNormal);
      var reflectedPhoton := Photon(hit.Intersection, reflect, photon.Color, intensity * t.Material.Glossiness);
      assert reflectedPhoton == Reflected(w, photon, t);
      ghost var _ := TracePhoton(w, store, reflectedPhoton, depth + 1);
      deposits := Deposits(w, reflectedPhoton, depth + 1);
    }
  }

  /**
   * The refraction branch of tracePhoton: on a transmissive hit, the
   * photon refracted with the triangle's index of refraction, with the
   * attenuated intensity times the transmission, is traced one level
   * deeper. `deposits` are the deposits it leaves.
   */
  method FollowRefracted(w: World, store: PhotonStore, photon: Photon, depth: int, hit: Intersection, intensity: real)
    returns (ghost deposits: seq<(Triangle, Photon)>)
    modifies store
    requires Ready(w) && store.Valid() && Arrives(w, photon, depth)
    requires hit == PhotonHit(w, photon) && intensity == Attenuated(w, photon)
    decreases w.cfg.MaxReflectionDepth - depth + 1, 0
    ensures store.Valid() && old(store.log) <= store.log
    ensures var t := hit.Triangle.value;
            deposits == if t.Material.Transmission > 0.0 then Deposits(w, Refracted(w, photon, t), depth + 1) else []
    ensures store.log == old(store.log) + deposits
  {
    deposits := [];
    var t := hit.Triangle.value;
    if t.Material.Transmission > 0.0 {
      var refract := w.h.refract(photon.Direction, hit.IntersectionNormal, t.Material.IndexOfRefraction);
      var refractedPhoton := Photon(hit.Intersection, refract, photon.Color, intensity * t.Material.Transmission);
      assert refractedPhoton == Refracted(w, photon, t);
      ghost var _ := TracePhoton(w, store, refractedPhoton, depth + 1);
      deposits := Deposits(w, refractedPhoton, depth + 1);
    }
  }

  lemma AppendAssociates<T>(a: seq<T>, b: seq<T>, c: seq<T>)
    ensures a + b + c == a + (b + c)
  {
  }

  // ---------------------------------------------------------------------
  // buildPhotonMap

  /** The sample locations on the glossy and transmissive triangles, in triangle order. */
  function CausticLocations(triangles: seq<Triangle>, cfg: Config, h: Helpers): seq<Vector>
  {
    if |triangles| == 0 then []
    else
      var t := triangles[|triangles| - 1];
      CausticLocations(triangles[..|triangles| - 1], cfg, h) +
      (if t.Material.Glossiness > 0.0 || t.Material.Transmission > 0.0 then h.sampleTriangle(t, cfg.CausticsSamplerLimit) else [])
  }

  /** Matte triangles contribute no locations. */
  lemma {:induction false} MatteTrianglesGiveNoLocations(triangles: seq<Triangle>, cfg: Config, h: Helpers)
    requires forall k :: 0 <= k < |triangles| ==> Matte(triangles[k])
    ensures CausticLocations(triangles, cfg, h) == []
  {
    if |triangles| > 0 {
      var init := triangles[..|triangles| - 1];
      assert forall k :: 0 <= k < |init| ==> init[k] == triangles[k];
      MatteTrianglesGiveNoLocations(init, cfg, h);
    }
  }

  /** The candidate collection loop of buildPhotonMap. */
  method CollectLocations(triangles: seq<Triangle>, cfg: Config, h: Helpers) returns (locations: seq<Vector>)
    ensures locations == CausticLocations(triangles, cfg, h)
  {
    locations := [];
    for tri := 0 to |triangles|
      invariant locations == CausticLocations(triangles[..tri], cfg, h)
    {
      assert triangles[..tri + 1][..tri] == triangles[..tri];
      if triangles[tri].Material.Glossiness > 0.0 || triangles[tri].Material.Transmission > 0.0 {
        var samples := h.sampleTriangle(triangles[tri], cfg.CausticsSamplerLimit);
        locations := locations + samples;
      }
    }
    assert triangles[..|triangles|] == triangles;
  }

  /** The batch size: the number of locations over the number of workers, rounded down. */
  function BatchSize(n: nat, workCount: int): nat
    requires workCount > 0
  {
    n / workCount
  }

  /** The end of batch k: batchSize * (k + 1), cut at n. */
  function BatchEnd(n: nat, workCount: int, k: nat): nat
    requires workCount > 0
  {
    var to := BatchSize(n, workCount) * (k + 1);
    if to > n then n else to
  }

  /**
   * Every batch the loop forms (k < workCount - 1) is a valid slice that
   * the cut at n never shortens, and it starts where the previous one ended.
   */
  lemma BatchInBounds(n: nat, workCount: int, k: nat)
    requires workCount > 0 && k < workCount - 1
    ensures BatchSize(n, workCount) * k <= BatchEnd(n, workCount, k) <= n
    ensures BatchEnd(n, workCount, k) == BatchSize(n, workCount) * (k + 1)
    ensures k > 0 ==> BatchEnd(n, workCount, k - 1) == BatchSize(n, workCount) * k
  {
    var bs := BatchSize(n, workCount);
    assert bs * workCount <= n;
    assert bs * (k + 1) <= bs * workCount by {
      MultiplyMonotone(bs, k + 1, workCount);
    }
  }

  lemma MultiplyMonotone(a: nat, b: nat, c: nat)
    requires b <= c
    ensures a * b <= a * c
  {
  }

  /** How many locations the batches cover: batchSize * (workCount - 1). */
  function TracedCount(n: nat, workCount: int): nat
    requires workCount > 0
  {
    MultiplyMonotone(BatchSize(n, workCount), 0, workCount - 1);
    BatchSize(n, workCount) * (workCount - 1)
  }

  /**
   * The batches leave locations out: when there are at least as many
   * locations as workers, the last location is never traced.
   */
  lemma LastLocationUntraced(n: nat, workCount: int)
    requires workCount > 0 && n >= workCount
    ensures TracedCount(n, workCount) <= n - BatchSize(n, workCount) < n
  {
    var bs := BatchSize(n, workCount);
    assert bs >= 1;
    assert bs * workCount <= n;
    assert TracedCount(n, workCount) == bs * workCount - bs;
  }

  /** The photon shot from a light towards one location. */
  function Seed(light: Light, location: Vector, sqrt: real -> real): Photon
  {
    Photon(light.Position, NormalizeVector(SubVector(location, light.Position), sqrt), light.Color, light.LightStrength)
  }

  /** The photons shot from a light towards each of the locations, in order. */
  function Seeds(light: Light, locations: seq<Vector>, sqrt: real -> real): seq<Photon>
  {
    if |locations| == 0 then []
    else Seeds(light, locations[..|locations| - 1], sqrt) + [Seed(light, locations[|locations| - 1], sqrt)]
  }

  /** Seeding a concatenation of location runs seeds each run in turn. */
  lemma {:induction false} SeedsAppend(light: Light, a: seq<Vector>, b: seq<Vector>, sqrt: real -> real)
    ensures Seeds(light, a + b, sqrt) == Seeds(light, a, sqrt) + Seeds(light, b, sqrt)
    decreases |b|
  {
    if |b| > 0 {
      var initB := b[..|b| - 1];
      assert (a + b)[..|a + b| - 1] == a + initB;
      SeedsAppend(light, a, initB, sqrt);
    } else {
      assert a + b == a;
    }
  }

  /** The photons shot for the traced locations, light after light. */
  function AllSeeds(lights: seq<Light>, locations: seq<Vector>, sqrt: real -> real): seq<Photon>
  {
    if |lights| == 0 then []
    else AllSeeds(lights[..|lights| - 1], locations, sqrt) + Seeds(lights[|lights| - 1], locations, sqrt)
  }

  /** Each light shoots exactly one photon per traced location. */
  lemma {:induction false} AllSeedsLength(lights: seq<Light>, locations: seq<Vector>, sqrt: real -> real)
    ensures |AllSeeds(lights, locations, sqrt)| == |lights| * |locations|
  {
    SeedsLength(locations, sqrt, lights);
    if |lights| > 0 {
      AllSeedsLength(lights[..|lights| - 1], locations, sqrt);
      assert |lights| * |locations| == (|lights| - 1) * |locations| + |locations|;
    }
  }

  lemma {:induction false} SeedsLength(locations: seq<Vector>, sqrt: real -> real, lights: seq<Light>)
    ensures forall l :: l in lights ==> |Seeds(l, locations, sqrt)| == |locations|
  {
    forall l | l in lights
      ensures |Seeds(l, locations, sqrt)| == |locations|
    {
      SeedsCount(l, locations, sqrt);
    }
  }

  lemma {:induction false} SeedsCount(light: Light, locations: seq<Vector>, sqrt: real -> real)
    ensures |Seeds(light, locations, sqrt)| == |locations|
  {
    if |locations| > 0 {
      SeedsCount(light, locations[..|locations| - 1], sqrt);
    }
  }

  /** The deposits of photons traced from depth 0 one after another, in order. */
  function AllDeposits(w: World, photons: seq<Photon>): (r: seq<(Triangle, Photon)>)
    requires Ready(w)
    ensures forall k :: 0 <= k < |r| ==> Matte(r[k].0) && r[k].1.Intensity == 0.0
  {
    if |photons| == 0 then []
    else AllDeposits(w, photons[..|photons| - 1]) + Deposits(w, photons[|photons| - 1], 0)
  }

  /** Tracing one run of photons after another deposits the first run's photons, then the second's. */
  lemma {:induction false} AllDepositsAppend(w: World, a: seq<Photon>, b: seq<Photon>)
    requires Ready(w)
    ensures AllDeposits(w, a + b) == AllDeposits(w, a) + AllDeposits(w, b)
    decreases |b|
  {
    if |b| > 0 {
      var initB := b[..|b| - 1];
      assert (a + b)[..|a + b| - 1] == a + initB;
      assert (a + b)[|a + b| - 1] == b[|b| - 1];
      AllDepositsAppend(w, a, initB);
      AppendAssociates(AllDeposits(w, a), AllDeposits(w, initB), Deposits(w, b[|b| - 1], 0));
    } else {
      assert a + b == a;
    }
  }

  /** A log that holds the deposits of `a` and then of `b` holds the deposits of `a + b`. */
  lemma ExtendLog(w: World, start: seq<(Triangle, Photon)>, a: seq<Photon>, b: seq<Photon>, log: seq<(Triangle, Photon)>)
    requires Ready(w) && log == start + AllDeposits(w, a) + AllDeposits(w, b)
    ensures log == start + AllDeposits(w, a + b)
  {
    AllDepositsAppend(w, a, b);
    AppendAssociates(start, AllDeposits(w, a), AllDeposits(w, b));
  }

  /**
   * buildPhotonMap, with the number of workers as a parameter: collects the
   * caustic locations, then for every light traces, batch by batch, a photon
   * from the light towards each location of the first workCount - 1
   * batches. `seeded` lists the photons traced, in order.
   */
  method BuildPhotonMap(w: World, store: PhotonStore, triangles: seq<Triangle>, workCount: int)
    returns (ghost seeded: seq<Photon>)
    modifies store
    requires Ready(w) && store.Valid() && workCount > 0
    ensures store.Valid() && old(store.log) <= store.log
    ensures var locations := CausticLocations(triangles, w.cfg, w.h);
            seeded == AllSeeds(w.lights, locations[..TracedCount(|locations|, workCount)], w.h.sqrt)
    ensures store.log == old(store.log) + AllDeposits(w, seeded)
  {
    var causticSampleLocations := CollectLocations(triangles, w.cfg, w.h);
    seeded := TraceLights(w, store, causticSampleLocations, workCount);
  }

  /** The light loop of buildPhotonMap: every light in turn traces its batches of the locations. */
  method TraceLights(w: World, store: PhotonStore, locations: seq<Vector>, workCount: int)
    returns (ghost seeded: seq<Photon>)
    modifies store
    requires Ready(w) && store.Valid() && workCount > 0
    ensures store.Valid()
    ensures seeded == AllSeeds(w.lights, locations[..TracedCount(|locations|, workCount)], w.h.sqrt)
    ensures store.log == old(store.log) + AllDeposits(w, seeded)
  {
    ghost var traced := locations[..TracedCount(|locations|, workCount)];
    seeded := [];
    for i := 0 to |w.lights|
      invariant store.Valid()
      invariant seeded == AllSeeds(w.lights[..i], traced, w.h.sqrt)
      invariant store.log == old(store.log) + AllDeposits(w, seeded)
    {
      assert w.lights[..i + 1][..i] == w.lights[..i];
      var lightSeeds := TraceLight(w, store, locations, w.lights[i], workCount);
      ExtendLog(w, old(store.log), seeded, lightSeeds, store.log);
      seeded := seeded + lightSeeds;
    }
    assert w.lights[..|w.lights|] == w.lights;
  }

  /** The batch loop of buildPhotonMap for one light. */
  method TraceLight(w: World, store: PhotonStore, locations: seq<Vector>, light: Light, workCount: int)
    returns (ghost seeded: seq<Photon>)
    modifies store
    requires Ready(w) && store.Valid() && workCount > 0
    ensures store.Valid() && old(store.log) <= store.log
    ensures seeded == Seeds(light, locations[..TracedCount(|locations|, workCount)], w.h.sqrt)
    ensures store.log == old(store.log) + AllDeposits(w, seeded)
  {
    var n := |locations|;
    var batchSize := BatchSize(n, workCount);
    seeded := [];
    for k := 0 to workCount - 1
      invariant store.Valid()
      invariant batchSize * k <= n
      invariant seeded == Seeds(light, locations[..batchSize * k], w.h.sqrt)
      invariant store.log == old(store.log) + AllDeposits(w, seeded)
    {
      BatchInBounds(n, workCount, k);
      var from := batchSize * k;
      var to := batchSize * (k + 1);
      if to > n {
        to := n;
      }
      var sample := locations[from..to];
      assert locations[..batchSize * (k + 1)] == locations[..from] + sample;
      SeedsAppend(light, locations[..from], sample, w.h.sqrt);
      var batchSeeds := TraceBatch(w, store, sample, light);
      ExtendLog(w, old(store.log), seeded, batchSeeds, store.log);
      seeded := seeded + batchSeeds;
    }
  }

  /** One worker's batch: a photon from the light towards each location, traced from depth 0. */
  method TraceBatch(w: World, store: PhotonStore, samples: seq<Vector>, light: Light)
    returns (ghost seeded: seq<Photon>)
    modifies store
    requires Ready(w) && store.Valid()
    ensures store.Valid() && old(store.log) <= store.log
    ensures seeded == Seeds(light, samples, w.h.sqrt)
    ensures store.log == old(store.log) + AllDeposits(w, seeded)
  {
    seeded := [];
    for sampleIndex := 0 to |samples|
      invariant store.Valid()
      invariant seeded == Seeds(light, samples[..sampleIndex], w.h.sqrt)
      invariant store.log == old(store.log) + AllDeposits(w, seeded)
    {
      assert samples[..sampleIndex + 1][..sampleIndex] == samples[..sampleIndex];
      var dir := NormalizeVector(SubVector(samples[sampleIndex], light.Position), w.h.sqrt);
      var photon := Photon(light.Position, dir, light.Color, light.LightStrength);
      ghost var _ := TracePhoton(w, store, photon, 0);
      assert (seeded + [photon])[..|seeded|] == seeded;
      AppendAssociates(old(store.log), AllDeposits(w, seeded), Deposits(w, photon, 0));
      seeded := seeded + [photon];
    }
    assert samples[..|samples|] == samples;
  }
}
