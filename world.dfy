/**
 * What the shading, lighting and photon code reads from the scene: the
 * settings, the unseen helpers, the texture and bump images, the lights and
 * the scene raycast. The raycast is a function value here; Raycast shows
 * the properties raycastSceneIntersect gives it, and CastsHits asks for them.
 */
module Context {
  import opened Wrappers
  import opened Vectors
  import opened Triangles
  import opened Settings
  import opened Shading

  /**
   * A light as the final core reads it: a position or, for a directional
   * light, a direction, a colour and a strength.
   */
  datatype Light = Light(
    Position: Vector,
    Color: Vector,
    Active: bool,
    LightStrength: real,
    Directional: bool,
    Direction: Vector)

  /**
   * The scene as the renderer sees it. `environment` is the environment map
   * lookup by ray direction, None when the scene has no environment map.
   * `glassDepth` bounds how many panes of glass a light is followed through.
   */
  datatype World = World(
    cfg: Config,
    h: Helpers,
    images: map<string, Image>,
    bumps: map<string, Image>,
    lights: seq<Light>,
    shortRadius: real,
    cast: (Vector, Vector) -> Intersection,
    environment: Option<Vector -> Vector>,
    glassDepth: nat)

  /** The raycast reports a hit only with its triangle and at distance DIFF or more. */
  ghost predicate CastsHits(cast: (Vector, Vector) -> Intersection)
  {
    forall a: Vector, b: Vector :: cast(a, b).Hit ==> cast(a, b).Triangle.Some? && cast(a, b).Dist >= DIFF
  }

  ghost predicate Ready(w: World)
  {
    WellFormedImages(w.images) && WellFormedImages(w.bumps) && CastsHits(w.cast)
  }

  /** A hit record whose triangle is known: what the shading code dereferences. */
  predicate Resolved(i: Intersection)
  {
    i.Hit ==> i.Triangle.Some?
  }

  /** 1 / (d * d); Go divides by zero at d = 0, the model yields 0 there. */
  function InvSquare(d: real): (r: real)
    ensures d != 0.0 ==> r * (d * d) == 1.0
    ensures r >= 0.0
  {
    if d == 0.0 then 0.0 else 1.0 / (d * d)
  }

  /** a / b; Go yields an infinity or NaN at b = 0, the model yields 0 there. */
  function Ratio(a: real, b: real): (r: real)
    ensures b != 0.0 ==> r * b == a
  {
    if b == 0.0 then 0.0 else a / b
  }
}
