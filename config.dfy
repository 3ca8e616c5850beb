/**
 * The renderer's global configuration (GlobalConfig) and the helper
 * functions the core calls but whose definitions are not part of this
 * model; the latter are passed around as function values.
 */
module Settings {
  import opened Vectors
  import opened Triangles

  /**
   * Every setting the core reads. The Config struct of raytracer/config.go
   * declares the first nineteen; the rest are read by the core through
   * GlobalConfig as well.
   */
  datatype Config = Config(
    SamplerLimit: int,
    CausticsSamplerLimit: int,
    LightHardLimit: real,
    Exposure: real,
    MaxReflectionDepth: int,
    RayCorrection: real,
    OcclusionRate: real,
    AmbientRadius: real,
    RenderOcclusion: bool,
    RenderLights: bool,
    RenderColors: bool,
    RenderAmbientColors: bool,
    AmbientColorSharingRatio: real,
    RenderReflections: bool,
    RenderRefractions: bool,
    CausticsThreshold: real,
    Width: int,
    Height: int,
    EdgeDetechThreshold: real,
    RenderBumpMap: bool,
    TransparentColor: Vector,
    PhotonSpacing: real,
    RenderCaustics: bool,
    LightSampleCount: int,
    AntialiasSamples: int,
    Percentage: int)

  /** The DEFAULT settings of raytracer/config.go, for the fields it declares. */
  predicate HasDefaults(c: Config)
  {
    c.SamplerLimit == 16 && c.CausticsSamplerLimit == 10000 && c.LightHardLimit == 100.0 &&
    c.Exposure == 0.2 && c.MaxReflectionDepth == 6 && c.RayCorrection == 0.002 &&
    c.OcclusionRate == 0.2 && c.AmbientRadius == 2.1 &&
    c.RenderOcclusion && c.RenderLights && c.RenderColors && c.RenderAmbientColors &&
    c.AmbientColorSharingRatio == 0.5 && c.RenderReflections && c.RenderRefractions &&
    c.CausticsThreshold == 0.0 && c.Width == 1600 && c.Height == 900 &&
    c.EdgeDetechThreshold == 0.2
  }

  /**
   * Functions the core calls whose definitions are not part of this model:
   * the square root behind vectorNorm, vectorLength and vectorDistance,
   * sameSideTest, reflectVector, refractVector, limitVector, vectorSum,
   * sampleSphere, sampleTriangle and the three-argument createSamples.
   */
  datatype Helpers = Helpers(
    sqrt: real -> real,
    sameSide: (Vector, Vector) -> bool,
    reflect: (Vector, Vector) -> Vector,
    refract: (Vector, Vector, real) -> Vector,
    limit: (Vector, real) -> Vector,
    vectorSum: Vector -> real,
    sampleSphere: (real, int) -> seq<Vector>,
    sampleTriangle: (Triangle, int) -> seq<Vector>,
    spread: (Vector, int, real) -> seq<Vector>)

  /** vectorLength: the norm of the spatial part. */
  function Length(h: Helpers, v: Vector): real
  {
    h.sqrt(SquaredNorm(v))
  }
}
