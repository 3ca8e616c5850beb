/**
 * Supersampling of one pixel (getPixel in raytracer/antialias.go): up to 64
 * sub-pixels of the pixel's 8 x 8 grid, picked by a permutation of 0 .. 63,
 * are cast from the camera and rendered, and their colours averaged.
 */
module Antialias {
  import opened Vectors
  import opened Matrices
  import opened Triangles
  import opened Settings
  import opened Context
  import opened Ambient
  import opened Rendering
  import opened Raycast
  import opened Pixels

  /** The most samples a pixel takes: one per cell of its 8 x 8 grid. */
  const MaxSamples: int := 64

  /** A permutation of 0 .. 63, as rand.Perm(64) returns. */
  predicate IsPermutation64(perm: seq<int>)
  {
    |perm| == MaxSamples &&
    (forall k :: 0 <= k < |perm| ==> 0 <= perm[k] < MaxSamples) &&
    (forall a, b :: 0 <= a < b < |perm| ==> perm[a] != perm[b])
  }

  /** The sample count after the clamp to 64. */
  function ClampedSamples(n: int): (r: int)
    ensures r <= MaxSamples
    ensures n <= MaxSamples ==> r == n
    ensures n > MaxSamples ==> r == MaxSamples
  {
    if n > MaxSamples then MaxSamples else n
  }

  /**
   * The point of the eight-times-finer screen that sample index `n` stands
   * for in pixel (x, y): column n % 8 and row n / 8 of the pixel's cell,
   * shifted by half a cell. For n >= 0, n / 8 is the floor of the real
   * quotient Go takes.
   */
  function SubPixel(n: int, x: int, y: int): (int, int)
  {
    (n % 8 + x * 8 - 4, n / 8 + y * 8 - 4)
  }

  /** The sample index a sub-pixel of (x, y) comes from. */
  function SampleIndex(p: (int, int), x: int, y: int): int
  {
    (p.1 - y * 8 + 4) * 8 + (p.0 - x * 8 + 4)
  }

  /** SampleIndex undoes SubPixel for every index of the grid. */
  lemma SubPixelInverse(n: int, x: int, y: int)
    requires 0 <= n < MaxSamples
    ensures SampleIndex(SubPixel(n, x, y), x, y) == n
  {
    assert n == (n / 8) * 8 + n % 8;
  }

  /** Every sub-pixel of (x, y) lies in [8x - 4, 8x + 3] x [8y - 4, 8y + 3]. */
  lemma SubPixelInCell(n: int, x: int, y: int)
    requires 0 <= n < MaxSamples
    ensures x * 8 - 4 <= SubPixel(n, x, y).0 <= x * 8 + 3
    ensures y * 8 - 4 <= SubPixel(n, x, y).1 <= y * 8 + 3
  {
    assert 0 <= n / 8 < 8;
  }

  /** Distinct entries of the permutation pick distinct sub-pixels. */
  lemma SubPixelsDistinct(perm: seq<int>, x: int, y: int, a: int, b: int)
    requires IsPermutation64(perm) && 0 <= a < b < |perm|
    ensures SubPixel(perm[a], x, y) != SubPixel(perm[b], x, y)
  {
    SubPixelInverse(perm[a], x, y);
    SubPixelInverse(perm[b], x, y);
  }

  /** The ray direction through point `p` of the eight-times-finer screen of a width x height grid. */
  function SubPixelRay(p: (int, int), width: int, height: int, camera: Camera, h: Helpers): Vector
    requires width > 0 && height > 0
  {
    ScreenToWorld(p.0, p.1, width * 8, height * 8, camera.Projection, camera.View, h.sqrt)
  }

  /** The colours rendered from the camera through the first `n` sub-pixels of (x, y) the permutation picks. */
  function SampleColors(w: World, width: int, height: int, x: int, y: int, camera: Camera, perm: seq<int>, n: nat): (r: seq<Vector>)
    requires Ready(w) && width > 0 && height > 0 && n <= |perm|
    ensures |r| == n
  {
    seq(n, k requires 0 <= k < n =>
      RenderColor(w, w.cast(camera.Position, SubPixelRay(SubPixel(perm[k], x, y), width, height, camera, w.h)), 0))
  }

  /** getPixel's colour: the stored colour when no samples are taken, else the opaque mean of the sampled colours. */
  function Antialiased(w: World, pixels: array2<PixelStorage>, x: int, y: int, camera: Camera, perm: seq<int>): Vector
    reads pixels
    requires Ready(w) && 0 <= x < pixels.Length0 && 0 <= y < pixels.Length1 && IsPermutation64(perm)
  {
    var n := ClampedSamples(w.cfg.AntialiasSamples);
    if n <= 0 then pixels[x, y].Color
    else MeanColor(SampleColors(w, pixels.Length0, pixels.Length1, x, y, camera, perm, n)).(w := 1.0)
  }

  /**
   * getPixel: the clamped sample count (written back to the configuration
   * in Go, returned here as `samples`); with no samples the stored
   * colour; otherwise the mean of the colours rendered at the chosen
   * sub-pixels, which are pairwise distinct, with alpha 1.
   */
  method GetPixel(w: World, pixels: array2<PixelStorage>, x: int, y: int, camera: Camera, perm: seq<int>)
    returns (color: Vector, samples: int, ghost subPixels: seq<(int, int)>, ghost colors: seq<Vector>)
    requires Ready(w) && 0 <= x < pixels.Length0 && 0 <= y < pixels.Length1
    requires w.cfg.AntialiasSamples >= 0 && IsPermutation64(perm)
    ensures samples == ClampedSamples(w.cfg.AntialiasSamples)
    ensures samples == 0 ==> color == pixels[x, y].Color
    ensures samples > 0 ==> |colors| == samples && color == MeanColor(colors).(w := 1.0)
    ensures |subPixels| == samples
    ensures forall k :: 0 <= k < samples ==> subPixels[k] == SubPixel(perm[k], x, y)
    ensures forall a, b :: 0 <= a < b < samples ==> subPixels[a] != subPixels[b]
    ensures colors == SampleColors(w, pixels.Length0, pixels.Length1, x, y, camera, perm, samples)
    ensures color == Antialiased(w, pixels, x, y, camera, perm)
  {
    samples := w.cfg.AntialiasSamples;
    if samples > MaxSamples {
      samples := MaxSamples;
    }
    subPixels, colors := [], [];
    if samples == 0 {
      return pixels[x, y].Color, samples, subPixels, colors;
    }
    var totalColor, totalHits;
    totalColor, totalHits, colors := SampleLoop(w, pixels.Length0, pixels.Length1, x, y, camera, perm, samples);
    subPixels := seq(samples, k requires 0 <= k < samples => SubPixel(perm[k], x, y));
    totalColor := ScaleVector(totalColor, 1.0 / totalHits);
    color := totalColor.(w := 1.0);
    forall a, b | 0 <= a < b < samples
      ensures subPixels[a] != subPixels[b]
    {
      SubPixelsDistinct(perm, x, y, a, b);
    }
  }

  /**
   * The sampling loop of getPixel: the first `samples` sub-pixels the
   * permutation picks are rendered in order; their colours are added up and
   * counted.
   */
  method SampleLoop(w: World, width: int, height: int, x: int, y: int, camera: Camera, perm: seq<int>, samples: nat)
    returns (totalColor: Vector, totalHits: real, ghost colors: seq<Vector>)
    requires Ready(w) && width > 0 && height > 0 && samples <= |perm|
    ensures colors == SampleColors(w, width, height, x, y, camera, perm, samples)
    ensures totalColor == SumVectors(colors) && totalHits == samples as real
  {
    totalColor := Zero;
    totalHits := 0.0;
    colors := [];
    for k := 0 to samples
      invariant |colors| == k
      invariant totalColor == SumVectors(colors) && totalHits == k as real
      invariant forall j :: 0 <= j < k ==>
                  colors[j] == RenderColor(w, w.cast(camera.Position, SubPixelRay(SubPixel(perm[j], x, y), width, height, camera, w.h)), 0)
    {
      var render := RenderSample(w, camera, perm[k], x, y, width, height);
      assert (colors + [render])[..k] == colors;
      totalColor := AddVector(totalColor, render);
      totalHits := totalHits + 1.0;
      colors := colors + [render];
    }
  }

  /**
   * One sample of getPixel: the ray from the camera through sub-pixel `n`
   * of pixel (x, y) on the eight-times-finer screen of a width x height
   * grid, rendered at depth 0.
   */
  method RenderSample(w: World, camera: Camera, n: int, x: int, y: int, width: int, height: int) returns (color: Vector)
    requires Ready(w) && width > 0 && height > 0
    ensures color == RenderColor(w, w.cast(camera.Position, SubPixelRay(SubPixel(n, x, y), width, height, camera, w.h)), 0)
  {
    var yi := n / 8 + y * 8 - 4;
    var xi := n % 8 + x * 8 - 4;
    assert (xi, yi) == SubPixel(n, x, y);
    var sw, sh := width * 8, height * 8;
    var rayDir := ScreenToWorld(xi, yi, sw, sh, camera.Projection, camera.View, w.h.sqrt);
    var hit := w.cast(camera.Position, rayDir);
    var c, _, _, _, _ := Render(w, hit, 0);
    color := c;
  }

  /** Averaging colours of the unit cube keeps the antialiased colour in it, and makes it opaque. */
  lemma AntialiasedInUnitCube(colors: seq<Vector>)
    requires forall k :: 0 <= k < |colors| ==> InUnitCube(colors[k])
    ensures InUnitCube(MeanColor(colors).(w := 1.0)) && MeanColor(colors).(w := 1.0).w == 1.0
  {
    MeanInUnitCube(colors);
  }
}
