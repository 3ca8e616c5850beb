/**
 * Pixel assembly (raytracer/imaging.go): the second pass over one pixel,
 * which renders its stored primary hit and adjusts its depth by the
 * reflection and refraction bounces; and the final pass over the whole
 * grid, which normalises the depths by the largest one, resamples the
 * pixels on depth or colour edges and converts every colour to 8 bits.
 */
module Imaging {
  import opened Vectors
  import opened Triangles
  import opened Settings
  import opened Shading
  import opened Context
  import opened Rendering
  import opened Antialias
  import opened Pixels

  // ---------------------------------------------------------------------
  // renderPixel

  /** The distance a bounce cast contributes to the depth: its Dist when it misses, nothing when it hits. */
  function MissedDist(bounce: Intersection): real
  {
    if bounce.Hit then 0.0 else bounce.Dist
  }

  /** The reflection bounce of a hit, when reflections are rendered and its material is glossy. */
  function ReflectionDepth(w: World, hit: Intersection): real
    requires hit.Triangle.Some?
  {
    if w.cfg.RenderReflections && hit.Triangle.value.Material.Glossiness > 0.0 then
      MissedDist(w.cast(hit.Intersection, w.h.reflect(hit.RayDir, hit.IntersectionNormal)))
    else 0.0
  }

  /** The refraction bounce of a hit, when refractions are rendered and its material transmits light. */
  function RefractionDepth(w: World, hit: Intersection): real
    requires hit.Triangle.Some?
  {
    var m := hit.Triangle.value.Material;
    if w.cfg.RenderRefractions && m.Transmission > 0.0 then
      MissedDist(w.cast(hit.Intersection, w.h.refract(hit.RayDir, hit.IntersectionNormal, m.IndexOfRefraction)))
    else 0.0
  }

  /** The depth renderPixel stores for a primary hit. */
  function PixelDepth(w: World, hit: Intersection): real
  {
    if hit.Triangle.Some? then hit.Dist + ReflectionDepth(w, hit) + RefractionDepth(w, hit) else hit.Dist
  }

  /** The scene cast marks every miss with distance -1, as raycastSceneIntersect does. */
  ghost predicate MissesAtMinusOne(cast: (Vector, Vector) -> Intersection)
  {
    forall a: Vector, b: Vector :: !cast(a, b).Hit ==> cast(a, b).Dist == -1.0
  }

  /**
   * With the scene cast's miss marker, each bounce that is traced and
   * misses lowers the pixel's depth by exactly 1, and a bounce that hits
   * leaves it unchanged: the depth is never above the primary distance.
   */
  lemma BouncesLowerDepth(w: World, hit: Intersection)
    requires MissesAtMinusOne(w.cast) && hit.Triangle.Some?
    ensures ReflectionDepth(w, hit) == 0.0 || ReflectionDepth(w, hit) == -1.0
    ensures RefractionDepth(w, hit) == 0.0 || RefractionDepth(w, hit) == -1.0
    ensures hit.Dist - 2.0 <= PixelDepth(w, hit) <= hit.Dist
  {
    var m := hit.Triangle.value.Material;
    var reflection := w.cast(hit.Intersection, w.h.reflect(hit.RayDir, hit.IntersectionNormal));
    var refraction := w.cast(hit.Intersection, w.h.refract(hit.RayDir, hit.IntersectionNormal, m.IndexOfRefraction));
    assert !reflection.Hit ==> reflection.Dist == -1.0;
    assert !refraction.Hit ==> refraction.Dist == -1.0;
  }

  /** The record renderPixel stores for (x, y): its position, the bounce-adjusted depth and the rendered colour. */
  function RenderedPixel(w: World, hit: Intersection, x: int, y: int): PixelStorage
    requires Ready(w) && Resolved(hit)
  {
    Blank.(X := x, Y := y, Depth := PixelDepth(w, hit), Color := RenderColor(w, hit, 0))
  }

  /**
   * renderPixel: the pixel's stored primary hit is rendered at depth 0 and
   * the pixel is replaced by a fresh record holding its coordinates, the
   * colour and the hit distance adjusted by the missed bounces; the hit
   * itself is not kept. No other pixel changes.
   */
  method RenderPixel(w: World, pixels: array2<PixelStorage>, x: int, y: int)
    modifies pixels
    requires Ready(w) && 0 <= x < pixels.Length0 && 0 <= y < pixels.Length1
    requires Resolved(pixels[x, y].WorldLocation)
    ensures var hit := old(pixels[x, y].WorldLocation);
            pixels[x, y] == Blank.(X := x, Y := y, Depth := PixelDepth(w, hit), Color := pixels[x, y].Color)
    ensures var hit := old(pixels[x, y].WorldLocation);
            (!hit.Hit && w.environment.None? ==> pixels[x, y].Color == w.cfg.TransparentColor) &&
            (!hit.Hit && w.environment.Some? ==> pixels[x, y].Color == w.environment.value(hit.RayDir)) &&
            (hit.Hit && w.cfg.MaxReflectionDepth <= 0 ==> pixels[x, y].Color == GetColor(hit, w.cfg, w.images))
    ensures pixels[x, y] == RenderedPixel(w, old(pixels[x, y].WorldLocation), x, y)
    ensures forall i, j :: 0 <= i < pixels.Length0 && 0 <= j < pixels.Length1 && (i, j) != (x, y) ==>
              pixels[i, j] == old(pixels[i, j])
  {
    var bestHit := pixels[x, y].WorldLocation;
    var pixel := Blank.(X := x, Y := y);
    pixel := pixel.(Depth := bestHit.Dist);
    var color, _, _, _, _ := Render(w, bestHit, 0);
    pixel := pixel.(Color := color);
    if bestHit.Triangle.Some? {
      var m := bestHit.Triangle.value.Material;
      if w.cfg.RenderReflections && m.Glossiness > 0.0 {
        var bounceDir := w.h.reflect(bestHit.RayDir, bestHit.IntersectionNormal);
        var reflection := w.cast(bestHit.Intersection, bounceDir);
        if !reflection.Hit {
          pixel := pixel.(Depth := pixel.Depth + reflection.Dist);
        }
      }
      if w.cfg.RenderRefractions && m.Transmission > 0.0 {
        var bounceDir := w.h.refract(bestHit.RayDir, bestHit.IntersectionNormal, m.IndexOfRefraction);
        var refraction := w.cast(bestHit.Intersection, bounceDir);
        if !refraction.Hit {
          pixel := pixel.(Depth := pixel.Depth + refraction.Dist);
        }
      }
    }
    pixels[x, y] := pixel;
  }

  // ---------------------------------------------------------------------
  // Depth normalisation and 8-bit conversion

  /**
   * A depth divided by the largest depth. Go's 0 / 0 is NaN, which raylar
   * replaces by 0; any other division by 0 gives an infinity in Go
   * and 0 here.
   */
  function NormalizedDepth(d: real, maxDepth: real): (r: real)
    ensures maxDepth != 0.0 ==> r * maxDepth == d
    ensures maxDepth == 0.0 ==> r == 0.0
  {
    if maxDepth == 0.0 then 0.0 else d / maxDepth
  }

  /** Depths between 0 and a positive largest depth land in [0, 1], the largest on 1. */
  lemma NormalizedInUnitRange(d: real, maxDepth: real)
    requires maxDepth > 0.0 && 0.0 <= d <= maxDepth
    ensures 0.0 <= NormalizedDepth(d, maxDepth) <= 1.0
    ensures d == maxDepth ==> NormalizedDepth(d, maxDepth) == 1.0
  {
  }

  /**
   * getPixelColor recognises a missed pixel by depth -1, but renderImage
   * calls it after the depths are normalised: a normalised depth is -1
   * exactly when the raw depth was minus the largest depth, so a raw miss
   * (depth -1) still reads as one only when the largest depth is 1.
   */
  lemma NormalizedMissMarker(d: real, maxDepth: real)
    requires maxDepth != 0.0
    ensures NormalizedDepth(d, maxDepth) == -1.0 <==> d == -maxDepth
    ensures NormalizedDepth(-1.0, maxDepth) == -1.0 <==> maxDepth == 1.0
  {
  }

  /** An 8-bit RGBA pixel of the output image. */
  datatype Rgba = Rgba(R: int, G: int, B: int, A: int)

  /**
   * uint8(math.Floor(c * 255)): the floor, wrapped to 8 bits. Go leaves the
   * conversion of an out-of-range float implementation-defined; the model
   * wraps it modulo 256.
   */
  function To8Bit(c: real): int
  {
    (c * 255.0).Floor % 256
  }

  /** A channel in [0, 1] converts to the floor of c * 255, a value in [0, 255]; 1 converts to 255. */
  lemma To8BitInRange(c: real)
    requires 0.0 <= c <= 1.0
    ensures 0 <= To8Bit(c) <= 255
    ensures To8Bit(c) as real <= c * 255.0 < To8Bit(c) as real + 1.0
    ensures c == 1.0 ==> To8Bit(c) == 255
  {
    var f := (c * 255.0).Floor;
    assert 0 <= f <= 255 by {
      assert 0.0 <= c * 255.0 <= 255.0;
    }
    assert f % 256 == f;
  }

  /** The image pixel of a colour, channel by channel. */
  function ToRgba(c: Vector): Rgba
  {
    Rgba(To8Bit(c.x), To8Bit(c.y), To8Bit(c.z), To8Bit(c.w))
  }

  /** The largest depth of the grid (the first loop of renderImage, seeded from pixel [0, 0]). */
  method MaxDepth(pixels: array2<PixelStorage>) returns (maxDepth: real)
    requires pixels.Length0 > 0 && pixels.Length1 > 0
    ensures forall i, j :: 0 <= i < pixels.Length0 && 0 <= j < pixels.Length1 ==> pixels[i, j].Depth <= maxDepth
    ensures exists i, j :: 0 <= i < pixels.Length0 && 0 <= j < pixels.Length1 && pixels[i, j].Depth == maxDepth
  {
    maxDepth := pixels[0, 0].Depth;
    for i := 0 to pixels.Length0
      invariant forall a, b :: 0 <= a < i && 0 <= b < pixels.Length1 ==> pixels[a, b].Depth <= maxDepth
      invariant exists a, b :: 0 <= a < pixels.Length0 && 0 <= b < pixels.Length1 && pixels[a, b].Depth == maxDepth
    {
      for j := 0 to pixels.Length1
        invariant forall a, b :: 0 <= a < i && 0 <= b < pixels.Length1 ==> pixels[a, b].Depth <= maxDepth
        invariant forall b :: 0 <= b < j ==> pixels[i, b].Depth <= maxDepth
        invariant exists a, b :: 0 <= a < pixels.Length0 && 0 <= b < pixels.Length1 && pixels[a, b].Depth == maxDepth
      {
        if maxDepth < pixels[i, j].Depth {
          maxDepth := pixels[i, j].Depth;
        }
      }
    }
  }

  /** The second loop of renderImage: every depth divided by the largest, NaN replaced by 0. */
  method NormalizeDepths(pixels: array2<PixelStorage>, maxDepth: real)
    modifies pixels
    ensures forall i, j :: 0 <= i < pixels.Length0 && 0 <= j < pixels.Length1 ==>
              pixels[i, j] == old(pixels[i, j]).(Depth := NormalizedDepth(old(pixels[i, j].Depth), maxDepth))
  {
    for i := 0 to pixels.Length0
      invariant forall a, b :: 0 <= a < pixels.Length0 && 0 <= b < pixels.Length1 ==>
                  pixels[a, b] == if a < i then old(pixels[a, b]).(Depth := NormalizedDepth(old(pixels[a, b].Depth), maxDepth))
                                  else old(pixels[a, b])
    {
      for j := 0 to pixels.Length1
        invariant forall a, b :: 0 <= a < pixels.Length0 && 0 <= b < pixels.Length1 ==>
                    pixels[a, b] == if a < i || (a == i && b < j) then old(pixels[a, b]).(Depth := NormalizedDepth(old(pixels[a, b].Depth), maxDepth))
                                    else old(pixels[a, b])
      {
        var depth := pixels[i, j].Depth;
        if maxDepth == 0.0 {
          depth := 0.0;
        } else {
          depth := depth / maxDepth;
        }
        pixels[i, j] := pixels[i, j].(Depth := depth);
      }
    }
  }

  // ---------------------------------------------------------------------
  // getPixelColor

  /** A pixel with all eight neighbours inside the grid (aaRadius 1). */
  predicate Inner(pixels: array2<PixelStorage>, x: int, y: int)
  {
    1 <= x && x + 1 < pixels.Length0 && 1 <= y && y + 1 < pixels.Length1
  }

  /** The 3 x 3 window around (x, y), in the order getPixelColor visits it: by column offset, then row offset. */
  function Window(pixels: array2<PixelStorage>, x: int, y: int): (win: seq<PixelStorage>)
    requires Inner(pixels, x, y)
    reads pixels
    ensures |win| == 9
  {
    [pixels[x - 1, y - 1], pixels[x - 1, y], pixels[x - 1, y + 1],
     pixels[x, y - 1], pixels[x, y], pixels[x, y + 1],
     pixels[x + 1, y - 1], pixels[x + 1, y], pixels[x + 1, y + 1]]
  }

  /** Offsets (i, j) of the window sit at position 3 (i + 1) + (j + 1). */
  lemma WindowAt(pixels: array2<PixelStorage>, x: int, y: int, i: int, j: int)
    requires Inner(pixels, x, y) && -1 <= i <= 1 && -1 <= j <= 1
    ensures Window(pixels, x, y)[3 * (i + 1) + (j + 1)] == pixels[x + i, y + j]
  {
  }

  /** The records of a list whose depth is not the miss marker -1, in order. */
  function Kept(ps: seq<PixelStorage>): (v: seq<PixelStorage>)
    ensures |v| <= |ps|
    ensures forall k :: 0 <= k < |v| ==> v[k].Depth != -1.0 && v[k] in ps
  {
    if |ps| == 0 then []
    else Kept(ps[..|ps| - 1]) + (if ps[|ps| - 1].Depth == -1.0 then [] else [ps[|ps| - 1]])
  }

  /** Kept over one more record. */
  lemma KeptStep(ps: seq<PixelStorage>, n: int)
    requires 0 <= n < |ps|
    ensures Kept(ps[..n + 1]) == Kept(ps[..n]) + (if ps[n].Depth == -1.0 then [] else [ps[n]])
  {
    assert ps[..n + 1][..n] == ps[..n];
  }

  /** A list of records marked as misses is kept in full only when none is marked. */
  lemma {:induction false} KeptAll(ps: seq<PixelStorage>)
    ensures |Kept(ps)| == |ps| <==> forall k :: 0 <= k < |ps| ==> ps[k].Depth != -1.0
  {
    if |ps| > 0 {
      var init := ps[..|ps| - 1];
      KeptAll(init);
      assert forall k :: 0 <= k < |init| ==> init[k] == ps[k];
    }
  }

  /** Some record of the list is marked as a miss. */
  predicate HasMiss(ps: seq<PixelStorage>)
  {
    exists k :: 0 <= k < |ps| && ps[k].Depth == -1.0
  }

  /** HasMiss over one more record. */
  lemma HasMissStep(ps: seq<PixelStorage>, n: int)
    requires 0 <= n < |ps|
    ensures HasMiss(ps[..n + 1]) <==> HasMiss(ps[..n]) || ps[n].Depth == -1.0
  {
    if HasMiss(ps[..n + 1]) && ps[n].Depth != -1.0 {
      var k :| 0 <= k < n + 1 && ps[..n + 1][k].Depth == -1.0;
      assert ps[..n][k].Depth == -1.0;
    }
    if HasMiss(ps[..n]) {
      var k :| 0 <= k < n && ps[..n][k].Depth == -1.0;
      assert ps[..n + 1][k].Depth == -1.0;
    }
    if ps[n].Depth == -1.0 {
      assert ps[..n + 1][n].Depth == -1.0;
    }
  }

  /**
   * The neighbourhood loop of getPixelColor: the window's records that are
   * not misses, and whether any is a miss.
   */
  method Neighbours(pixels: array2<PixelStorage>, x: int, y: int) returns (v: seq<PixelStorage>, transparent: bool)
    requires Inner(pixels, x, y)
    ensures v == Kept(Window(pixels, x, y))
    ensures transparent <==> HasMiss(Window(pixels, x, y))
  {
    ghost var win := Window(pixels, x, y);
    transparent := false;
    v := [];
    for i := -1 to 2
      invariant v == Kept(win[..3 * (i + 1)])
      invariant transparent <==> HasMiss(win[..3 * (i + 1)])
    {
      v, transparent := NeighbourColumn(pixels, x, y, i, win, v, transparent);
    }
    assert win[..9] == win;
  }

  /** One column offset of the neighbourhood loop: the three records at row offsets -1, 0 and 1. */
  method NeighbourColumn(pixels: array2<PixelStorage>, x: int, y: int, i: int, ghost win: seq<PixelStorage>,
                         v0: seq<PixelStorage>, transparent0: bool)
    returns (v: seq<PixelStorage>, transparent: bool)
    requires Inner(pixels, x, y) && -1 <= i <= 1 && win == Window(pixels, x, y)
    requires v0 == Kept(win[..3 * (i + 1)])
    requires transparent0 <==> HasMiss(win[..3 * (i + 1)])
    ensures v == Kept(win[..3 * (i + 2)])
    ensures transparent <==> HasMiss(win[..3 * (i + 2)])
  {
    ghost var start := 3 * (i + 1);
    v, transparent := v0, transparent0;
    for j := -1 to 2
      invariant v == Kept(win[..start + (j + 1)])
      invariant transparent <==> HasMiss(win[..start + (j + 1)])
    {
      ghost var n := start + (j + 1);
      KeptStep(win, n);
      HasMissStep(win, n);
      var p := pixels[x + i, y + j];
      WindowAt(pixels, x, y, i, j);
      if p.Depth == -1.0 {
        transparent := true;
        continue;
      }
      v := v + [p];
    }
  }

  /** Some two records of the list differ in depth, or in colour sum, by more than the threshold. */
  predicate Edge(v: seq<PixelStorage>, threshold: real, vectorSum: Vector -> real)
  {
    (exists a, b :: 0 <= a < |v| && 0 <= b < |v| && v[a].Depth - v[b].Depth > threshold) ||
    (exists a, b :: 0 <= a < |v| && 0 <= b < |v| && vectorSum(v[a].Color) - vectorSum(v[b].Color) > threshold)
  }

  /**
   * The min/max loop of getPixelColor: the least and greatest depth and
   * colour sum of a non-empty list, each attained by some record.
   */
  method Ranges(v: seq<PixelStorage>, vectorSum: Vector -> real)
    returns (minDepth: real, maxDepth: real, minColor: real, maxColor: real)
    requires |v| > 0
    ensures forall k :: 0 <= k < |v| ==> minDepth <= v[k].Depth <= maxDepth
    ensures forall k :: 0 <= k < |v| ==> minColor <= vectorSum(v[k].Color) <= maxColor
    ensures exists k :: 0 <= k < |v| && v[k].Depth == minDepth
    ensures exists k :: 0 <= k < |v| && v[k].Depth == maxDepth
    ensures exists k :: 0 <= k < |v| && vectorSum(v[k].Color) == minColor
    ensures exists k :: 0 <= k < |v| && vectorSum(v[k].Color) == maxColor
  {
    minDepth, maxDepth := v[0].Depth, v[0].Depth;
    minColor, maxColor := vectorSum(v[0].Color), vectorSum(v[0].Color);
    for i := 0 to |v|
      invariant forall k :: 0 <= k < i ==> minDepth <= v[k].Depth <= maxDepth
      invariant forall k :: 0 <= k < i ==> minColor <= vectorSum(v[k].Color) <= maxColor
      invariant exists k :: 0 <= k < |v| && v[k].Depth == minDepth
      invariant exists k :: 0 <= k < |v| && v[k].Depth == maxDepth
      invariant exists k :: 0 <= k < |v| && vectorSum(v[k].Color) == minColor
      invariant exists k :: 0 <= k < |v| && vectorSum(v[k].Color) == maxColor
    {
      if v[i].Depth < minDepth {
        minDepth := v[i].Depth;
      }
      if v[i].Depth > maxDepth {
        maxDepth := v[i].Depth;
      }
      var vsum := vectorSum(v[i].Color);
      if vsum < minColor {
        minColor := vsum;
      }
      if vsum > maxColor {
        maxColor := vsum;
      }
    }
  }

  /**
   * The ranges exceed the threshold exactly when some pair of records does:
   * the edge test on the extremes is the edge test on all pairs.
   */
  lemma RangesDetectEdges(v: seq<PixelStorage>, vectorSum: Vector -> real, threshold: real,
                          minDepth: real, maxDepth: real, minColor: real, maxColor: real)
    requires forall k :: 0 <= k < |v| ==> minDepth <= v[k].Depth <= maxDepth
    requires forall k :: 0 <= k < |v| ==> minColor <= vectorSum(v[k].Color) <= maxColor
    requires exists k :: 0 <= k < |v| && v[k].Depth == minDepth
    requires exists k :: 0 <= k < |v| && v[k].Depth == maxDepth
    requires exists k :: 0 <= k < |v| && vectorSum(v[k].Color) == minColor
    requires exists k :: 0 <= k < |v| && vectorSum(v[k].Color) == maxColor
    ensures (maxDepth - minDepth > threshold || maxColor - minColor > threshold) <==> Edge(v, threshold, vectorSum)
  {
    var lo :| 0 <= lo < |v| && v[lo].Depth == minDepth;
    var hi :| 0 <= hi < |v| && v[hi].Depth == maxDepth;
    var cLo :| 0 <= cLo < |v| && vectorSum(v[cLo].Color) == minColor;
    var cHi :| 0 <= cHi < |v| && vectorSum(v[cHi].Color) == maxColor;
    if maxDepth - minDepth > threshold {
      assert v[hi].Depth - v[lo].Depth > threshold;
    }
    if maxColor - minColor > threshold {
      assert vectorSum(v[cHi].Color) - vectorSum(v[cLo].Color) > threshold;
    }
  }

  /**
   * Whether getPixelColor resamples (x, y): an inner pixel, a full render,
   * at least three neighbours that are not misses, a non-negative alpha,
   * and an edge among the kept neighbours or a missed neighbour.
   */
  ghost predicate Resampled(pixels: array2<PixelStorage>, x: int, y: int, pixelColor: Vector, cfg: Config, h: Helpers)
    reads pixels
  {
    Inner(pixels, x, y) && cfg.Percentage >= 100 &&
    var win := Window(pixels, x, y);
    |Kept(win)| >= 3 && pixelColor.w >= 0.0 &&
    (Edge(Kept(win), cfg.EdgeDetechThreshold, h.vectorSum) || HasMiss(win))
  }

  /**
   * getPixelColor: the given colour unless the pixel is resampled; a
   * resampled pixel gets getPixel's colour, which is the stored colour
   * when no samples are taken and opaque otherwise.
   */
  method GetPixelColor(w: World, pixels: array2<PixelStorage>, x: int, y: int, pixelColor: Vector, camera: Camera, perm: seq<int>)
    returns (color: Vector, ghost resampled: bool)
    requires Ready(w) && 0 <= x < pixels.Length0 && 0 <= y < pixels.Length1
    requires w.cfg.AntialiasSamples >= 0 && IsPermutation64(perm)
    ensures resampled <==> Resampled(pixels, x, y, pixelColor, w.cfg, w.h)
    ensures !resampled ==> color == pixelColor
    ensures resampled && ClampedSamples(w.cfg.AntialiasSamples) == 0 ==> color == pixels[x, y].Color
    ensures resampled && ClampedSamples(w.cfg.AntialiasSamples) > 0 ==> color.w == 1.0
    ensures resampled ==> color == Antialiased(w, pixels, x, y, camera, perm)
  {
    resampled := false;
    if x < 1 || x + 1 >= pixels.Length0 || y < 1 || y + 1 >= pixels.Length1 {
      return pixelColor, resampled;
    }
    if w.cfg.Percentage < 100 {
      return pixelColor, resampled;
    }
    var v, transparent := Neighbours(pixels, x, y);
    if |v| < 3 || pixelColor.w < 0.0 {
      return pixelColor, resampled;
    }
    var minDepth, maxDepth, minColor, maxColor := Ranges(v, w.h.vectorSum);
    var threshold := w.cfg.EdgeDetechThreshold;
    var check := maxDepth - minDepth > threshold || maxColor - minColor > threshold;
    RangesDetectEdges(v, w.h.vectorSum, threshold, minDepth, maxDepth, minColor, maxColor);
    if transparent {
      check := true;
    }
    if !check {
      return pixelColor, resampled;
    }
    resampled := true;
    var samples;
    ghost var subPixels, colors;
    color, samples, subPixels, colors := GetPixel(w, pixels, x, y, camera, perm);
  }

  // ---------------------------------------------------------------------
  // renderImage

  /** The 8-bit colour renderImage paints for (a, b): getPixelColor's colour for the pixel, converted. */
  ghost function PaintedColor(w: World, pixels: array2<PixelStorage>, camera: Camera, perm: seq<int>, a: int, b: int): Rgba
    reads pixels
    requires Ready(w) && 0 <= a < pixels.Length0 && 0 <= b < pixels.Length1 && IsPermutation64(perm)
  {
    ToRgba(if Resampled(pixels, a, b, pixels[a, b].Color, w.cfg, w.h) then Antialiased(w, pixels, a, b, camera, perm)
           else pixels[a, b].Color)
  }

  /** A pixel that is not resampled is painted with its own colour; a resampled one is opaque when samples are taken. */
  lemma PaintedMeans(w: World, pixels: array2<PixelStorage>, camera: Camera, perm: seq<int>, a: int, b: int)
    requires Ready(w) && 0 <= a < pixels.Length0 && 0 <= b < pixels.Length1 && IsPermutation64(perm)
    ensures if Resampled(pixels, a, b, pixels[a, b].Color, w.cfg, w.h) then
              ClampedSamples(w.cfg.AntialiasSamples) > 0 ==> PaintedColor(w, pixels, camera, perm, a, b).A == 255
            else PaintedColor(w, pixels, camera, perm, a, b) == ToRgba(pixels[a, b].Color)
  {
    To8BitInRange(1.0);
  }

  /** One row of the third loop of renderImage: every pixel of row i is painted, the other rows are kept. */
  method PaintRow(w: World, pixels: array2<PixelStorage>, image: array2<Rgba>, camera: Camera, perms: (int, int) -> seq<int>, i: int)
    modifies image
    requires Ready(w) && w.cfg.AntialiasSamples >= 0 && 0 <= i < pixels.Length0
    requires image.Length0 == pixels.Length0 && image.Length1 == pixels.Length1
    requires forall a, b :: IsPermutation64(perms(a, b))
    ensures forall b :: 0 <= b < image.Length1 ==> image[i, b] == PaintedColor(w, pixels, camera, perms(i, b), i, b)
    ensures forall a, b :: 0 <= a < image.Length0 && 0 <= b < image.Length1 && a != i ==> image[a, b] == old(image[a, b])
  {
    for j := 0 to pixels.Length1
      invariant forall b :: 0 <= b < j ==> image[i, b] == PaintedColor(w, pixels, camera, perms(i, b), i, b)
      invariant forall a, b :: 0 <= a < image.Length0 && 0 <= b < image.Length1 && a != i ==> image[a, b] == old(image[a, b])
    {
      var pcolor := pixels[i, j].Color;
      ghost var resampled;
      pcolor, resampled := GetPixelColor(w, pixels, i, j, pcolor, camera, perms(i, j));
      image[i, j] := ToRgba(pcolor);
    }
  }

  /**
   * The third loop of renderImage: every pixel's colour, resampled where
   * getPixelColor decides so, converted to 8 bits and stored in the image.
   */
  method PaintImage(w: World, pixels: array2<PixelStorage>, image: array2<Rgba>, camera: Camera, perms: (int, int) -> seq<int>)
    modifies image
    requires Ready(w) && w.cfg.AntialiasSamples >= 0
    requires image.Length0 == pixels.Length0 && image.Length1 == pixels.Length1
    requires forall i, j :: IsPermutation64(perms(i, j))
    ensures forall i, j :: 0 <= i < image.Length0 && 0 <= j < image.Length1 ==>
              image[i, j] == PaintedColor(w, pixels, camera, perms(i, j), i, j)
    ensures forall i, j :: 0 <= i < image.Length0 && 0 <= j < image.Length1 ==>
              if Resampled(pixels, i, j, pixels[i, j].Color, w.cfg, w.h) then
                ClampedSamples(w.cfg.AntialiasSamples) > 0 ==> image[i, j].A == 255
              else image[i, j] == ToRgba(pixels[i, j].Color)
  {
    for i := 0 to pixels.Length0
      invariant forall a, b :: 0 <= a < i && 0 <= b < image.Length1 ==>
                  image[a, b] == PaintedColor(w, pixels, camera, perms(a, b), a, b)
    {
      PaintRow(w, pixels, image, camera, perms, i);
    }
    forall a, b | 0 <= a < image.Length0 && 0 <= b < image.Length1
      ensures if Resampled(pixels, a, b, pixels[a, b].Color, w.cfg, w.h) then
                ClampedSamples(w.cfg.AntialiasSamples) > 0 ==> image[a, b].A == 255
              else image[a, b] == ToRgba(pixels[a, b].Color)
    {
      PaintedMeans(w, pixels, camera, perms(a, b), a, b);
    }
  }

  /**
   * renderImage: the depths of the grid are divided by the largest depth
   * (NaN as 0), then every pixel is painted from its colour as
   * getPixelColor leaves it. The grid must hold a pixel: Go reads
   * pixel [0, 0] first.
   */
  method RenderImage(w: World, pixels: array2<PixelStorage>, image: array2<Rgba>, camera: Camera, perms: (int, int) -> seq<int>)
    returns (ghost maxDepth: real)
    modifies pixels, image
    requires Ready(w) && w.cfg.AntialiasSamples >= 0
    requires pixels.Length0 > 0 && pixels.Length1 > 0
    requires image.Length0 == pixels.Length0 && image.Length1 == pixels.Length1
    requires forall i, j :: IsPermutation64(perms(i, j))
    ensures forall i, j :: 0 <= i < pixels.Length0 && 0 <= j < pixels.Length1 ==> old(pixels[i, j].Depth) <= maxDepth
    ensures exists i, j :: 0 <= i < pixels.Length0 && 0 <= j < pixels.Length1 && old(pixels[i, j].Depth) == maxDepth
    ensures forall i, j :: 0 <= i < pixels.Length0 && 0 <= j < pixels.Length1 ==>
              pixels[i, j] == old(pixels[i, j]).(Depth := NormalizedDepth(old(pixels[i, j].Depth), maxDepth))
    ensures forall i, j :: 0 <= i < image.Length0 && 0 <= j < image.Length1 ==>
              image[i, j] == PaintedColor(w, pixels, camera, perms(i, j), i, j)
    ensures forall i, j :: 0 <= i < image.Length0 && 0 <= j < image.Length1 ==>
              if Resampled(pixels, i, j, pixels[i, j].Color, w.cfg, w.h) then
                ClampedSamples(w.cfg.AntialiasSamples) > 0 ==> image[i, j].A == 255
              else image[i, j] == ToRgba(pixels[i, j].Color)
  {
    var m := MaxDepth(pixels);
    maxDepth := m;
    NormalizeDepths(pixels, m);
    PaintImage(w, pixels, image, camera, perms);
  }
}
