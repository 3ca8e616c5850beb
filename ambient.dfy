/**
 * Ambient occlusion and colour bleeding (raytracer/ambient.go): hemisphere
 * samples are cast from the hit point, their distances give an occlusion
 * ratio and their colours a mean bled colour.
 */
module Ambient {
  import opened Vectors
  import opened Triangles
  import opened Settings
  import opened Shading
  import opened Context

  /** The occlusion radius: AmbientRadius when positive, else the scene's short radius. */
  function OcclusionRadius(cfg: Config, shortRadius: real): (rad: real)
    ensures cfg.AmbientRadius > 0.0 ==> rad == cfg.AmbientRadius
    ensures cfg.AmbientRadius <= 0.0 ==> rad == shortRadius
  {
    if cfg.AmbientRadius > 0.0 then cfg.AmbientRadius else shortRadius
  }

  /** The sum over the samples of min(Dist, rad). */
  function ClampedDistances(samples: seq<Intersection>, rad: real): real
  {
    if |samples| == 0 then 0.0
    else
      var last := samples[|samples| - 1];
      ClampedDistances(samples[..|samples| - 1], rad) + (if last.Dist > rad then rad else last.Dist)
  }

  /** With non-negative distances, every sample contributes between 0 and rad. */
  lemma {:induction false} ClampedDistancesBounds(samples: seq<Intersection>, rad: real)
    requires rad > 0.0
    requires forall k :: 0 <= k < |samples| ==> samples[k].Dist >= 0.0
    ensures 0.0 <= ClampedDistances(samples, rad) <= |samples| as real * rad
  {
    if |samples| > 0 {
      var init := samples[..|samples| - 1];
      assert forall k :: 0 <= k < |init| ==> init[k] == samples[k];
      ClampedDistancesBounds(init, rad);
    }
  }

  /**
   * The occlusion ratio: 1 when no sample hit; otherwise the clamped
   * distances, with rad for each of the totalDirs directions that found
   * nothing, over rad * totalDirs.
   */
  function OcclusionRatio(samples: seq<Intersection>, totalDirs: int, rad: real): real
  {
    if |samples| == 0 then 1.0
    else Ratio(ClampedDistances(samples, rad) + (totalDirs - |samples|) as real * rad, rad * totalDirs as real)
  }

  /** ambientLightCalc: the occlusion ratio of the samples for the occlusion radius. */
  method AmbientLightCalc(samples: seq<Intersection>, totalDirs: int, cfg: Config, shortRadius: real)
    returns (result: real)
    ensures |samples| == 0 ==> result == 1.0
    ensures result == OcclusionRatio(samples, totalDirs, OcclusionRadius(cfg, shortRadius))
  {
    var rad := shortRadius;
    if cfg.AmbientRadius > 0.0 {
      rad := cfg.AmbientRadius;
    }
    assert rad == OcclusionRadius(cfg, shortRadius);
    var totalDistLimit := rad * totalDirs as real;
    var totalDist := SumClamped(samples, rad);
    totalDist := totalDist + (totalDirs - |samples|) as real * rad;
    if |samples| == 0 {
      return 1.0;
    }
    OcclusionRatioOfTotal(samples, totalDirs, rad, totalDist, totalDistLimit);
    return Ratio(totalDist, totalDistLimit);
  }

  /** The ratio of ambientLightCalc's two running totals is the occlusion ratio. */
  lemma OcclusionRatioOfTotal(samples: seq<Intersection>, totalDirs: int, rad: real, total: real, limit: real)
    requires |samples| > 0
    requires total == ClampedDistances(samples, rad) + (totalDirs - |samples|) as real * rad
    requires limit == rad * totalDirs as real
    ensures Ratio(total, limit) == OcclusionRatio(samples, totalDirs, rad)
  {
  }

  /** The loop of ambientLightCalc: each sample adds its distance, capped at rad. */
  method SumClamped(samples: seq<Intersection>, rad: real) returns (totalDist: real)
    ensures totalDist == ClampedDistances(samples, rad)
  {
    totalDist := 0.0;
    for i := 0 to |samples|
      invariant totalDist == ClampedDistances(samples[..i], rad)
    {
      assert samples[..i + 1][..i] == samples[..i];
      if samples[i].Dist > rad {
        totalDist := totalDist + rad;
      } else {
        totalDist := totalDist + samples[i].Dist;
      }
    }
    assert samples[..|samples|] == samples;
  }

  /**
   * The occlusion ratio lies in [0, 1] when the radius is positive, the
   * distances are non-negative and there are no more samples than directions.
   */
  lemma OcclusionInUnitRange(samples: seq<Intersection>, totalDirs: int, rad: real)
    requires rad > 0.0
    requires forall k :: 0 <= k < |samples| ==> samples[k].Dist >= 0.0
    requires 0 < |samples| <= totalDirs
    ensures 0.0 <= OcclusionRatio(samples, totalDirs, rad) <= 1.0
  {
    ClampedDistancesBounds(samples, rad);
    var n, m := |samples| as real, totalDirs as real;
    var c := ClampedDistances(samples, rad);
    var rest := (totalDirs - |samples|) as real * rad;
    RemainderBound(n, m, rad, c, rest);
    RatioInUnitRange(c + rest, rad * totalDirs as real);
  }

  lemma RemainderBound(n: real, m: real, rad: real, c: real, rest: real)
    requires rad > 0.0 && 0.0 < n <= m
    requires 0.0 <= c <= n * rad && rest == (m - n) * rad
    ensures 0.0 <= c + rest <= rad * m && rad * m > 0.0
  {
    assert (m - n) * rad >= 0.0;
  }

  lemma RatioInUnitRange(num: real, den: real)
    requires den > 0.0 && 0.0 <= num <= den
    ensures 0.0 <= Ratio(num, den) <= 1.0
  {
    var r := num / den;
    assert r * den == num;
  }

  /** The colours of the samples that ambientColor counts: those of length DIFF or more. */
  function CountedColors(samples: seq<Intersection>, w: World): seq<Vector>
    requires Ready(w)
    requires forall k :: 0 <= k < |samples| ==> Resolved(samples[k]) && (w.cfg.RenderColors ==> samples[k].Triangle.Some?)
  {
    if |samples| == 0 then []
    else
      var c := GetColor(samples[|samples| - 1], w.cfg, w.images);
      CountedColors(samples[..|samples| - 1], w) + (if Length(w.h, c) < DIFF then [] else [c])
  }

  /** The mean of a list of colours; none gives the zero vector. */
  function MeanColor(cs: seq<Vector>): Vector
  {
    if |cs| == 0 then Zero else ScaleVector(SumVectors(cs), 1.0 / |cs| as real)
  }

  /**
   * ambientColor: zero on a miss or when no sample colour counts; otherwise
   * the mean of the counted sample colours.
   */
  method AmbientColor(i: Intersection, samples: seq<Intersection>, w: World) returns (result: Vector)
    requires Ready(w)
    requires forall k :: 0 <= k < |samples| ==> Resolved(samples[k]) && (w.cfg.RenderColors ==> samples[k].Triangle.Some?)
    ensures !i.Hit ==> result == Zero
    ensures i.Hit ==> result == MeanColor(CountedColors(samples, w))
  {
    if !i.Hit {
      return Zero;
    }
    var totalHits := 0;
    var totalColor := Zero;
    for k := 0 to |samples|
      invariant totalHits == |CountedColors(samples[..k], w)|
      invariant totalColor == SumVectors(CountedColors(samples[..k], w))
    {
      assert samples[..k + 1][..k] == samples[..k];
      var color := GetColor(samples[k], w.cfg, w.images);
      if Length(w.h, color) < DIFF {
        assert CountedColors(samples[..k + 1], w) == CountedColors(samples[..k], w);
        continue;
      }
      totalHits := totalHits + 1;
      ghost var before := CountedColors(samples[..k], w);
      assert CountedColors(samples[..k + 1], w) == before + [color];
      assert (before + [color])[..|before|] == before;
      assert SumVectors(before + [color]) == AddVector(color, SumVectors(before));
      assert AddVector(totalColor, color) == AddVector(color, totalColor);
      totalColor := AddVector(totalColor, color);
    }
    assert samples[..|samples|] == samples;
    if totalHits == 0 {
      return Zero;
    }
    return ScaleVector(totalColor, 1.0 / totalHits as real);
  }

  /** The mean of n copies of one colour is that colour. */
  lemma {:induction false} MeanOfUniformColors(cs: seq<Vector>, c: Vector)
    requires |cs| > 0
    requires forall k :: 0 <= k < |cs| ==> cs[k] == c
    ensures MeanColor(cs) == c
  {
    UniformSum(cs, c);
    var n := |cs| as real;
    assert n * (1.0 / n) == 1.0;
    assert c.x * n * (1.0 / n) == c.x;
    assert c.y * n * (1.0 / n) == c.y;
    assert c.z * n * (1.0 / n) == c.z;
    assert c.w * n * (1.0 / n) == c.w;
  }

  lemma {:induction false} UniformSum(cs: seq<Vector>, c: Vector)
    requires forall k :: 0 <= k < |cs| ==> cs[k] == c
    ensures SumVectors(cs) == Vector(c.x * |cs| as real, c.y * |cs| as real, c.z * |cs| as real, c.w * |cs| as real)
  {
    if |cs| > 0 {
      var init := cs[..|cs| - 1];
      assert forall k :: 0 <= k < |init| ==> init[k] == c;
      UniformSum(init, c);
    }
  }

  /** The hits of the sample casts that ambientSampling keeps: those on another triangle. */
  function OtherHits(casts: seq<Intersection>, source: Triangle): seq<Intersection>
  {
    if |casts| == 0 then []
    else
      var hit := casts[|casts| - 1];
      OtherHits(casts[..|casts| - 1], source) +
      (if hit.Hit && hit.Triangle.Some? && hit.Triangle.value.id != source.id then [hit] else [])
  }

  /** Every kept sample is a hit on another triangle, and there is at most one per cast. */
  lemma {:induction false} OtherHitsFiltered(casts: seq<Intersection>, source: Triangle)
    ensures |OtherHits(casts, source)| <= |casts|
    ensures forall k :: 0 <= k < |OtherHits(casts, source)| ==>
              var s := OtherHits(casts, source)[k];
              s.Hit && s.Triangle.Some? && s.Triangle.value.id != source.id && s in casts
  {
    if |casts| > 0 {
      var init := casts[..|casts| - 1];
      OtherHitsFiltered(init, source);
      assert forall x :: x in init ==> x in casts;
    }
  }

  /** The directions cast by ambientSampling: the normal and SamplerLimit hemisphere samples. */
  function SampleDirections(i: Intersection, w: World): seq<Vector>
  {
    w.h.spread(i.IntersectionNormal, w.cfg.SamplerLimit, 0.0)
  }

  /**
   * ambientSampling: casts along every sample direction from the hit point
   * and keeps the hits whose triangle differs from the source triangle.
   */
  method AmbientSampling(i: Intersection, w: World) returns (samples: seq<Intersection>)
    requires Ready(w)
    requires i.Hit && i.Triangle.Some?
    ensures var dirs := SampleDirections(i, w);
            samples == OtherHits(seq(|dirs|, k requires 0 <= k < |dirs| => w.cast(i.Intersection, dirs[k])), i.Triangle.value)
    ensures |samples| <= |SampleDirections(i, w)|
    ensures forall k :: 0 <= k < |samples| ==>
              samples[k].Hit && samples[k].Triangle.Some? && samples[k].Triangle.value.id != i.Triangle.value.id
  {
    var sampleDirs := SampleDirections(i, w);
    ghost var casts := seq(|sampleDirs|, k requires 0 <= k < |sampleDirs| => w.cast(i.Intersection, sampleDirs[k]));
    samples := [];
    for k := 0 to |sampleDirs|
      invariant samples == OtherHits(casts[..k], i.Triangle.value)
    {
      assert casts[..k + 1][..k] == casts[..k];
      var hit := w.cast(i.Intersection, sampleDirs[k]);
      if hit.Hit && hit.Triangle.value.id != i.Triangle.value.id {
        samples := samples + [hit];
      }
    }
    assert casts[..|sampleDirs|] == casts;
    OtherHitsFiltered(casts, i.Triangle.value);
  }
}
