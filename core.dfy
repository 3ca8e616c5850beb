/**
 * The top-level render (Render in raytracer/core.go): the output size is
 * parsed from a "WxH" argument, the region to render is chosen, the list of
 * pixel indices of the region is shuffled and possibly cut to a
 * percentage, each listed pixel is rendered, and the image is assembled.
 */
module Core {
  import opened Wrappers
  import opened Vectors
  import opened Context
  import opened Antialias
  import opened Pixels
  import opened Imaging

  // ---------------------------------------------------------------------
  // Size parsing

  const MinInt64: int := -0x8000_0000_0000_0000
  const MaxInt64: int := 0x7fff_ffff_ffff_ffff

  predicate IsDigit(c: char)
  {
    '0' <= c <= '9'
  }

  /** A non-empty string of decimal digits. */
  predicate IsDigits(s: string)
  {
    |s| > 0 && forall k :: 0 <= k < |s| ==> IsDigit(s[k])
  }

  function DigitOf(c: char): nat
    requires IsDigit(c)
  {
    c as int - '0' as int
  }

  /** The value of a string of decimal digits, most significant first. */
  function DigitsValue(s: string): (n: nat)
    requires forall k :: 0 <= k < |s| ==> IsDigit(s[k])
  {
    if |s| == 0 then 0
    else DigitsValue(s[..|s| - 1]) * 10 + DigitOf(s[|s| - 1])
  }

  /**
   * strconv.Atoi: an optional sign and then one or more decimal digits,
   * whose value must fit in 64 bits; anything else is a syntax error.
   * The message puts the input between plain double quotes; Go's
   * strconv.Quote would also escape quotes, backslashes and
   * non-printable characters in it.
   */
  function Atoi(s: string): (r: Result<int>)
    ensures r.Success? ==> MinInt64 <= r.value <= MaxInt64
    ensures r.Success? ==> |s| > 0 && IsDigits(if s[0] == '+' || s[0] == '-' then s[1..] else s)
  {
    var signed := |s| > 0 && (s[0] == '+' || s[0] == '-');
    var body := if signed then s[1..] else s;
    if !IsDigits(body) then Failure("strconv.Atoi: parsing \"" + s + "\": invalid syntax")
    else
      var n: int := if signed && s[0] == '-' then -(DigitsValue(body) as int) else DigitsValue(body);
      if n < MinInt64 || n > MaxInt64 then Failure("strconv.Atoi: parsing \"" + s + "\": value out of range")
      else Success(n)
  }

  /** The decimal digits of a natural number, without leading zeros. */
  function Decimal(n: nat): (s: string)
    ensures IsDigits(s)
  {
    if n < 10 then ['0' + n as char] else Decimal(n / 10) + ['0' + (n % 10) as char]
  }

  /** The decimal form of an integer, with a minus sign when negative. */
  function ShowInt(n: int): (s: string)
    ensures 'x' !in s
  {
    DecimalHasNoX(if n < 0 then -n else n);
    if n < 0 then "-" + Decimal(-n) else Decimal(n)
  }

  lemma DecimalHasNoX(n: nat)
    ensures 'x' !in Decimal(n)
  {
    var s := Decimal(n);
    assert forall k :: 0 <= k < |s| ==> s[k] != 'x';
  }

  /** Reading back the digits of a number gives the number. */
  lemma {:induction false} DecimalValue(n: nat)
    ensures DigitsValue(Decimal(n)) == n
  {
    if n >= 10 {
      DecimalValue(n / 10);
      var s := Decimal(n);
      assert s[..|s| - 1] == Decimal(n / 10);
    }
  }

  /** Atoi reads back every 64-bit integer from its decimal form. */
  lemma AtoiShowInt(n: int)
    requires MinInt64 <= n <= MaxInt64
    ensures Atoi(ShowInt(n)) == Success(n)
  {
    if n < 0 {
      DecimalValue(-n);
      assert ShowInt(n)[1..] == Decimal(-n);
    } else {
      DecimalValue(n);
    }
  }

  /** strings.Split(s, "x"): the pieces between the x's, one more than there are x's. */
  function SplitX(s: string): (r: seq<string>)
    ensures |r| >= 1
    ensures 'x' in s ==> |r| >= 2
    ensures 'x' !in s ==> r == [s]
  {
    if |s| == 0 then [""]
    else
      var rest := SplitX(s[1..]);
      assert s == [s[0]] + s[1..];
      assert 'x' in s && s[0] != 'x' ==> 'x' in s[1..];
      if s[0] == 'x' then [""] + rest else [[s[0]] + rest[0]] + rest[1..]
  }

  /** Splitting at an x splits off the piece before it. */
  lemma {:induction false} SplitXJoin(a: string, b: string)
    requires 'x' !in a
    ensures SplitX(a + "x" + b) == [a] + SplitX(b)
  {
    if |a| > 0 {
      var s := a + "x" + b;
      assert s[0] == a[0] && a[0] != 'x';
      assert s[1..] == a[1..] + "x" + b;
      SplitXJoin(a[1..], b);
      var rest := SplitX(s[1..]);
      assert rest == [a[1..]] + SplitX(b);
      assert SplitX(s) == [[s[0]] + rest[0]] + rest[1..];
      assert [a[0]] + a[1..] == a;
    } else {
      assert a + "x" + b == "x" + b;
      assert ("x" + b)[1..] == b;
    }
  }

  /**
   * The size the render uses: a size argument containing an x gives the
   * integers before the first x and between the first and a second x
   * (else after the first), the first parse error is returned; otherwise
   * the configured size is kept.
   */
  function ParseSize(size: Option<string>, width: int, height: int): (r: Result<(int, int)>)
    ensures (size.None? || 'x' !in size.value) ==> r == Success((width, height))
    ensures size.Some? && 'x' in size.value && Atoi(SplitX(size.value)[0]).Failure? ==>
              r == Failure(Atoi(SplitX(size.value)[0]).error)
    ensures size.Some? && 'x' in size.value && Atoi(SplitX(size.value)[0]).Success? && Atoi(SplitX(size.value)[1]).Failure? ==>
              r == Failure(Atoi(SplitX(size.value)[1]).error)
    ensures size.Some? && 'x' in size.value && Atoi(SplitX(size.value)[0]).Success? && Atoi(SplitX(size.value)[1]).Success? ==>
              r == Success((Atoi(SplitX(size.value)[0]).value, Atoi(SplitX(size.value)[1]).value))
  {
    if size.Some? && 'x' in size.value then
      var split := SplitX(size.value);
      match Atoi(split[0])
      case Failure(e) => Failure(e)
      case Success(w) =>
        match Atoi(split[1])
        case Failure(e) => Failure(e)
        case Success(h) => Success((w, h))
    else Success((width, height))
  }

  /** A size written as WxH is parsed back to (W, H). */
  lemma ParseShownSize(w: int, h: int, width: int, height: int)
    requires MinInt64 <= w <= MaxInt64 && MinInt64 <= h <= MaxInt64
    ensures ParseSize(Some(ShowInt(w) + "x" + ShowInt(h)), width, height) == Success((w, h))
  {
    var s := ShowInt(w) + "x" + ShowInt(h);
    assert s[|ShowInt(w)|] == 'x';
    SplitXJoin(ShowInt(w), ShowInt(h));
    AtoiShowInt(w);
    AtoiShowInt(h);
  }

  // ---------------------------------------------------------------------
  // Region, percentage and pixel indices

  /** The extents rendered: the region right - left by bottom - top when right + left > 0, else the whole image. */
  function Region(width: int, height: int, left: int, right: int, top: int, bottom: int): (r: (int, int))
    ensures right + left <= 0 ==> r == (width, height)
    ensures right + left > 0 ==> r.0 + left == right && r.1 + top == bottom
  {
    if right + left > 0 then (right - left, bottom - top) else (width, height)
  }

  /** Go's integer division by a positive divisor, truncating toward zero. */
  function TruncDiv(a: int, b: int): (q: int)
    requires b > 0
    ensures a >= 0 ==> 0 <= q * b <= a < (q + 1) * b
    ensures a < 0 ==> (q - 1) * b < a <= q * b <= 0
  {
    if a >= 0 then DivBounds(a, b); a / b
    else DivBounds(-a, b); NegatedBounds((-a) / b, b); -((-a) / b)
  }

  /** Euclidean division of a natural number brackets it between multiples of the divisor. */
  lemma DivBounds(n: nat, b: int)
    requires b > 0
    ensures 0 <= (n / b) * b <= n < (n / b + 1) * b
  {
    var q, r := n / b, n % b;
    assert n == q * b + r && 0 <= r < b;
    assert (q + 1) * b == q * b + b;
  }

  /** Negating the quotient negates the multiples. */
  lemma NegatedBounds(q: int, b: int)
    ensures (-q) * b == -(q * b) && (-q - 1) * b == -((q + 1) * b)
  {
  }

  /** The number of listed pixels after the cut to a percentage. */
  function ListedCount(percent: int, total: int): int
  {
    if percent < 100 then TruncDiv(percent * total, 100) else total
  }

  /** A percentage in [0, 100) keeps at most that share of the pixels, and fewer than all of them when there are any. */
  lemma PercentageCut(percent: int, total: int)
    requires 0 <= percent < 100 && total >= 0
    ensures 0 <= ListedCount(percent, total) <= total
    ensures ListedCount(percent, total) * 100 <= percent * total
    ensures total > 0 ==> ListedCount(percent, total) < total
  {
    var p := percent * total;
    assert ListedCount(percent, total) == p / 100 by {
      ProductNonNegative(percent, total);
    }
    ProductNonNegative(percent, total);
    ProductNonNegative(99 - percent, total);
    assert p <= 99 * total;
  }

  lemma ProductNonNegative(a: int, b: int)
    requires a >= 0 && b >= 0
    ensures a * b >= 0
    ensures (99 - a) * b == 99 * b - a * b
  {
  }

  /** The pixel a listed index stands for: its column and row within the region, offset by left and top. */
  function PixelOf(p: int, aw: int, left: int, top: int): (int, int)
    requires aw > 0
  {
    (p % aw + left, p / aw + top)
  }

  /** A pixel's index in the region's row-major order: the inverse of PixelOf. */
  function IndexOf(xy: (int, int), aw: int, left: int, top: int): int
  {
    (xy.1 - top) * aw + (xy.0 - left)
  }

  /** Every index of the region maps into it, and back. */
  lemma PixelOfInRegion(p: int, aw: int, ah: int, left: int, top: int)
    requires aw > 0 && 0 <= p < aw * ah
    ensures left <= PixelOf(p, aw, left, top).0 < left + aw
    ensures top <= PixelOf(p, aw, left, top).1 < top + ah
    ensures IndexOf(PixelOf(p, aw, left, top), aw, left, top) == p
  {
    var q := p / aw;
    assert p == q * aw + p % aw;
    if q >= ah {
      assert q * aw >= ah * aw;
    }
  }

  /** Distinct indices of the region are distinct pixels. */
  lemma PixelOfInjective(p: int, q: int, aw: int, ah: int, left: int, top: int)
    requires aw > 0 && 0 <= p < aw * ah && 0 <= q < aw * ah && p != q
    ensures PixelOf(p, aw, left, top) != PixelOf(q, aw, left, top)
  {
    PixelOfInRegion(p, aw, ah, left, top);
    PixelOfInRegion(q, aw, ah, left, top);
  }

  // ---------------------------------------------------------------------
  // Pixel list

  /** No value occurs twice. */
  predicate Distinct(s: seq<int>)
  {
    forall a, b :: 0 <= a < b < |s| ==> s[a] != s[b]
  }

  /** The first loop of the pixel list: index i holds i. */
  method FillIdentity(total: nat) returns (pixellist: array<int>)
    ensures fresh(pixellist) && pixellist.Length == total
    ensures forall k :: 0 <= k < total ==> pixellist[k] == k
  {
    pixellist := new int[total];
    for i := 0 to total
      invariant forall k :: 0 <= k < i ==> pixellist[k] == k
    {
      pixellist[i] := i;
    }
  }

  /** The list with positions i and j exchanged. */
  function Swap(s: seq<int>, i: int, j: int): (r: seq<int>)
    requires 0 <= i < |s| && 0 <= j < |s|
    ensures |r| == |s|
  {
    s[i := s[j]][j := s[i]]
  }

  /** An exchange keeps the values and their multiplicities, hence distinctness. */
  lemma SwapPermutes(s: seq<int>, i: int, j: int)
    requires 0 <= i < |s| && 0 <= j < |s|
    ensures multiset(Swap(s, i, j)) == multiset(s)
    ensures Distinct(s) ==> Distinct(Swap(s, i, j))
  {
    var r := Swap(s, i, j);
    if Distinct(s) {
      forall a, b | 0 <= a < b < |r|
        ensures r[a] != r[b]
      {
        var a' := if a == i then j else if a == j then i else a;
        var b' := if b == i then j else if b == j then i else b;
        assert r[a] == s[a'] && r[b] == s[b'] && a' != b';
      }
    }
  }

  /**
   * rand.Shuffle: from the last position down to the second, position i is
   * swapped with position pick(i), a random choice in [0, i], here a given
   * function. The result is a permutation of the list.
   */
  method Shuffle(a: array<int>, pick: int -> int)
    modifies a
    requires forall i :: 0 < i < a.Length ==> 0 <= pick(i) <= i
    ensures multiset(a[..]) == multiset(old(a[..]))
    ensures Distinct(old(a[..])) ==> Distinct(a[..])
  {
    var i := a.Length - 1;
    while i > 0
      invariant -1 <= i < a.Length
      invariant multiset(a[..]) == multiset(old(a[..]))
      invariant Distinct(old(a[..])) ==> Distinct(a[..])
      decreases i
    {
      var j := pick(i);
      ghost var before := a[..];
      a[i], a[j] := a[j], a[i];
      assert a[..] == Swap(before, i, j);
      SwapPermutes(before, i, j);
      i := i - 1;
    }
  }

  /**
   * The pixel list: the indices 0 .. total - 1, shuffled, then cut to the
   * percentage when it is below 100. The result holds distinct indices of
   * the region, as many as the cut leaves.
   */
  method PixelList(total: nat, percent: int, pick: int -> int) returns (list: seq<int>)
    requires forall k :: 0 < k < total ==> 0 <= pick(k) <= k
    requires 0 <= ListedCount(percent, total)
    ensures |list| == ListedCount(percent, total)
    ensures Distinct(list) && forall k :: 0 <= k < |list| ==> 0 <= list[k] < total
  {
    var pixellist := FillIdentity(total);
    assert Distinct(pixellist[..]);
    ghost var identity := pixellist[..];
    assert forall k :: 0 <= k < total ==> identity[k] == k;
    Shuffle(pixellist, pick);
    list := pixellist[..];
    forall k | 0 <= k < |list|
      ensures 0 <= list[k] < total
    {
      assert list[k] in multiset(identity);
      var m :| 0 <= m < |identity| && identity[m] == list[k];
    }
    if percent < 100 {
      var to := TruncDiv(percent * total, 100);
      if percent >= 0 {
        PercentageCut(percent, total);
      } else {
        assert percent * total <= 0;
      }
      list := list[..to];
    }
  }

  /**
   * The rendering loop: each listed index is mapped to its pixel, which is
   * rendered; the pixels rendered are pairwise distinct and each is left as
   * renderPixel leaves it, while every other pixel is unchanged.
   */
  method RenderPixels(w: World, pixels: array2<PixelStorage>, list: seq<int>, aw: int, ah: int, left: int, top: int)
    returns (ghost rendered: seq<(int, int)>)
    modifies pixels
    requires Ready(w) && aw > 0
    requires 0 <= left && left + aw <= pixels.Length0 && 0 <= top && top + ah <= pixels.Length1
    requires Distinct(list) && forall k :: 0 <= k < |list| ==> 0 <= list[k] < aw * ah
    requires forall i, j :: 0 <= i < pixels.Length0 && 0 <= j < pixels.Length1 ==> Resolved(pixels[i, j].WorldLocation)
    ensures |rendered| == |list|
    ensures forall k :: 0 <= k < |list| ==> rendered[k] == PixelOf(list[k], aw, left, top)
    ensures forall a, b :: 0 <= a < b < |rendered| ==> rendered[a] != rendered[b]
    ensures forall i, j :: 0 <= i < pixels.Length0 && 0 <= j < pixels.Length1 ==>
              pixels[i, j] == if (i, j) in rendered then RenderedPixel(w, old(pixels[i, j].WorldLocation), i, j) else old(pixels[i, j])
  {
    rendered := [];
    for i := 0 to |list|
      invariant |rendered| == i
      invariant forall k :: 0 <= k < i ==> rendered[k] == PixelOf(list[k], aw, left, top)
      invariant forall a, b :: 0 <= a < b < i ==> rendered[a] != rendered[b]
      invariant forall a, b :: 0 <= a < pixels.Length0 && 0 <= b < pixels.Length1 ==> Resolved(pixels[a, b].WorldLocation)
      invariant forall a, b :: 0 <= a < pixels.Length0 && 0 <= b < pixels.Length1 ==>
                  pixels[a, b] == if (a, b) in rendered then RenderedPixel(w, old(pixels[a, b].WorldLocation), a, b) else old(pixels[a, b])
    {
      PixelOfInRegion(list[i], aw, ah, left, top);
      var y := list[i] / aw + top;
      var x := list[i] % aw + left;
      forall k | 0 <= k < i
        ensures rendered[k] != (x, y)
      {
        PixelOfInjective(list[k], list[i], aw, ah, left, top);
      }
      RenderPixel(w, pixels, x, y);
      rendered := rendered + [(x, y)];
    }
  }

  /**
   * Render, from the parsed size on: the grid `pixels` is the one the
   * scene was prepared with at the parsed size. A size that does not parse
   * returns its error and renders nothing. Otherwise the listed pixels are
   * a permutation of the region's indices, cut to the percentage; the
   * pixels rendered are the distinct pixels of the region those indices
   * stand for; and the image is assembled from the grid.
   */
  method Render(w: World, pixels: array2<PixelStorage>, image: array2<Rgba>,
                left: int, right: int, top: int, bottom: int, percent: int, size: Option<string>,
                camera: Camera, pick: int -> int, perms: (int, int) -> seq<int>)
    returns (err: Option<string>, ghost listed: seq<int>, ghost rendered: seq<(int, int)>, ghost maxDepth: real)
    modifies pixels, image
    requires Ready(w) && w.cfg.AntialiasSamples >= 0
    requires forall i, j :: IsPermutation64(perms(i, j))
    requires ParseSize(size, w.cfg.Width, w.cfg.Height).Success? ==>
               (pixels.Length0, pixels.Length1) == ParseSize(size, w.cfg.Width, w.cfg.Height).value &&
               image.Length0 == pixels.Length0 && image.Length1 == pixels.Length1 &&
               pixels.Length0 > 0 && pixels.Length1 > 0
    requires var r := Region(pixels.Length0, pixels.Length1, left, right, top, bottom);
             r.0 * r.1 >= 0 && 0 <= ListedCount(percent, r.0 * r.1) &&
             (r.0 * r.1 > 0 ==> r.0 > 0 && 0 <= left && left + r.0 <= pixels.Length0 && 0 <= top && top + r.1 <= pixels.Length1)
    requires var r := Region(pixels.Length0, pixels.Length1, left, right, top, bottom);
             forall k :: 0 < k < r.0 * r.1 ==> 0 <= pick(k) <= k
    requires forall i, j :: 0 <= i < pixels.Length0 && 0 <= j < pixels.Length1 ==> Resolved(pixels[i, j].WorldLocation)
    ensures ParseSize(size, w.cfg.Width, w.cfg.Height).Failure? ==>
              err == Some(ParseSize(size, w.cfg.Width, w.cfg.Height).error) && rendered == []
    ensures ParseSize(size, w.cfg.Width, w.cfg.Height).Success? ==>
              var r := Region(pixels.Length0, pixels.Length1, left, right, top, bottom);
              err == None && Distinct(listed) && |listed| == ListedCount(percent, r.0 * r.1) &&
              (forall k :: 0 <= k < |listed| ==> 0 <= listed[k] < r.0 * r.1) &&
              |rendered| == |listed| &&
              (forall k :: 0 <= k < |listed| ==> rendered[k] == PixelOf(listed[k], r.0, left, top)) &&
              (forall a, b :: 0 <= a < b < |rendered| ==> rendered[a] != rendered[b])
    ensures ParseSize(size, w.cfg.Width, w.cfg.Height).Failure? ==>
              (forall i, j :: 0 <= i < pixels.Length0 && 0 <= j < pixels.Length1 ==> pixels[i, j] == old(pixels[i, j])) &&
              (forall i, j :: 0 <= i < image.Length0 && 0 <= j < image.Length1 ==> image[i, j] == old(image[i, j]))
    ensures ParseSize(size, w.cfg.Width, w.cfg.Height).Success? ==>
              Painted(w, pixels, image, camera, perms, rendered, maxDepth)
  {
    listed, rendered, maxDepth := [], [], 0.0;
    var parsed := ParseSize(size, w.cfg.Width, w.cfg.Height);
    if parsed.Failure? {
      return Some(parsed.error), listed, rendered, maxDepth;
    }
    listed, rendered, maxDepth := RenderRegion(w, pixels, image, left, right, top, bottom, percent, camera, pick, perms);
    err := None;
  }

  /**
   * Render once the size has parsed to the grid's size: the region's
   * indices are listed, shuffled and cut to the percentage, the listed
   * pixels rendered and the image assembled from the grid.
   */
  method RenderRegion(w: World, pixels: array2<PixelStorage>, image: array2<Rgba>,
                      left: int, right: int, top: int, bottom: int, percent: int,
                      camera: Camera, pick: int -> int, perms: (int, int) -> seq<int>)
    returns (ghost listed: seq<int>, ghost rendered: seq<(int, int)>, ghost maxDepth: real)
    modifies pixels, image
    requires Ready(w) && w.cfg.AntialiasSamples >= 0
    requires forall i, j :: IsPermutation64(perms(i, j))
    requires image.Length0 == pixels.Length0 && image.Length1 == pixels.Length1 && pixels.Length0 > 0 && pixels.Length1 > 0
    requires var r := Region(pixels.Length0, pixels.Length1, left, right, top, bottom);
             r.0 * r.1 >= 0 && 0 <= ListedCount(percent, r.0 * r.1) &&
             (r.0 * r.1 > 0 ==> r.0 > 0 && 0 <= left && left + r.0 <= pixels.Length0 && 0 <= top && top + r.1 <= pixels.Length1)
    requires var r := Region(pixels.Length0, pixels.Length1, left, right, top, bottom);
             forall k :: 0 < k < r.0 * r.1 ==> 0 <= pick(k) <= k
    requires forall i, j :: 0 <= i < pixels.Length0 && 0 <= j < pixels.Length1 ==> Resolved(pixels[i, j].WorldLocation)
    ensures var r := Region(pixels.Length0, pixels.Length1, left, right, top, bottom);
            Distinct(listed) && |listed| == ListedCount(percent, r.0 * r.1) &&
            (forall k :: 0 <= k < |listed| ==> 0 <= listed[k] < r.0 * r.1) &&
            |rendered| == |listed| &&
            (forall k :: 0 <= k < |listed| ==> rendered[k] == PixelOf(listed[k], r.0, left, top)) &&
            (forall a, b :: 0 <= a < b < |rendered| ==> rendered[a] != rendered[b])
    ensures Painted(w, pixels, image, camera, perms, rendered, maxDepth)
  {
    var actualWidth, actualHeight := pixels.Length0, pixels.Length1;
    if right + left > 0 {
      actualWidth := right - left;
      actualHeight := bottom - top;
    }
    var totalPixels := actualWidth * actualHeight;
    var list := PixelList(totalPixels, percent, pick);
    listed := list;
    rendered, maxDepth := RenderAndPaint(w, pixels, image, list, actualWidth, actualHeight, left, top, camera, perms);
  }

  /**
   * The rendering loop followed by renderImage: the listed pixels are
   * rendered, then the depths normalised and the image painted.
   */
  method RenderAndPaint(w: World, pixels: array2<PixelStorage>, image: array2<Rgba>, list: seq<int>, aw: int, ah: int,
                        left: int, top: int, camera: Camera, perms: (int, int) -> seq<int>)
    returns (ghost rendered: seq<(int, int)>, ghost maxDepth: real)
    modifies pixels, image
    requires Ready(w) && w.cfg.AntialiasSamples >= 0 && forall i, j :: IsPermutation64(perms(i, j))
    requires image.Length0 == pixels.Length0 && image.Length1 == pixels.Length1 && pixels.Length0 > 0 && pixels.Length1 > 0
    requires |list| > 0 ==> aw > 0 && 0 <= left && left + aw <= pixels.Length0 && 0 <= top && top + ah <= pixels.Length1
    requires Distinct(list) && forall k :: 0 <= k < |list| ==> 0 <= list[k] < aw * ah
    requires forall i, j :: 0 <= i < pixels.Length0 && 0 <= j < pixels.Length1 ==> Resolved(pixels[i, j].WorldLocation)
    ensures |rendered| == |list|
    ensures forall k :: 0 <= k < |list| ==> rendered[k] == PixelOf(list[k], aw, left, top)
    ensures forall a, b :: 0 <= a < b < |rendered| ==> rendered[a] != rendered[b]
    ensures Painted(w, pixels, image, camera, perms, rendered, maxDepth)
  {
    rendered := [];
    if |list| > 0 {
      rendered := RenderPixels(w, pixels, list, aw, ah, left, top);
    }
    maxDepth := RenderImage(w, pixels, image, camera, perms);
  }

  /** The pixel (i, j) after the rendering loop: renderPixel's record when listed, as before otherwise. */
  function AfterRender(w: World, p: PixelStorage, i: int, j: int, rendered: seq<(int, int)>): PixelStorage
    requires Ready(w) && Resolved(p.WorldLocation)
  {
    if (i, j) in rendered then RenderedPixel(w, p.WorldLocation, i, j) else p
  }

  /**
   * The grid and image after Render: every pixel is its state after the
   * rendering loop with the depth divided by `maxDepth`, the largest such
   * depth; every image pixel is painted from the final grid.
   */
  twostate predicate Painted(w: World, pixels: array2<PixelStorage>, image: array2<Rgba>, camera: Camera,
                             perms: (int, int) -> seq<int>, new rendered: seq<(int, int)>, maxDepth: real)
    reads pixels, image
    requires Ready(w) && w.cfg.AntialiasSamples >= 0 && forall i, j :: IsPermutation64(perms(i, j))
  {
    (forall i, j :: 0 <= i < pixels.Length0 && 0 <= j < pixels.Length1 ==> Resolved(old(pixels[i, j].WorldLocation))) &&
    (forall i, j :: 0 <= i < pixels.Length0 && 0 <= j < pixels.Length1 ==>
       var p := AfterRender(w, old(pixels[i, j]), i, j, rendered);
       p.Depth <= maxDepth && pixels[i, j] == p.(Depth := NormalizedDepth(p.Depth, maxDepth))) &&
    (exists i, j :: 0 <= i < pixels.Length0 && 0 <= j < pixels.Length1 &&
       AfterRender(w, old(pixels[i, j]), i, j, rendered).Depth == maxDepth) &&
    (forall i, j :: 0 <= i < image.Length0 && 0 <= j < image.Length1 && i < pixels.Length0 && j < pixels.Length1 ==>
       image[i, j] == PaintedColor(w, pixels, camera, perms(i, j), i, j))
  }
}
