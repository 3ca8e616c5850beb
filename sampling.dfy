/**
 * Hemisphere sampling (raytracer/sampling.go): a cache of 10 rows of 1000
 * random unit vectors is built on first use; each call picks a row and
 * returns the normal followed by the row's entries on the normal's side.
 */
module Sampling {
  import opened Vectors
  import opened Settings

  const CacheRowCount := 10
  const CacheRowLength := 1000

  /** A random triple in [0, 1)^3 moved to [-0.5, 0.5)^3, as a direction. */
  function Jitter(raw: Vector): Vector
  {
    Vector(raw.x - 0.5, raw.y - 0.5, raw.z - 0.5, 0.0)
  }

  /** Entry `i` of cache row `r`, from the random triple drawn for it. */
  function CacheEntry(random: (nat, nat) -> Vector, sqrt: real -> real, r: nat, i: nat): Vector
  {
    NormalizeVector(Jitter(random(r, i)), sqrt)
  }

  /** Row `r` of the cache, as far as entry `n`. */
  function CacheRow(random: (nat, nat) -> Vector, sqrt: real -> real, r: nat, n: nat): (row: seq<Vector>)
    ensures |row| == n && forall i :: 0 <= i < n ==> row[i] == CacheEntry(random, sqrt, r, i)
  {
    seq(n, i requires 0 <= i < n => CacheEntry(random, sqrt, r, i))
  }

  /** The entries of a row that lie on the normal's side, in row order. */
  function Passing(row: seq<Vector>, normal: Vector, h: Helpers): seq<Vector>
  {
    if |row| == 0 then []
    else Passing(row[..|row| - 1], normal, h) + (if h.sameSide(row[|row| - 1], normal) then [row[|row| - 1]] else [])
  }

  /** Each passing entry is in the row and on the normal's side; there are no more than the row holds. */
  lemma {:induction false} PassingFiltered(row: seq<Vector>, normal: Vector, h: Helpers)
    ensures |Passing(row, normal, h)| <= |row|
    ensures forall k :: 0 <= k < |Passing(row, normal, h)| ==>
              Passing(row, normal, h)[k] in row && h.sameSide(Passing(row, normal, h)[k], normal)
  {
    if |row| > 0 {
      var init := row[..|row| - 1];
      PassingFiltered(init, normal, h);
      assert forall x :: x in init ==> x in row;
    }
  }

  /** The passing entries of a prefix are a prefix of the passing entries. */
  lemma {:induction false} PassingOfPrefix(row: seq<Vector>, n: nat, normal: Vector, h: Helpers)
    requires n <= |row|
    ensures |Passing(row[..n], normal, h)| <= |Passing(row, normal, h)|
    ensures Passing(row, normal, h)[..|Passing(row[..n], normal, h)|] == Passing(row[..n], normal, h)
    decreases |row|
  {
    if n < |row| {
      var init := row[..|row| - 1];
      assert init[..n] == row[..n];
      PassingOfPrefix(init, n, normal, h);
      var p := Passing(init, normal, h);
      assert Passing(row, normal, h)[..|p|] == p;
    } else {
      assert row[..n] == row;
    }
  }

  /**
   * What createSamples returns from a row: the normal, then the passing
   * entries, stopping once the result holds `limit` vectors.
   */
  function Selected(row: seq<Vector>, normal: Vector, limit: int, h: Helpers): seq<Vector>
  {
    var pass := Passing(row, normal, h);
    [normal] + (if limit >= 2 && |pass| >= limit - 1 then pass[..limit - 1] else pass)
  }

  /** For limit >= 2 there are at most limit vectors; otherwise at most one more than the row. */
  lemma SelectedLength(row: seq<Vector>, normal: Vector, limit: int, h: Helpers)
    ensures limit >= 2 ==> |Selected(row, normal, limit, h)| <= limit
    ensures limit < 2 ==> |Selected(row, normal, limit, h)| == 1 + |Passing(row, normal, h)|
    ensures |Selected(row, normal, limit, h)| <= 1 + |row|
  {
    PassingFiltered(row, normal, h);
  }

  /** The global sample cache; `built` is false while Go's sampleCache is nil. */
  class SampleCache {
    var rows: seq<seq<Vector>>
    var built: bool

    ghost predicate Valid()
      reads this
    {
      built ==> |rows| == CacheRowCount && forall r :: 0 <= r < |rows| ==> |rows[r]| == CacheRowLength
    }

    constructor ()
      ensures Valid() && !built && rows == []
    {
      rows := [];
      built := false;
    }

    /** The cache construction: ten rows of a thousand normalised random directions. */
    method Build(random: (nat, nat) -> Vector, sqrt: real -> real)
      modifies this
      ensures built && Valid()
      ensures forall r, i :: 0 <= r < CacheRowCount && 0 <= i < CacheRowLength ==>
                rows[r][i] == CacheEntry(random, sqrt, r, i)
    {
      var cache: seq<seq<Vector>> := [];
      for index := 0 to CacheRowCount
        invariant |cache| == index
        invariant forall r :: 0 <= r < index ==> cache[r] == CacheRow(random, sqrt, r, CacheRowLength)
      {
        var row: seq<Vector> := [];
        for i := 0 to CacheRowLength
          invariant row == CacheRow(random, sqrt, index, i)
        {
          row := row + [NormalizeVector(Jitter(random(index, i)), sqrt)];
        }
        cache := cache + [row];
      }
      rows := cache;
      built := true;
    }

    /**
     * createSamples: builds the cache if needed, then picks row choice % 10
     * (Go draws choice at random) and returns its selection.
     */
    method CreateSamples(normal: Vector, limit: int, random: (nat, nat) -> Vector, choice: nat, h: Helpers)
      returns (result: seq<Vector>)
      modifies this
      requires Valid()
      ensures Valid() && built
      ensures old(built) ==> rows == old(rows)
      ensures !old(built) ==> forall r, i :: 0 <= r < CacheRowCount && 0 <= i < CacheRowLength ==>
                rows[r][i] == CacheEntry(random, h.sqrt, r, i)
      ensures result == Selected(rows[choice % CacheRowCount], normal, limit, h)
      ensures result[0] == normal
      ensures limit >= 2 ==> |result| <= limit
      ensures |result| <= CacheRowLength + 1
    {
      if !built {
        Build(random, h.sqrt);
      }
      var row := rows[choice % CacheRowCount];
      assert |row| == CacheRowLength;
      result := [normal];
      var i := 0;
      while i < |row|
        invariant 0 <= i <= |row|
        invariant result == [normal] + Passing(row[..i], normal, h)
        invariant limit >= 2 ==> |result| < limit
      {
        assert row[..i + 1][..i] == row[..i];
        if h.sameSide(row[i], normal) {
          result := result + [row[i]];
          if |result| == limit {
            PassingOfPrefix(row, i + 1, normal, h);
            SelectedLength(row, normal, limit, h);
            return;
          }
        }
        i := i + 1;
      }
      assert row[..|row|] == row;
      SelectedLength(row, normal, limit, h);
    }
  }
}
