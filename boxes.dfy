// Axis-aligned bounding boxes of the kd-tree (raytracer/kdtree.go).
module Boxes {
  import opened Vectors

  function Min(a: real, b: real): (r: real)
    ensures r <= a && r <= b && (r == a || r == b)
  {
    if b < a then b else a
  }

  function Max(a: real, b: real): (r: real)
    ensures r >= a && r >= b && (r == a || r == b)
  {
    if b > a then b else a
  }

  /**
   * The extent of a box along axis `i`; the box is given by its corners.
   */
  function Extent(mn: Vector, mx: Vector, i: nat): real
    requires i < 4
  {
    mx.At(i) - mn.At(i)
  }

  /**
   * The axis longestAxis settles on. Its loop compares every later axis
   * with the extent of axis 0 only, because the running `dist` is never
   * updated, so the last axis that beats axis 0 wins.
   */
  function ChosenAxis(mn: Vector, mx: Vector): (r: nat)
    ensures r < 3
    ensures r != 0 ==> Extent(mn, mx, r) > Extent(mn, mx, 0)
    ensures r == 2 <==> Extent(mn, mx, 2) > Extent(mn, mx, 0)
    ensures r == 1 <==> Extent(mn, mx, 1) > Extent(mn, mx, 0) && Extent(mn, mx, 2) <= Extent(mn, mx, 0)
  {
    if Extent(mn, mx, 2) > Extent(mn, mx, 0) then 2
    else if Extent(mn, mx, 1) > Extent(mn, mx, 0) then 1
    else 0
  }

  /**
   * The chosen axis is a longest one except in exactly the case where
   * axis 1 beats axis 2 and axis 2 beats axis 0 (extents 1, 3 and 2, say,
   * are split along axis 2 although axis 1 is longer).
   */
  lemma ChosenAxisLongestIff(mn: Vector, mx: Vector)
    ensures (forall i :: 0 <= i < 3 ==> Extent(mn, mx, ChosenAxis(mn, mx)) >= Extent(mn, mx, i))
            <==> !(Extent(mn, mx, 1) > Extent(mn, mx, 2) > Extent(mn, mx, 0))
  {
    if Extent(mn, mx, 1) > Extent(mn, mx, 2) > Extent(mn, mx, 0) {
      assert Extent(mn, mx, ChosenAxis(mn, mx)) < Extent(mn, mx, 1);
    }
  }

  /** `v` lies in the closed box on the three spatial axes. */
  predicate Covers(mn: Vector, mx: Vector, v: Vector)
  {
    forall i :: 0 <= i < 3 ==> mn.At(i) <= v.At(i) <= mx.At(i)
  }

  class BoundingBox {
    var MinExtend: Vector
    var MaxExtend: Vector

    constructor (mn: Vector, mx: Vector)
      ensures MinExtend == mn && MaxExtend == mx
    {
      MinExtend := mn;
      MaxExtend := mx;
    }

    /** extend: widens this box to take in `o`, axis by axis; w is not touched. */
    method Extend(o: BoundingBox)
      modifies this
      ensures forall i :: 0 <= i < 3 ==> MinExtend.At(i) == Min(old(MinExtend.At(i)), old(o.MinExtend.At(i)))
      ensures forall i :: 0 <= i < 3 ==> MaxExtend.At(i) == Max(old(MaxExtend.At(i)), old(o.MaxExtend.At(i)))
      ensures MinExtend.w == old(MinExtend.w) && MaxExtend.w == old(MaxExtend.w)
    {
      for i := 0 to 3
        invariant forall k :: 0 <= k < i ==> MinExtend.At(k) == Min(old(MinExtend.At(k)), old(o.MinExtend.At(k)))
        invariant forall k :: 0 <= k < i ==> MaxExtend.At(k) == Max(old(MaxExtend.At(k)), old(o.MaxExtend.At(k)))
        invariant forall k :: i <= k < 4 ==> MinExtend.At(k) == old(MinExtend.At(k)) && MaxExtend.At(k) == old(MaxExtend.At(k))
        invariant o == this || (o.MinExtend == old(o.MinExtend) && o.MaxExtend == old(o.MaxExtend))
      {
        if o.MinExtend.At(i) < MinExtend.At(i) {
          MinExtend := MinExtend.Set(i, o.MinExtend.At(i));
        }
        if o.MaxExtend.At(i) > MaxExtend.At(i) {
          MaxExtend := MaxExtend.Set(i, o.MaxExtend.At(i));
        }
      }
      assert MinExtend.At(3) == old(MinExtend.At(3)) && MaxExtend.At(3) == old(MaxExtend.At(3));
    }

    /** extendVector: widens this box just enough to cover `v`. */
    method ExtendVector(v: Vector)
      modifies this
      ensures forall i :: 0 <= i < 3 ==> MinExtend.At(i) == Min(old(MinExtend.At(i)), v.At(i))
      ensures forall i :: 0 <= i < 3 ==> MaxExtend.At(i) == Max(old(MaxExtend.At(i)), v.At(i))
      ensures MinExtend.w == old(MinExtend.w) && MaxExtend.w == old(MaxExtend.w)
      ensures Covers(MinExtend, MaxExtend, v)
      ensures forall u :: Covers(old(MinExtend), old(MaxExtend), u) ==> Covers(MinExtend, MaxExtend, u)
    {
      for i := 0 to 3
        invariant forall k :: 0 <= k < i ==> MinExtend.At(k) == Min(old(MinExtend.At(k)), v.At(k))
        invariant forall k :: 0 <= k < i ==> MaxExtend.At(k) == Max(old(MaxExtend.At(k)), v.At(k))
        invariant forall k :: i <= k < 4 ==> MinExtend.At(k) == old(MinExtend.At(k)) && MaxExtend.At(k) == old(MaxExtend.At(k))
      {
        if v.At(i) < MinExtend.At(i) {
          MinExtend := MinExtend.Set(i, v.At(i));
        }
        if v.At(i) > MaxExtend.At(i) {
          MaxExtend := MaxExtend.Set(i, v.At(i));
        }
      }
      assert MinExtend.At(3) == old(MinExtend.At(3)) && MaxExtend.At(3) == old(MaxExtend.At(3));
    }

    /** longestAxis, loop as written. */
    method LongestAxis() returns (result: nat)
      ensures result == ChosenAxis(MinExtend, MaxExtend)
    {
      result := 0;
      var fdiff := 0.0;
      var dist := MaxExtend.At(0) - MinExtend.At(0);
      for i := 1 to 3
        invariant result < i
        invariant result != 0 ==> Extent(MinExtend, MaxExtend, result) > dist
        invariant forall k :: result < k < i ==> Extent(MinExtend, MaxExtend, k) <= dist
        invariant result == 0 ==> forall k :: 0 < k < i ==> Extent(MinExtend, MaxExtend, k) <= dist
      {
        fdiff := MaxExtend.At(i) - MinExtend.At(i);
        if fdiff > dist {
          result := i;
        }
      }
    }

    /** center: half the extent on each axis (not the midpoint), w = 1. */
    function Center(): (c: Vector)
      reads this
      ensures c.w == 1.0
      ensures forall i :: 0 <= i < 3 ==> c.At(i) + c.At(i) == Extent(MinExtend, MaxExtend, i)
    {
      Vector((MaxExtend.x - MinExtend.x) / 2.0,
             (MaxExtend.y - MinExtend.y) / 2.0,
             (MaxExtend.z - MinExtend.z) / 2.0,
             1.0)
    }

    /** inside: covered up to the DIFF tolerance on each spatial axis. */
    predicate Inside(v: Vector)
      reads this
    {
      v.x + DIFF >= MinExtend.x && v.x - DIFF <= MaxExtend.x &&
      v.y + DIFF >= MinExtend.y && v.y - DIFF <= MaxExtend.y &&
      v.z + DIFF >= MinExtend.z && v.z - DIFF <= MaxExtend.z
    }
  }

  /** center is the box's midpoint exactly when the minimum corner is at the origin. */
  lemma CenterIsMidpointIff(b: BoundingBox)
    ensures (forall i :: 0 <= i < 3 ==> b.Center().At(i) == (b.MinExtend.At(i) + b.MaxExtend.At(i)) / 2.0)
            <==> b.MinExtend.x == 0.0 && b.MinExtend.y == 0.0 && b.MinExtend.z == 0.0
  {
    var c := b.Center();
    if forall i :: 0 <= i < 3 ==> c.At(i) == (b.MinExtend.At(i) + b.MaxExtend.At(i)) / 2.0 {
      assert c.At(0) == (b.MinExtend.At(0) + b.MaxExtend.At(0)) / 2.0;
      assert c.At(1) == (b.MinExtend.At(1) + b.MaxExtend.At(1)) / 2.0;
      assert c.At(2) == (b.MinExtend.At(2) + b.MaxExtend.At(2)) / 2.0;
    }
  }

  /** Every point within DIFF of a covered point counts as inside. */
  lemma InsideTolerates(b: BoundingBox, p: Vector, v: Vector)
    requires Covers(b.MinExtend, b.MaxExtend, p)
    requires forall i :: 0 <= i < 3 ==> Abs(v.At(i) - p.At(i)) <= DIFF
    ensures b.Inside(v)
  {
    assert Abs(v.At(0) - p.At(0)) <= DIFF && Abs(v.At(1) - p.At(1)) <= DIFF && Abs(v.At(2) - p.At(2)) <= DIFF;
    assert b.MinExtend.At(0) <= p.At(0) <= b.MaxExtend.At(0);
    assert b.MinExtend.At(1) <= p.At(1) <= b.MaxExtend.At(1);
    assert b.MinExtend.At(2) <= p.At(2) <= b.MaxExtend.At(2);
  }

  /** A point more than DIFF outside the box on some axis is not inside. */
  lemma OutsideBeyondTolerance(b: BoundingBox, v: Vector, i: nat)
    requires i < 3
    requires v.At(i) + DIFF < b.MinExtend.At(i) || v.At(i) - DIFF > b.MaxExtend.At(i)
    ensures !b.Inside(v)
  {
  }
}
