// The kd-tree over an object's triangles (raytracer/kdtree.go).
module KdTree {
  import opened Wrappers
  import opened Vectors
  import opened Boxes
  import opened Triangles

  /**
   * A tree node. The box is a shared, mutable BoundingBox (null until it
   * is first computed); a nil child is None.
   */
  datatype Node = Node(
    Triangles: seq<Triangle>,
    TriangleCount: int,
    BoundingBox: BoundingBox?,
    Left: Option<Node>,
    Right: Option<Node>,
    depth: int)

  /** `&Node{}`: the empty node used as both children of a leaf. */
  const EmptyNode: Node := Node([], 0, null, None, None, 0)

  /** Component-wise minimum on the spatial axes; w is kept from `a`. */
  function MinCorner(a: Vector, b: Vector): Vector
  {
    Vector(Min(a.x, b.x), Min(a.y, b.y), Min(a.z, b.z), a.w)
  }

  function MaxCorner(a: Vector, b: Vector): Vector
  {
    Vector(Max(a.x, b.x), Max(a.y, b.y), Max(a.z, b.z), a.w)
  }

  /** The corners of the box getBoundingBox builds for a non-empty triangle list. */
  function ListMin(tris: seq<Triangle>): Vector
    requires |tris| > 0
  {
    if |tris| == 1 then TriangleMin(tris[0])
    else MinCorner(ListMin(tris[..|tris| - 1]), TriangleMin(tris[|tris| - 1]))
  }

  function ListMax(tris: seq<Triangle>): Vector
    requires |tris| > 0
  {
    if |tris| == 1 then TriangleMax(tris[0])
    else MaxCorner(ListMax(tris[..|tris| - 1]), TriangleMax(tris[|tris| - 1]))
  }

  /** The three vertices of `t` lie in the box. */
  predicate CoversTriangle(mn: Vector, mx: Vector, t: Triangle)
  {
    Covers(mn, mx, t.P1) && Covers(mn, mx, t.P2) && Covers(mn, mx, t.P3)
  }

  /** Every vertex of every listed triangle lies in the list's box. */
  lemma {:induction false} ListBoxCovers(tris: seq<Triangle>)
    requires |tris| > 0
    ensures forall k :: 0 <= k < |tris| ==> CoversTriangle(ListMin(tris), ListMax(tris), tris[k])
  {
    var last := tris[|tris| - 1];
    if |tris| == 1 {
      TriangleCoversItself(last);
    } else {
      var init := tris[..|tris| - 1];
      ListBoxCovers(init);
      var mn, mx, tmn, tmx := ListMin(init), ListMax(init), TriangleMin(last), TriangleMax(last);
      assert ListMin(tris) == MinCorner(mn, tmn) && ListMax(tris) == MaxCorner(mx, tmx);
      forall k | 0 <= k < |tris|
        ensures CoversTriangle(MinCorner(mn, tmn), MaxCorner(mx, tmx), tris[k])
      {
        if k < |init| {
          assert tris[k] == init[k];
          WidenedCoversTriangle(mn, mx, tmn, tmx, tris[k]);
        } else {
          TriangleCoversItself(last);
          WidenedCoversTriangle2(mn, mx, tmn, tmx, last);
        }
      }
    }
  }

  /** A triangle lies in its own box. */
  lemma TriangleCoversItself(t: Triangle)
    ensures CoversTriangle(TriangleMin(t), TriangleMax(t), t)
  {
    TriangleBoxTight(t);
  }

  /** Widening a box keeps a triangle it covered, for either of the two boxes joined. */
  lemma WidenedCoversTriangle(mn: Vector, mx: Vector, mn2: Vector, mx2: Vector, t: Triangle)
    requires CoversTriangle(mn, mx, t)
    ensures CoversTriangle(MinCorner(mn, mn2), MaxCorner(mx, mx2), t)
  {
    CornersWiden(mn, mx, mn2, mx2);
  }

  lemma WidenedCoversTriangle2(mn: Vector, mx: Vector, mn2: Vector, mx2: Vector, t: Triangle)
    requires CoversTriangle(mn2, mx2, t)
    ensures CoversTriangle(MinCorner(mn, mn2), MaxCorner(mx, mx2), t)
  {
    CornersWiden2(mn, mx, mn2, mx2);
  }

  /** Widening the corners keeps every covered point covered, for either part. */
  lemma CornersWiden(mn: Vector, mx: Vector, mn2: Vector, mx2: Vector)
    ensures forall v :: Covers(mn, mx, v) ==> Covers(MinCorner(mn, mn2), MaxCorner(mx, mx2), v)
  {
    forall v | Covers(mn, mx, v)
      ensures Covers(MinCorner(mn, mn2), MaxCorner(mx, mx2), v)
    {
      assert mn.At(0) <= v.At(0) <= mx.At(0) && mn.At(1) <= v.At(1) <= mx.At(1) && mn.At(2) <= v.At(2) <= mx.At(2);
    }
  }

  lemma CornersWiden2(mn: Vector, mx: Vector, mn2: Vector, mx2: Vector)
    ensures forall v :: Covers(mn2, mx2, v) ==> Covers(MinCorner(mn, mn2), MaxCorner(mx, mx2), v)
  {
    forall v | Covers(mn2, mx2, v)
      ensures Covers(MinCorner(mn, mn2), MaxCorner(mx, mx2), v)
    {
      assert mn2.At(0) <= v.At(0) <= mx2.At(0) && mn2.At(1) <= v.At(1) <= mx2.At(1) && mn2.At(2) <= v.At(2) <= mx2.At(2);
    }
  }

  /**
   * getBoundingBox. A stored box is returned as it is. An empty list
   * yields a new zero box that is not stored. Otherwise the box of the
   * first triangle is stored and then extended by the other triangles'
   * boxes; the returned node is the node with the box stored.
   */
  method GetBoundingBox(n: Node) returns (b: BoundingBox, n': Node)
    ensures n.BoundingBox != null ==> b == n.BoundingBox && n' == n
    ensures n.BoundingBox == null && |n.Triangles| == 0 ==>
              fresh(b) && b.MinExtend == Zero && b.MaxExtend == Zero && n' == n
    ensures n.BoundingBox == null && |n.Triangles| > 0 ==>
              fresh(b) && n' == n.(BoundingBox := b) &&
              b.MinExtend == ListMin(n.Triangles) && b.MaxExtend == ListMax(n.Triangles)
  {
    if n.BoundingBox != null {
      return n.BoundingBox, n;
    }
    if |n.Triangles| == 0 {
      b := new BoundingBox(Zero, Zero);
      return b, n;
    }
    b := TriangleBox(n.Triangles[0]);
    n' := n.(BoundingBox := b);
    if |n.Triangles| == 1 {
      return;
    }
    for i := 1 to |n.Triangles|
      invariant fresh(b)
      invariant b.MinExtend == ListMin(n.Triangles[..i]) && b.MaxExtend == ListMax(n.Triangles[..i])
    {
      var tb := TriangleBox(n.Triangles[i]);
      b.Extend(tb);
      assert n.Triangles[..i + 1][..i] == n.Triangles[..i];
      assert b.MinExtend.At(0) == ListMin(n.Triangles[..i + 1]).At(0) && b.MinExtend.At(1) == ListMin(n.Triangles[..i + 1]).At(1);
      assert b.MinExtend.At(2) == ListMin(n.Triangles[..i + 1]).At(2);
      assert b.MaxExtend.At(0) == ListMax(n.Triangles[..i + 1]).At(0) && b.MaxExtend.At(1) == ListMax(n.Triangles[..i + 1]).At(1);
      assert b.MaxExtend.At(2) == ListMax(n.Triangles[..i + 1]).At(2);
    }
    assert n.Triangles[..|n.Triangles|] == n.Triangles;
  }

  /** The triangles' midpoints, in order. */
  function MidPoints(tris: seq<Triangle>): (mids: seq<Vector>)
    ensures |mids| == |tris| && forall k :: 0 <= k < |tris| ==> mids[k] == MidPoint(tris[k])
  {
    seq(|tris|, k requires 0 <= k < |tris| => MidPoint(tris[k]))
  }

  /** The centroid Node.midPoint returns for a non-empty list. */
  function Centroid(tris: seq<Triangle>): Vector
    requires |tris| > 0
  {
    ScaleVector(SumVectors(MidPoints(tris)), 1.0 / (|tris| as real))
  }

  /** Node.midPoint: the mean of the triangles' midpoints; zero for no triangles. */
  method NodeMidPoint(tris: seq<Triangle>) returns (mid: Vector)
    ensures |tris| == 0 ==> mid == Zero
    ensures |tris| > 0 ==> mid == Centroid(tris)
  {
    mid := Zero;
    if |tris| == 0 {
      return;
    }
    for i := 0 to |tris|
      invariant mid == SumVectors(MidPoints(tris[..i]))
    {
      assert MidPoints(tris[..i + 1])[..i] == MidPoints(tris[..i]);
      mid := AddVector(MidPoint(tris[i]), mid);
    }
    assert tris[..|tris|] == tris;
    mid := ScaleVector(mid, 1.0 / (|tris| as real));
  }

  /**
   * The sum of a non-empty list is at least its length n times its least
   * component m (n and m are passed in, so that the product is over the
   * same terms wherever the bound is used).
   */
  lemma {:induction false} SumAboveLeast(vs: seq<Vector>, j: nat, n: real, m: real)
    requires |vs| > 0 && j < 4 && n == |vs| as real && m == MinAt(vs, j)
    ensures SumVectors(vs).At(j) >= n * m
  {
    var init := vs[..|vs| - 1];
    AddAt(vs[|vs| - 1], SumVectors(init), j);
    if |vs| > 1 {
      var k0, m0 := |init| as real, MinAt(init, j);
      SumAboveLeast(init, j, k0, m0);
      var total, rest, x := SumVectors(vs).At(j), SumVectors(init).At(j), vs[|vs| - 1].At(j);
      assert total == x + rest;
      assert m == Min(m0, x);
      StepBound(total, rest, x, k0, m0, n, m);
    }
  }

  /** One step of the bound: adding one term not below the new least value. */
  lemma StepBound(s: real, s0: real, x: real, k: real, m0: real, n: real, m: real)
    requires s == x + s0 && s0 >= k * m0 && k >= 0.0 && m <= m0 && m <= x && n == k + 1.0
    ensures s >= n * m
  {
    assert k * (m0 - m) >= 0.0;
  }

  /** Scaling a vector by the inverse of n keeps component `j` above m when it was above n * m. */
  lemma ScaledAbove(v: Vector, n: real, j: nat, m: real)
    requires j < 4 && n > 0.0 && v.At(j) >= n * m
    ensures ScaleVector(v, 1.0 / n).At(j) >= m
  {
    ScaleAt(v, 1.0 / n, j);
    AverageAboveLeast(v.At(j), n, m);
  }

  /** A quotient of a number by a smaller positive one is at least 1. */
  lemma QuotientAtLeastOne(m: real, n: real)
    requires n > 0.0 && m >= n
    ensures m / n >= 1.0
  {
    var q := m / n;
    assert q * n == m;
  }

  /** Dividing by a positive number keeps the order. */
  lemma AverageAboveLeast(s: real, n: real, m: real)
    requires n > 0.0 && s >= n * m
    ensures s * (1.0 / n) >= m
  {
    var q := s * (1.0 / n);
    assert q * n == s;
  }

  /** Some element of a non-empty list is not above the mean on component `j`. */
  lemma MeanNotBelowAll(vs: seq<Vector>, j: nat)
    requires |vs| > 0 && j < 4
    ensures exists k :: 0 <= k < |vs| && ScaleVector(SumVectors(vs), 1.0 / (|vs| as real)).At(j) >= vs[k].At(j)
  {
    MeanAboveLeast(vs, j);
    MinMaxAtBounds(vs, j);
    var k :| 0 <= k < |vs| && vs[k].At(j) == MinAt(vs, j);
  }

  lemma MeanAboveLeast(vs: seq<Vector>, j: nat)
    requires |vs| > 0 && j < 4
    ensures ScaleVector(SumVectors(vs), 1.0 / (|vs| as real)).At(j) >= MinAt(vs, j)
  {
    var n, m := |vs| as real, MinAt(vs, j);
    SumAboveLeast(vs, j, n, m);
    ScaledAbove(SumVectors(vs), n, j, m);
  }

  /**
   * Some triangle's midpoint is not above the centroid on the given axis,
   * so the right-hand side of the split (midpoint not above the centroid)
   * is never empty.
   */
  lemma RightSideNeverEmpty(tris: seq<Triangle>, axis: nat)
    requires |tris| > 0 && axis < 3
    ensures exists k :: 0 <= k < |tris| && Centroid(tris).At(axis) >= MidPoint(tris[k]).At(axis)
  {
    var mids := MidPoints(tris);
    MeanNotBelowAll(mids, axis);
    var k :| 0 <= k < |mids| && ScaleVector(SumVectors(mids), 1.0 / (|mids| as real)).At(axis) >= mids[k].At(axis);
    assert mids[k] == MidPoint(tris[k]);
  }

  /** A triangle goes to the right-hand list when its midpoint is not above the centroid. */
  predicate GoesRight(t: Triangle, midP: Vector, axis: nat)
    requires axis < 4
  {
    midP.At(axis) >= MidPoint(t).At(axis)
  }

  /** The triangles of `tris` on one side of the split, in order. */
  function Side(tris: seq<Triangle>, midP: Vector, axis: nat, right: bool): seq<Triangle>
    requires axis < 4
  {
    if |tris| == 0 then []
    else
      var init := Side(tris[..|tris| - 1], midP, axis, right);
      if GoesRight(tris[|tris| - 1], midP, axis) == right then init + [tris[|tris| - 1]] else init
  }

  /** The two sides split the triangles exactly, each by its own test. */
  lemma {:induction false} SidesPartition(tris: seq<Triangle>, midP: Vector, axis: nat)
    requires axis < 4
    ensures multiset(Side(tris, midP, axis, false)) + multiset(Side(tris, midP, axis, true)) == multiset(tris)
    ensures forall t :: t in Side(tris, midP, axis, true) ==> t in tris && GoesRight(t, midP, axis)
    ensures forall t :: t in Side(tris, midP, axis, false) ==> t in tris && !GoesRight(t, midP, axis)
  {
    if |tris| > 0 {
      var init := tris[..|tris| - 1];
      SidesPartition(init, midP, axis);
      assert tris == init + [tris[|tris| - 1]];
    }
  }

  /** The partition loop of generateNode. */
  method Partition(tris: seq<Triangle>, midP: Vector, axis: nat) returns (leftTris: seq<Triangle>, rightTris: seq<Triangle>)
    requires axis < 4
    ensures leftTris == Side(tris, midP, axis, false) && rightTris == Side(tris, midP, axis, true)
  {
    leftTris := [];
    rightTris := [];
    for i := 0 to |tris|
      invariant leftTris == Side(tris[..i], midP, axis, false)
      invariant rightTris == Side(tris[..i], midP, axis, true)
    {
      assert tris[..i + 1][..i] == tris[..i];
      var mp := MidPoint(tris[i]);
      if midP.At(axis) >= mp.At(axis) {
        rightTris := rightTris + [tris[i]];
      } else {
        leftTris := leftTris + [tris[i]];
      }
    }
    assert tris[..|tris|] == tris;
  }

  /** The number of triangles of `r` equal to `t`. */
  function RowMatches(t: Triangle, r: seq<Triangle>): nat
  {
    if |r| == 0 then 0
    else RowMatches(t, r[..|r| - 1]) + (if Equals(t, r[|r| - 1]) then 1 else 0)
  }

  /** The number of equal pairs between the two lists. */
  function Matches(l: seq<Triangle>, r: seq<Triangle>): nat
  {
    if |l| == 0 then 0
    else Matches(l[..|l| - 1], r) + RowMatches(l[|l| - 1], r)
  }

  lemma {:induction false} RowMatchesMember(t: Triangle, r: seq<Triangle>)
    requires t in r
    ensures RowMatches(t, r) >= 1
  {
    if r[|r| - 1] != t {
      assert t in r[..|r| - 1] by {
        var k :| 0 <= k < |r| && r[k] == t;
        assert k < |r| - 1 && r[..|r| - 1][k] == t;
      }
      RowMatchesMember(t, r[..|r| - 1]);
    }
  }

  /** Every triangle of `l` found in `r` contributes at least one match. */
  lemma {:induction false} MatchesMembers(l: seq<Triangle>, r: seq<Triangle>)
    requires forall t :: t in l ==> t in r
    ensures Matches(l, r) >= |l|
  {
    if |l| > 0 {
      assert forall t :: t in l[..|l| - 1] ==> t in l;
      MatchesMembers(l[..|l| - 1], r);
      RowMatchesMember(l[|l| - 1], r);
    }
  }

  /** The nested match-count loop of generateNode. */
  method CountMatches(leftTris: seq<Triangle>, rightTris: seq<Triangle>) returns (matches: nat)
    ensures matches == Matches(leftTris, rightTris)
  {
    matches := 0;
    for i := 0 to |leftTris|
      invariant matches == Matches(leftTris[..i], rightTris)
    {
      assert leftTris[..i + 1][..i] == leftTris[..i];
      ghost var before := matches;
      for j := 0 to |rightTris|
        invariant matches == before + RowMatches(leftTris[i], rightTris[..j])
      {
        assert rightTris[..j + 1][..j] == rightTris[..j];
        if Equals(leftTris[i], rightTris[j]) {
          matches := matches + 1;
        }
      }
      assert rightTris[..|rightTris|] == rightTris;
    }
    assert leftTris[..|leftTris|] == leftTris;
  }

  /** A side that is compared with itself always fails the duplicate-ratio test. */
  lemma SelfFailsRatio(s: seq<Triangle>)
    requires |s| > 0
    ensures !((Matches(s, s) as real) / (|s| as real) < 0.5)
  {
    MatchesMembers(s, s);
    QuotientAtLeastOne(Matches(s, s) as real, |s| as real);
  }

  /** The triangles held by the leaves of a tree, counted with multiplicity. */
  function LeafTriangles(n: Node): multiset<Triangle>
  {
    multiset(n.Triangles)
      + (if n.Left.Some? then LeafTriangles(n.Left.value) else multiset{})
      + (if n.Right.Some? then LeafTriangles(n.Right.value) else multiset{})
  }

  lemma LeafTrianglesOfLeaf(n: Node)
    requires n.Left == Some(EmptyNode) && n.Right == Some(EmptyNode)
    ensures LeafTriangles(n) == multiset(n.Triangles)
  {
    assert LeafTriangles(EmptyNode) == multiset{};
  }

  /** What a split node is made of, given its two children. */
  lemma SplitNodeFacts(n: Node, l: Node, r: Node)
    ensures var m := n.(Left := Some(l), Right := Some(r), Triangles := []);
            LeafTriangles(m) == LeafTriangles(l) + LeafTriangles(r) &&
            (n.depth <= 50 && DepthAtMost(l, 50) && DepthAtMost(r, 50) ==> DepthAtMost(m, 50))
  {
  }

  /** No node of the tree is deeper than `cap` (the empty children have depth 0). */
  predicate DepthAtMost(n: Node, cap: int)
  {
    n.depth <= cap
      && (n.Left.Some? ==> DepthAtMost(n.Left.value, cap))
      && (n.Right.Some? ==> DepthAtMost(n.Right.value, cap))
  }

  /**
   * The three shapes generateNode builds: an empty node without children,
   * a leaf with triangles and two empty children, and a split node that
   * holds no triangles and has two children one level deeper.
   */
  predicate Shaped(n: Node)
  {
    (n.Triangles == [] && n.TriangleCount == 0 && n.Left.None? && n.Right.None?)
    || (|n.Triangles| > 0 && n.TriangleCount == |n.Triangles| && n.Left == Some(EmptyNode) && n.Right == Some(EmptyNode))
    || (n.Triangles == [] && n.TriangleCount >= 2 && n.depth < 50 && n.Left.Some? && n.Right.Some?
        && n.Left.value.depth == n.depth + 1 && n.Right.value.depth == n.depth + 1
        && Shaped(n.Left.value) && Shaped(n.Right.value))
  }

  /** The sides generateNode recurses on: an empty side is replaced by the other one. */
  function WithFallback(sl: seq<Triangle>, sr: seq<Triangle>): (sides: (seq<Triangle>, seq<Triangle>))
    ensures |sl| + |sr| > 0 ==> |sides.0| > 0 && |sides.1| > 0
    ensures sl != [] && sr != [] ==> sides == (sl, sr)
    ensures sl == [] || sr == [] ==> sides.0 == sides.1
  {
    var l := if |sl| == 0 && |sr| > 0 then sr else sl;
    var r := if |sr| == 0 && |l| > 0 then l else sr;
    (l, r)
  }

  /** The duplicate-ratio test: fewer matches than half of each side. */
  predicate RatioBelowHalf(l: seq<Triangle>, r: seq<Triangle>)
    requires |l| > 0 && |r| > 0
  {
    (Matches(l, r) as real) / (|l| as real) < 0.5 && (Matches(l, r) as real) / (|r| as real) < 0.5
  }

  /**
   * The splitting step of generateNode for two or more triangles: the
   * two sides around the centroid on the chosen axis, after the empty-side
   * fallback, and whether the duplicate ratio allows a split (always for
   * 10000 triangles or more).
   */
  method SplitSides(n: Node) returns (leftTris: seq<Triangle>, rightTris: seq<Triangle>, ratio: bool)
    requires |n.Triangles| >= 2 && n.BoundingBox != null
    ensures var axis := ChosenAxis(n.BoundingBox.MinExtend, n.BoundingBox.MaxExtend);
            var midP := Centroid(n.Triangles);
            (leftTris, rightTris) == WithFallback(Side(n.Triangles, midP, axis, false), Side(n.Triangles, midP, axis, true))
    ensures |leftTris| > 0 && |rightTris| > 0
    ensures ratio == (|n.Triangles| >= 10000 || RatioBelowHalf(leftTris, rightTris))
  {
    var midP := NodeMidPoint(n.Triangles);
    var axis := n.BoundingBox.LongestAxis();
    leftTris, rightTris := Partition(n.Triangles, midP, axis);
    SidesPartition(n.Triangles, midP, axis);
    assert |leftTris| + |rightTris| == |n.Triangles| by {
      assert |multiset(leftTris) + multiset(rightTris)| == |multiset(n.Triangles)|;
    }
    if |leftTris| == 0 && |rightTris| > 0 {
      leftTris := rightTris;
    }
    if |rightTris| == 0 && |leftTris| > 0 {
      rightTris := leftTris;
    }
    ratio := true;
    if |n.Triangles| < 10000 {
      var matches := CountMatches(leftTris, rightTris);
      ratio := (matches as real) / (|leftTris| as real) < 0.5 && (matches as real) / (|rightTris| as real) < 0.5;
    }
  }

  /**
   * Below 10000 triangles a split only happens on a genuine partition:
   * after a fallback both sides are the same list, which fails the ratio.
   */
  lemma SplitIsPartition(tris: seq<Triangle>, midP: Vector, axis: nat)
    requires axis < 4 && 2 <= |tris| < 10000
    ensures var sides := WithFallback(Side(tris, midP, axis, false), Side(tris, midP, axis, true));
            RatioBelowHalf(sides.0, sides.1) ==>
              multiset(sides.0) + multiset(sides.1) == multiset(tris) && |sides.0| < |tris| && |sides.1| < |tris|
    ensures var sides := WithFallback(Side(tris, midP, axis, false), Side(tris, midP, axis, true));
            forall t :: t in sides.0 || t in sides.1 ==> t in tris
  {
    var sl, sr := Side(tris, midP, axis, false), Side(tris, midP, axis, true);
    SidesPartition(tris, midP, axis);
    assert |sl| + |sr| == |tris| by {
      assert |multiset(sl) + multiset(sr)| == |multiset(tris)|;
    }
    var sides := WithFallback(sl, sr);
    if sl == [] || sr == [] {
      SelfFailsRatio(sides.0);
    }
  }

  /**
   * generateNode. The node keeps the input and its count at the given
   * depth. No triangles give a childless node, one triangle a leaf. More
   * triangles are split at the centroid along the chosen axis, an empty
   * side being replaced by a copy of the other; the node is split when
   * the duplicate ratio is below one half on both sides and the depth is
   * under 50, and it is a leaf otherwise.
   */
  method GenerateNode(tris: seq<Triangle>, depth: int) returns (result: Node)
    decreases 50 - depth, 1
    ensures result.TriangleCount == |tris| && result.depth == depth
    ensures |tris| == 0 ==> result == Node(tris, 0, null, None, None, depth)
    ensures |tris| > 0 ==> result.BoundingBox != null
    ensures |tris| == 1 ==> result.Triangles == tris && result.Left == Some(EmptyNode) && result.Right == Some(EmptyNode)
    ensures |tris| > 0 ==> result.Triangles == tris || result.Triangles == []
    ensures Shaped(result)
    ensures depth <= 50 ==> DepthAtMost(result, 50)
    ensures forall t :: t in LeafTriangles(result) ==> t in tris
    ensures |tris| < 10000 ==> LeafTriangles(result) == multiset(tris)
  {
    result := Node(tris, |tris|, null, None, None, depth);
    var box, memo := GetBoundingBox(result);
    result := memo;
    if |result.Triangles| == 0 {
      return;
    }
    if |result.Triangles| == 1 {
      result := result.(Left := Some(EmptyNode), Right := Some(EmptyNode));
      LeafTrianglesOfLeaf(result);
      return;
    }
    var leftTris, rightTris, ratio := SplitSides(result);
    ghost var axis := ChosenAxis(result.BoundingBox.MinExtend, result.BoundingBox.MaxExtend);
    if |tris| < 10000 {
      SplitIsPartition(tris, Centroid(tris), axis);
    } else {
      SplitSidesWithin(tris, Centroid(tris), axis);
    }
    result := SplitOrLeaf(tris, depth, result, leftTris, rightTris, ratio);
  }

  /**
   * The end of generateNode for two or more triangles: two subtrees one
   * level deeper when the split is worth it and the depth allows, else a leaf.
   */
  method SplitOrLeaf(tris: seq<Triangle>, depth: int, n: Node, leftTris: seq<Triangle>, rightTris: seq<Triangle>, ratio: bool)
    returns (result: Node)
    requires |tris| >= 2 && n.Triangles == tris && n.TriangleCount == |tris| && n.depth == depth && n.BoundingBox != null
    requires forall t :: t in leftTris || t in rightTris ==> t in tris
    requires ratio && |tris| < 10000 ==> multiset(leftTris) + multiset(rightTris) == multiset(tris)
    decreases 50 - depth, 0
    ensures result.TriangleCount == |tris| && result.depth == depth && result.BoundingBox != null
    ensures result.Triangles == tris || result.Triangles == []
    ensures Shaped(result)
    ensures depth <= 50 ==> DepthAtMost(result, 50)
    ensures forall t :: t in LeafTriangles(result) ==> t in tris
    ensures |tris| < 10000 ==> LeafTriangles(result) == multiset(tris)
  {
    if ratio && depth < 50 {
      var leftNode := GenerateNode(leftTris, depth + 1);
      var rightNode := GenerateNode(rightTris, depth + 1);
      SplitNodeFacts(n, leftNode, rightNode);
      result := n.(Left := Some(leftNode), Right := Some(rightNode), Triangles := []);
    } else {
      result := n.(Left := Some(EmptyNode), Right := Some(EmptyNode));
      LeafTrianglesOfLeaf(result);
      assert DepthAtMost(EmptyNode, 50);
    }
  }

  /** Both sides only hold input triangles, whatever the size. */
  lemma SplitSidesWithin(tris: seq<Triangle>, midP: Vector, axis: nat)
    requires axis < 4
    ensures var sides := WithFallback(Side(tris, midP, axis, false), Side(tris, midP, axis, true));
            forall t :: t in sides.0 || t in sides.1 ==> t in tris
  {
    SidesPartition(tris, midP, axis);
  }
}
