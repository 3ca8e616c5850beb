/**
 * 4x4 matrices over homogeneous vectors (raytracer/matrix.go and
 * VectorTransform of raytracer/vector.go). A matrix is four row vectors;
 * vectors multiply matrices from the left.
 */
module Matrices {
  import opened Vectors

  datatype Matrix = Matrix(r0: Vector, r1: Vector, r2: Vector, r3: Vector) {

    /** Row `i`, as `m[i]`. */
    function Row(i: nat): Vector
      requires i < 4
    {
      if i == 0 then r0 else if i == 1 then r1 else if i == 2 then r2 else r3
    }

    /** Entry `m[i][j]`. */
    function At(i: nat, j: nat): real
      requires i < 4 && j < 4
    {
      Row(i).At(j)
    }

    /** Column `j`, as the vector (m[0][j], m[1][j], m[2][j], m[3][j]). */
    function Column(j: nat): Vector
      requires j < 4
    {
      Vector(r0.At(j), r1.At(j), r2.At(j), r3.At(j))
    }

    /** The matrix with entry (i, j) replaced by `r`. */
    function Set(i: nat, j: nat, r: real): (n: Matrix)
      requires i < 4 && j < 4
      ensures n.At(i, j) == r
      ensures forall i', j' :: 0 <= i' < 4 && 0 <= j' < 4 && (i', j') != (i, j) ==> n.At(i', j') == At(i', j')
    {
      var row := Row(i).Set(j, r);
      if i == 0 then this.(r0 := row)
      else if i == 1 then this.(r1 := row)
      else if i == 2 then this.(r2 := row)
      else this.(r3 := row)
    }
  }

  /** identityHmgMatrix */
  const Identity: Matrix := Matrix(Vector(1.0, 0.0, 0.0, 0.0),
                                   Vector(0.0, 1.0, 0.0, 0.0),
                                   Vector(0.0, 0.0, 1.0, 0.0),
                                   Vector(0.0, 0.0, 0.0, 1.0))

  /** The all-zero matrix, Go's zero value for Matrix. */
  const ZeroMatrix: Matrix := Matrix(Zero, Zero, Zero, Zero)

  /** Matrices are equal when all sixteen entries are. */
  lemma MatrixExt(a: Matrix, b: Matrix)
    requires forall i, j :: 0 <= i < 4 && 0 <= j < 4 ==> a.At(i, j) == b.At(i, j)
    ensures a == b
  {
    assert a.At(0, 0) == b.At(0, 0) && a.At(0, 1) == b.At(0, 1) && a.At(0, 2) == b.At(0, 2) && a.At(0, 3) == b.At(0, 3);
    assert a.At(1, 0) == b.At(1, 0) && a.At(1, 1) == b.At(1, 1) && a.At(1, 2) == b.At(1, 2) && a.At(1, 3) == b.At(1, 3);
    assert a.At(2, 0) == b.At(2, 0) && a.At(2, 1) == b.At(2, 1) && a.At(2, 2) == b.At(2, 2) && a.At(2, 3) == b.At(2, 3);
    assert a.At(3, 0) == b.At(3, 0) && a.At(3, 1) == b.At(3, 1) && a.At(3, 2) == b.At(3, 2) && a.At(3, 3) == b.At(3, 3);
  }

  /** The four-component dot product (dot itself ignores w). */
  function Dot4(a: Vector, b: Vector): real
  {
    a.x * b.x + a.y * b.y + a.z * b.z + a.w * b.w
  }

  /**
   * VectorTransform: the row vector v times m, so result[j] is the sum over
   * k of v[k] * m[k][j].
   */
  function VectorTransform(v: Vector, m: Matrix): Vector
  {
    Vector(v.x * m.r0.x + v.y * m.r1.x + v.z * m.r2.x + v.w * m.r3.x,
           v.x * m.r0.y + v.y * m.r1.y + v.z * m.r2.y + v.w * m.r3.y,
           v.x * m.r0.z + v.y * m.r1.z + v.z * m.r2.z + v.w * m.r3.z,
           v.x * m.r0.w + v.y * m.r1.w + v.z * m.r2.w + v.w * m.r3.w)
  }

  /** Transforming by the identity matrix yields the vector itself. */
  lemma TransformIdentity(v: Vector)
    ensures VectorTransform(v, Identity) == v
  {
  }

  /**
   * MultiplyMatrix is the row-by-column product: row i of the result is
   * row i of m1 transformed by m2.
   */
  function MultiplyMatrix(m1: Matrix, m2: Matrix): Matrix
  {
    Matrix(VectorTransform(m1.r0, m2), VectorTransform(m1.r1, m2),
           VectorTransform(m1.r2, m2), VectorTransform(m1.r3, m2))
  }

  /** Entry (i, j) of the product is row i of m1 against column j of m2. */
  lemma MultiplyIsRowByColumn(m1: Matrix, m2: Matrix, i: nat, j: nat)
    requires i < 4 && j < 4
    ensures MultiplyMatrix(m1, m2).At(i, j) == Dot4(m1.Row(i), m2.Column(j))
  {
    AtRow(MultiplyMatrix(m1, m2), i, j);
    RowOfProduct(m1, m2, i);
    TransformIsDotColumn(m1.Row(i), m2, j);
  }

  /** Component j of VectorTransform(v, m) is v against column j of m. */
  lemma TransformIsDotColumn(v: Vector, m: Matrix, j: nat)
    requires j < 4
    ensures VectorTransform(v, m).At(j) == Dot4(v, m.Column(j))
  {
  }

  lemma RowOfProduct(m1: Matrix, m2: Matrix, i: nat)
    requires i < 4
    ensures MultiplyMatrix(m1, m2).Row(i) == VectorTransform(m1.Row(i), m2)
  {
  }

  lemma AtRow(m: Matrix, i: nat, j: nat)
    requires i < 4 && j < 4
    ensures m.At(i, j) == m.Row(i).At(j)
  {
  }

  /** The identity is neutral on both sides of MultiplyMatrix. */
  lemma MultiplyIdentity(m: Matrix)
    ensures MultiplyMatrix(m, Identity) == m
    ensures MultiplyMatrix(Identity, m) == m
  {
    TransformIdentity(m.r0);
    TransformIdentity(m.r1);
    TransformIdentity(m.r2);
    TransformIdentity(m.r3);
  }

  /** Transforming by a product is transforming by each factor in turn. */
  lemma TransformMultiply(v: Vector, a: Matrix, b: Matrix)
    ensures VectorTransform(v, MultiplyMatrix(a, b)) == VectorTransform(VectorTransform(v, a), b)
  {
    TransformMultiplyX(v, a, b);
    TransformMultiplyY(v, a, b);
    TransformMultiplyZ(v, a, b);
    TransformMultiplyW(v, a, b);
    VectorExt(VectorTransform(v, MultiplyMatrix(a, b)), VectorTransform(VectorTransform(v, a), b));
  }

  /** The sixteen entries of a product, each a row of `a` against a column of `b`. */
  lemma ProductComponents(a: Matrix, b: Matrix)
    ensures MultiplyMatrix(a, b).r0 == VectorTransform(a.r0, b) && MultiplyMatrix(a, b).r1 == VectorTransform(a.r1, b)
    ensures MultiplyMatrix(a, b).r2 == VectorTransform(a.r2, b) && MultiplyMatrix(a, b).r3 == VectorTransform(a.r3, b)
  {
  }

  lemma TransformMultiplyX(v: Vector, a: Matrix, b: Matrix)
    ensures VectorTransform(v, MultiplyMatrix(a, b)).x == VectorTransform(VectorTransform(v, a), b).x
  {
    var ab := MultiplyMatrix(a, b);
    var va := VectorTransform(v, a);
    ProductComponents(a, b);
    TransformComponents(a.r0, b);
    TransformComponents(a.r1, b);
    TransformComponents(a.r2, b);
    TransformComponents(a.r3, b);
    TransformComponents(v, ab);
    TransformComponents(v, a);
    TransformComponents(va, b);
    Associate(v.x, v.y, v.z, v.w,
              a.r0.x, a.r0.y, a.r0.z, a.r0.w, a.r1.x, a.r1.y, a.r1.z, a.r1.w,
              a.r2.x, a.r2.y, a.r2.z, a.r2.w, a.r3.x, a.r3.y, a.r3.z, a.r3.w,
              b.r0.x, b.r1.x, b.r2.x, b.r3.x,
              ab.r0.x, ab.r1.x, ab.r2.x, ab.r3.x, va.x, va.y, va.z, va.w);
  }

  lemma TransformMultiplyY(v: Vector, a: Matrix, b: Matrix)
    ensures VectorTransform(v, MultiplyMatrix(a, b)).y == VectorTransform(VectorTransform(v, a), b).y
  {
    var ab := MultiplyMatrix(a, b);
    var va := VectorTransform(v, a);
    ProductComponents(a, b);
    TransformComponents(a.r0, b);
    TransformComponents(a.r1, b);
    TransformComponents(a.r2, b);
    TransformComponents(a.r3, b);
    TransformComponents(v, ab);
    TransformComponents(v, a);
    TransformComponents(va, b);
    Associate(v.x, v.y, v.z, v.w,
              a.r0.x, a.r0.y, a.r0.z, a.r0.w, a.r1.x, a.r1.y, a.r1.z, a.r1.w,
              a.r2.x, a.r2.y, a.r2.z, a.r2.w, a.r3.x, a.r3.y, a.r3.z, a.r3.w,
              b.r0.y, b.r1.y, b.r2.y, b.r3.y,
              ab.r0.y, ab.r1.y, ab.r2.y, ab.r3.y, va.x, va.y, va.z, va.w);
  }

  lemma TransformMultiplyZ(v: Vector, a: Matrix, b: Matrix)
    ensures VectorTransform(v, MultiplyMatrix(a, b)).z == VectorTransform(VectorTransform(v, a), b).z
  {
    var ab := MultiplyMatrix(a, b);
    var va := VectorTransform(v, a);
    ProductComponents(a, b);
    TransformComponents(a.r0, b);
    TransformComponents(a.r1, b);
    TransformComponents(a.r2, b);
    TransformComponents(a.r3, b);
    TransformComponents(v, ab);
    TransformComponents(v, a);
    TransformComponents(va, b);
    Associate(v.x, v.y, v.z, v.w,
              a.r0.x, a.r0.y, a.r0.z, a.r0.w, a.r1.x, a.r1.y, a.r1.z, a.r1.w,
              a.r2.x, a.r2.y, a.r2.z, a.r2.w, a.r3.x, a.r3.y, a.r3.z, a.r3.w,
              b.r0.z, b.r1.z, b.r2.z, b.r3.z,
              ab.r0.z, ab.r1.z, ab.r2.z, ab.r3.z, va.x, va.y, va.z, va.w);
  }

  lemma TransformMultiplyW(v: Vector, a: Matrix, b: Matrix)
    ensures VectorTransform(v, MultiplyMatrix(a, b)).w == VectorTransform(VectorTransform(v, a), b).w
  {
    var ab := MultiplyMatrix(a, b);
    var va := VectorTransform(v, a);
    ProductComponents(a, b);
    TransformComponents(a.r0, b);
    TransformComponents(a.r1, b);
    TransformComponents(a.r2, b);
    TransformComponents(a.r3, b);
    TransformComponents(v, ab);
    TransformComponents(v, a);
    TransformComponents(va, b);
    Associate(v.x, v.y, v.z, v.w,
              a.r0.x, a.r0.y, a.r0.z, a.r0.w, a.r1.x, a.r1.y, a.r1.z, a.r1.w,
              a.r2.x, a.r2.y, a.r2.z, a.r2.w, a.r3.x, a.r3.y, a.r3.z, a.r3.w,
              b.r0.w, b.r1.w, b.r2.w, b.r3.w,
              ab.r0.w, ab.r1.w, ab.r2.w, ab.r3.w, va.x, va.y, va.z, va.w);
  }

  /** Associativity of a row vector, a matrix and a column, multiplied out. */
  lemma Associate(v0: real, v1: real, v2: real, v3: real,
                  a00: real, a01: real, a02: real, a03: real, a10: real, a11: real, a12: real, a13: real,
                  a20: real, a21: real, a22: real, a23: real, a30: real, a31: real, a32: real, a33: real,
                  b0: real, b1: real, b2: real, b3: real,
                  c0: real, c1: real, c2: real, c3: real, t0: real, t1: real, t2: real, t3: real)
    requires c0 == a00 * b0 + a01 * b1 + a02 * b2 + a03 * b3 && c1 == a10 * b0 + a11 * b1 + a12 * b2 + a13 * b3
    requires c2 == a20 * b0 + a21 * b1 + a22 * b2 + a23 * b3 && c3 == a30 * b0 + a31 * b1 + a32 * b2 + a33 * b3
    requires t0 == v0 * a00 + v1 * a10 + v2 * a20 + v3 * a30 && t1 == v0 * a01 + v1 * a11 + v2 * a21 + v3 * a31
    requires t2 == v0 * a02 + v1 * a12 + v2 * a22 + v3 * a32 && t3 == v0 * a03 + v1 * a13 + v2 * a23 + v3 * a33
    ensures v0 * c0 + v1 * c1 + v2 * c2 + v3 * c3 == t0 * b0 + t1 * b1 + t2 * b2 + t3 * b3
  {
  }

  /** MatrixDetInternal: the 3x3 determinant of the columns (a1, a2, a3), (b1, b2, b3), (c1, c2, c3). */
  function MatrixDetInternal(a1: real, a2: real, a3: real, b1: real, b2: real, b3: real, c1: real, c2: real, c3: real): real
  {
    a1 * (b2 * c3 - b3 * c2) - b1 * (a2 * c3 - a3 * c2) + c1 * (a2 * b3 - a3 * b2)
  }

  /** MatrixDeterminant: cofactor expansion along row 0 with alternating signs. */
  function MatrixDeterminant(m: Matrix): real
  {
    var a := m.r0.x * MatrixDetInternal(m.r1.y, m.r2.y, m.r3.y, m.r1.z, m.r2.z, m.r3.z, m.r1.w, m.r2.w, m.r3.w);
    var b := m.r0.y * MatrixDetInternal(m.r1.x, m.r2.x, m.r3.x, m.r1.z, m.r2.z, m.r3.z, m.r1.w, m.r2.w, m.r3.w);
    var c := m.r0.z * MatrixDetInternal(m.r1.x, m.r2.x, m.r3.x, m.r1.y, m.r2.y, m.r3.y, m.r1.w, m.r2.w, m.r3.w);
    var d := m.r0.w * MatrixDetInternal(m.r1.x, m.r2.x, m.r3.x, m.r1.y, m.r2.y, m.r3.y, m.r1.z, m.r2.z, m.r3.z);
    a - b + c - d
  }

  /** The determinant of the identity is 1. */
  lemma DeterminantIdentity()
    ensures MatrixDeterminant(Identity) == 1.0
  {
  }

  /**
   * AdjointMatrix: entry [k][j] is the cofactor of m[j][k], so the result is
   * the transposed cofactor matrix (the adjugate).
   */
  function Adjoint(m: Matrix): Matrix
  {
    var a1, b1, c1, d1 := m.r0.x, m.r0.y, m.r0.z, m.r0.w;
    var a2, b2, c2, d2 := m.r1.x, m.r1.y, m.r1.z, m.r1.w;
    var a3, b3, c3, d3 := m.r2.x, m.r2.y, m.r2.z, m.r2.w;
    var a4, b4, c4, d4 := m.r3.x, m.r3.y, m.r3.z, m.r3.w;
    Matrix(
      Vector(MatrixDetInternal(b2, b3, b4, c2, c3, c4, d2, d3, d4),
             -MatrixDetInternal(b1, b3, b4, c1, c3, c4, d1, d3, d4),
             MatrixDetInternal(b1, b2, b4, c1, c2, c4, d1, d2, d4),
             -MatrixDetInternal(b1, b2, b3, c1, c2, c3, d1, d2, d3)),
      Vector(-MatrixDetInternal(a2, a3, a4, c2, c3, c4, d2, d3, d4),
             MatrixDetInternal(a1, a3, a4, c1, c3, c4, d1, d3, d4),
             -MatrixDetInternal(a1, a2, a4, c1, c2, c4, d1, d2, d4),
             MatrixDetInternal(a1, a2, a3, c1, c2, c3, d1, d2, d3)),
      Vector(MatrixDetInternal(a2, a3, a4, b2, b3, b4, d2, d3, d4),
             -MatrixDetInternal(a1, a3, a4, b1, b3, b4, d1, d3, d4),
             MatrixDetInternal(a1, a2, a4, b1, b2, b4, d1, d2, d4),
             -MatrixDetInternal(a1, a2, a3, b1, b2, b3, d1, d2, d3)),
      Vector(-MatrixDetInternal(a2, a3, a4, b2, b3, b4, c2, c3, c4),
             MatrixDetInternal(a1, a3, a4, b1, b3, b4, c1, c3, c4),
             -MatrixDetInternal(a1, a2, a4, b1, b2, b4, c1, c2, c4),
             MatrixDetInternal(a1, a2, a3, b1, b2, b3, c1, c2, c3)))
  }

  /** s times a 3x3 determinant, multiplied out. */
  lemma MulDet3(s: real, a1: real, a2: real, a3: real, b1: real, b2: real, b3: real, c1: real, c2: real, c3: real)
    ensures s * MatrixDetInternal(a1, a2, a3, b1, b2, b3, c1, c2, c3)
         == s * a1 * b2 * c3 - s * a1 * b3 * c2 - s * b1 * a2 * c3 + s * b1 * a3 * c2 + s * c1 * a2 * b3 - s * c1 * a3 * b2
  {
  }

  /** s times a negated 3x3 determinant, multiplied out. */
  lemma MulNegDet3(s: real, a1: real, a2: real, a3: real, b1: real, b2: real, b3: real, c1: real, c2: real, c3: real)
    ensures s * -MatrixDetInternal(a1, a2, a3, b1, b2, b3, c1, c2, c3)
         == -(s * a1 * b2 * c3 - s * a1 * b3 * c2 - s * b1 * a2 * c3 + s * b1 * a3 * c2 + s * c1 * a2 * b3 - s * c1 * a3 * b2)
  {
  }

  /** The Leibniz formula: the signed sum over all 24 permutations, an independent definition of the determinant. */
  function Leibniz(m: Matrix): real
  {
    m.r0.x * m.r1.y * m.r2.z * m.r3.w - m.r0.x * m.r1.y * m.r2.w * m.r3.z - m.r0.x * m.r1.z * m.r2.y * m.r3.w
    + m.r0.x * m.r1.z * m.r2.w * m.r3.y + m.r0.x * m.r1.w * m.r2.y * m.r3.z - m.r0.x * m.r1.w * m.r2.z * m.r3.y
    - m.r0.y * m.r1.x * m.r2.z * m.r3.w + m.r0.y * m.r1.x * m.r2.w * m.r3.z + m.r0.y * m.r1.z * m.r2.x * m.r3.w
    - m.r0.y * m.r1.z * m.r2.w * m.r3.x - m.r0.y * m.r1.w * m.r2.x * m.r3.z + m.r0.y * m.r1.w * m.r2.z * m.r3.x
    + m.r0.z * m.r1.x * m.r2.y * m.r3.w - m.r0.z * m.r1.x * m.r2.w * m.r3.y - m.r0.z * m.r1.y * m.r2.x * m.r3.w
    + m.r0.z * m.r1.y * m.r2.w * m.r3.x + m.r0.z * m.r1.w * m.r2.x * m.r3.y - m.r0.z * m.r1.w * m.r2.y * m.r3.x
    - m.r0.w * m.r1.x * m.r2.y * m.r3.z + m.r0.w * m.r1.x * m.r2.z * m.r3.y + m.r0.w * m.r1.y * m.r2.x * m.r3.z
    - m.r0.w * m.r1.y * m.r2.z * m.r3.x - m.r0.w * m.r1.z * m.r2.x * m.r3.y + m.r0.w * m.r1.z * m.r2.y * m.r3.x
  }

  /** The row-0 expansion of MatrixDeterminant equals the Leibniz formula. */
  lemma DeterminantIsLeibniz(m: Matrix)
    ensures MatrixDeterminant(m) == Leibniz(m)
  {
    MulDet3(m.r0.x, m.r1.y, m.r2.y, m.r3.y, m.r1.z, m.r2.z, m.r3.z, m.r1.w, m.r2.w, m.r3.w);
    MulDet3(m.r0.y, m.r1.x, m.r2.x, m.r3.x, m.r1.z, m.r2.z, m.r3.z, m.r1.w, m.r2.w, m.r3.w);
    MulDet3(m.r0.z, m.r1.x, m.r2.x, m.r3.x, m.r1.y, m.r2.y, m.r3.y, m.r1.w, m.r2.w, m.r3.w);
    MulDet3(m.r0.w, m.r1.x, m.r2.x, m.r3.x, m.r1.y, m.r2.y, m.r3.y, m.r1.z, m.r2.z, m.r3.z);
  }

  lemma AdjugateEntry00(m: Matrix)
    ensures MultiplyMatrix(m, Adjoint(m)).r0.x == MatrixDeterminant(m)
  {
    MulNeg(m.r0.y, MatrixDetInternal(m.r1.x, m.r2.x, m.r3.x, m.r1.z, m.r2.z, m.r3.z, m.r1.w, m.r2.w, m.r3.w));
    MulNeg(m.r0.w, MatrixDetInternal(m.r1.x, m.r2.x, m.r3.x, m.r1.y, m.r2.y, m.r3.y, m.r1.z, m.r2.z, m.r3.z));
  }

  /** Entry (i, j) of a product, from column j of the right factor. */
  lemma EntryOfProduct(m: Matrix, a: Matrix, i: nat, j: nat, col: Vector, v: real)
    requires i < 4 && j < 4
    requires a.Column(j) == col
    requires Dot4(m.Row(i), col) == v
    ensures MultiplyMatrix(m, a).At(i, j) == v
  {
    MultiplyIsRowByColumn(m, a, i, j);
  }

  lemma MulNeg(a: real, x: real)
    ensures a * -x == -(a * x)
  {
  }

  lemma CofactorSum01(m: Matrix)
    ensures m.r0.x * -MatrixDetInternal(m.r0.y, m.r2.y, m.r3.y, m.r0.z, m.r2.z, m.r3.z, m.r0.w, m.r2.w, m.r3.w)
          + m.r0.y * MatrixDetInternal(m.r0.x, m.r2.x, m.r3.x, m.r0.z, m.r2.z, m.r3.z, m.r0.w, m.r2.w, m.r3.w)
          + m.r0.z * -MatrixDetInternal(m.r0.x, m.r2.x, m.r3.x, m.r0.y, m.r2.y, m.r3.y, m.r0.w, m.r2.w, m.r3.w)
          + m.r0.w * MatrixDetInternal(m.r0.x, m.r2.x, m.r3.x, m.r0.y, m.r2.y, m.r3.y, m.r0.z, m.r2.z, m.r3.z)
         == 0.0
  {
    MulNegDet3(m.r0.x, m.r0.y, m.r2.y, m.r3.y, m.r0.z, m.r2.z, m.r3.z, m.r0.w, m.r2.w, m.r3.w);
    MulDet3(m.r0.y, m.r0.x, m.r2.x, m.r3.x, m.r0.z, m.r2.z, m.r3.z, m.r0.w, m.r2.w, m.r3.w);
    MulNegDet3(m.r0.z, m.r0.x, m.r2.x, m.r3.x, m.r0.y, m.r2.y, m.r3.y, m.r0.w, m.r2.w, m.r3.w);
    MulDet3(m.r0.w, m.r0.x, m.r2.x, m.r3.x, m.r0.y, m.r2.y, m.r3.y, m.r0.z, m.r2.z, m.r3.z);
  }

  lemma AdjugateEntry01(m: Matrix)
    ensures MultiplyMatrix(m, Adjoint(m)).r0.y == 0.0
  {
    CofactorSum01(m);
    EntryOfProduct(m, Adjoint(m), 0, 1,
      Vector(-MatrixDetInternal(m.r0.y, m.r2.y, m.r3.y, m.r0.z, m.r2.z, m.r3.z, m.r0.w, m.r2.w, m.r3.w), MatrixDetInternal(m.r0.x, m.r2.x, m.r3.x, m.r0.z, m.r2.z, m.r3.z, m.r0.w, m.r2.w, m.r3.w), -MatrixDetInternal(m.r0.x, m.r2.x, m.r3.x, m.r0.y, m.r2.y, m.r3.y, m.r0.w, m.r2.w, m.r3.w), MatrixDetInternal(m.r0.x, m.r2.x, m.r3.x, m.r0.y, m.r2.y, m.r3.y, m.r0.z, m.r2.z, m.r3.z)),
      0.0);
  }

  lemma CofactorSum02(m: Matrix)
    ensures m.r0.x * MatrixDetInternal(m.r0.y, m.r1.y, m.r3.y, m.r0.z, m.r1.z, m.r3.z, m.r0.w, m.r1.w, m.r3.w)
          + m.r0.y * -MatrixDetInternal(m.r0.x, m.r1.x, m.r3.x, m.r0.z, m.r1.z, m.r3.z, m.r0.w, m.r1.w, m.r3.w)
          + m.r0.z * MatrixDetInternal(m.r0.x, m.r1.x, m.r3.x, m.r0.y, m.r1.y, m.r3.y, m.r0.w, m.r1.w, m.r3.w)
          + m.r0.w * -MatrixDetInternal(m.r0.x, m.r1.x, m.r3.x, m.r0.y, m.r1.y, m.r3.y, m.r0.z, m.r1.z, m.r3.z)
         == 0.0
  {
    MulDet3(m.r0.x, m.r0.y, m.r1.y, m.r3.y, m.r0.z, m.r1.z, m.r3.z, m.r0.w, m.r1.w, m.r3.w);
    MulNegDet3(m.r0.y, m.r0.x, m.r1.x, m.r3.x, m.r0.z, m.r1.z, m.r3.z, m.r0.w, m.r1.w, m.r3.w);
    MulDet3(m.r0.z, m.r0.x, m.r1.x, m.r3.x, m.r0.y, m.r1.y, m.r3.y, m.r0.w, m.r1.w, m.r3.w);
    MulNegDet3(m.r0.w, m.r0.x, m.r1.x, m.r3.x, m.r0.y, m.r1.y, m.r3.y, m.r0.z, m.r1.z, m.r3.z);
  }

  lemma AdjugateEntry02(m: Matrix)
    ensures MultiplyMatrix(m, Adjoint(m)).r0.z == 0.0
  {
    CofactorSum02(m);
    EntryOfProduct(m, Adjoint(m), 0, 2,
      Vector(MatrixDetInternal(m.r0.y, m.r1.y, m.r3.y, m.r0.z, m.r1.z, m.r3.z, m.r0.w, m.r1.w, m.r3.w), -MatrixDetInternal(m.r0.x, m.r1.x, m.r3.x, m.r0.z, m.r1.z, m.r3.z, m.r0.w, m.r1.w, m.r3.w), MatrixDetInternal(m.r0.x, m.r1.x, m.r3.x, m.r0.y, m.r1.y, m.r3.y, m.r0.w, m.r1.w, m.r3.w), -MatrixDetInternal(m.r0.x, m.r1.x, m.r3.x, m.r0.y, m.r1.y, m.r3.y, m.r0.z, m.r1.z, m.r3.z)),
      0.0);
  }

  lemma CofactorSum03(m: Matrix)
    ensures m.r0.x * -MatrixDetInternal(m.r0.y, m.r1.y, m.r2.y, m.r0.z, m.r1.z, m.r2.z, m.r0.w, m.r1.w, m.r2.w)
          + m.r0.y * MatrixDetInternal(m.r0.x, m.r1.x, m.r2.x, m.r0.z, m.r1.z, m.r2.z, m.r0.w, m.r1.w, m.r2.w)
          + m.r0.z * -MatrixDetInternal(m.r0.x, m.r1.x, m.r2.x, m.r0.y, m.r1.y, m.r2.y, m.r0.w, m.r1.w, m.r2.w)
          + m.r0.w * MatrixDetInternal(m.r0.x, m.r1.x, m.r2.x, m.r0.y, m.r1.y, m.r2.y, m.r0.z, m.r1.z, m.r2.z)
         == 0.0
  {
    MulNegDet3(m.r0.x, m.r0.y, m.r1.y, m.r2.y, m.r0.z, m.r1.z, m.r2.z, m.r0.w, m.r1.w, m.r2.w);
    MulDet3(m.r0.y, m.r0.x, m.r1.x, m.r2.x, m.r0.z, m.r1.z, m.r2.z, m.r0.w, m.r1.w, m.r2.w);
    MulNegDet3(m.r0.z, m.r0.x, m.r1.x, m.r2.x, m.r0.y, m.r1.y, m.r2.y, m.r0.w, m.r1.w, m.r2.w);
    MulDet3(m.r0.w, m.r0.x, m.r1.x, m.r2.x, m.r0.y, m.r1.y, m.r2.y, m.r0.z, m.r1.z, m.r2.z);
  }

  lemma AdjugateEntry03(m: Matrix)
    ensures MultiplyMatrix(m, Adjoint(m)).r0.w == 0.0
  {
    CofactorSum03(m);
    EntryOfProduct(m, Adjoint(m), 0, 3,
      Vector(-MatrixDetInternal(m.r0.y, m.r1.y, m.r2.y, m.r0.z, m.r1.z, m.r2.z, m.r0.w, m.r1.w, m.r2.w), MatrixDetInternal(m.r0.x, m.r1.x, m.r2.x, m.r0.z, m.r1.z, m.r2.z, m.r0.w, m.r1.w, m.r2.w), -MatrixDetInternal(m.r0.x, m.r1.x, m.r2.x, m.r0.y, m.r1.y, m.r2.y, m.r0.w, m.r1.w, m.r2.w), MatrixDetInternal(m.r0.x, m.r1.x, m.r2.x, m.r0.y, m.r1.y, m.r2.y, m.r0.z, m.r1.z, m.r2.z)),
      0.0);
  }

  lemma CofactorSum10(m: Matrix)
    ensures m.r1.x * MatrixDetInternal(m.r1.y, m.r2.y, m.r3.y, m.r1.z, m.r2.z, m.r3.z, m.r1.w, m.r2.w, m.r3.w)
          + m.r1.y * -MatrixDetInternal(m.r1.x, m.r2.x, m.r3.x, m.r1.z, m.r2.z, m.r3.z, m.r1.w, m.r2.w, m.r3.w)
          + m.r1.z * MatrixDetInternal(m.r1.x, m.r2.x, m.r3.x, m.r1.y, m.r2.y, m.r3.y, m.r1.w, m.r2.w, m.r3.w)
          + m.r1.w * -MatrixDetInternal(m.r1.x, m.r2.x, m.r3.x, m.r1.y, m.r2.y, m.r3.y, m.r1.z, m.r2.z, m.r3.z)
         == 0.0
  {
    MulDet3(m.r1.x, m.r1.y, m.r2.y, m.r3.y, m.r1.z, m.r2.z, m.r3.z, m.r1.w, m.r2.w, m.r3.w);
    MulNegDet3(m.r1.y, m.r1.x, m.r2.x, m.r3.x, m.r1.z, m.r2.z, m.r3.z, m.r1.w, m.r2.w, m.r3.w);
    MulDet3(m.r1.z, m.r1.x, m.r2.x, m.r3.x, m.r1.y, m.r2.y, m.r3.y, m.r1.w, m.r2.w, m.r3.w);
    MulNegDet3(m.r1.w, m.r1.x, m.r2.x, m.r3.x, m.r1.y, m.r2.y, m.r3.y, m.r1.z, m.r2.z, m.r3.z);
  }

  lemma AdjugateEntry10(m: Matrix)
    ensures MultiplyMatrix(m, Adjoint(m)).r1.x == 0.0
  {
    CofactorSum10(m);
    EntryOfProduct(m, Adjoint(m), 1, 0,
      Vector(MatrixDetInternal(m.r1.y, m.r2.y, m.r3.y, m.r1.z, m.r2.z, m.r3.z, m.r1.w, m.r2.w, m.r3.w), -MatrixDetInternal(m.r1.x, m.r2.x, m.r3.x, m.r1.z, m.r2.z, m.r3.z, m.r1.w, m.r2.w, m.r3.w), MatrixDetInternal(m.r1.x, m.r2.x, m.r3.x, m.r1.y, m.r2.y, m.r3.y, m.r1.w, m.r2.w, m.r3.w), -MatrixDetInternal(m.r1.x, m.r2.x, m.r3.x, m.r1.y, m.r2.y, m.r3.y, m.r1.z, m.r2.z, m.r3.z)),
      0.0);
  }

  lemma CofactorSum11(m: Matrix)
    ensures m.r1.x * -MatrixDetInternal(m.r0.y, m.r2.y, m.r3.y, m.r0.z, m.r2.z, m.r3.z, m.r0.w, m.r2.w, m.r3.w)
          + m.r1.y * MatrixDetInternal(m.r0.x, m.r2.x, m.r3.x, m.r0.z, m.r2.z, m.r3.z, m.r0.w, m.r2.w, m.r3.w)
          + m.r1.z * -MatrixDetInternal(m.r0.x, m.r2.x, m.r3.x, m.r0.y, m.r2.y, m.r3.y, m.r0.w, m.r2.w, m.r3.w)
          + m.r1.w * MatrixDetInternal(m.r0.x, m.r2.x, m.r3.x, m.r0.y, m.r2.y, m.r3.y, m.r0.z, m.r2.z, m.r3.z)
         == Leibniz(m)
  {
    MulNegDet3(m.r1.x, m.r0.y, m.r2.y, m.r3.y, m.r0.z, m.r2.z, m.r3.z, m.r0.w, m.r2.w, m.r3.w);
    MulDet3(m.r1.y, m.r0.x, m.r2.x, m.r3.x, m.r0.z, m.r2.z, m.r3.z, m.r0.w, m.r2.w, m.r3.w);
    MulNegDet3(m.r1.z, m.r0.x, m.r2.x, m.r3.x, m.r0.y, m.r2.y, m.r3.y, m.r0.w, m.r2.w, m.r3.w);
    MulDet3(m.r1.w, m.r0.x, m.r2.x, m.r3.x, m.r0.y, m.r2.y, m.r3.y, m.r0.z, m.r2.z, m.r3.z);
  }

  lemma AdjugateEntry11(m: Matrix)
    ensures MultiplyMatrix(m, Adjoint(m)).r1.y == MatrixDeterminant(m)
  {
    CofactorSum11(m);
    EntryOfProduct(m, Adjoint(m), 1, 1,
      Vector(-MatrixDetInternal(m.r0.y, m.r2.y, m.r3.y, m.r0.z, m.r2.z, m.r3.z, m.r0.w, m.r2.w, m.r3.w), MatrixDetInternal(m.r0.x, m.r2.x, m.r3.x, m.r0.z, m.r2.z, m.r3.z, m.r0.w, m.r2.w, m.r3.w), -MatrixDetInternal(m.r0.x, m.r2.x, m.r3.x, m.r0.y, m.r2.y, m.r3.y, m.r0.w, m.r2.w, m.r3.w), MatrixDetInternal(m.r0.x, m.r2.x, m.r3.x, m.r0.y, m.r2.y, m.r3.y, m.r0.z, m.r2.z, m.r3.z)),
      Leibniz(m));
    DeterminantIsLeibniz(m);
  }

  lemma CofactorSum12(m: Matrix)
    ensures m.r1.x * MatrixDetInternal(m.r0.y, m.r1.y, m.r3.y, m.r0.z, m.r1.z, m.r3.z, m.r0.w, m.r1.w, m.r3.w)
          + m.r1.y * -MatrixDetInternal(m.r0.x, m.r1.x, m.r3.x, m.r0.z, m.r1.z, m.r3.z, m.r0.w, m.r1.w, m.r3.w)
          + m.r1.z * MatrixDetInternal(m.r0.x, m.r1.x, m.r3.x, m.r0.y, m.r1.y, m.r3.y, m.r0.w, m.r1.w, m.r3.w)
          + m.r1.w * -MatrixDetInternal(m.r0.x, m.r1.x, m.r3.x, m.r0.y, m.r1.y, m.r3.y, m.r0.z, m.r1.z, m.r3.z)
         == 0.0
  {
    MulDet3(m.r1.x, m.r0.y, m.r1.y, m.r3.y, m.r0.z, m.r1.z, m.r3.z, m.r0.w, m.r1.w, m.r3.w);
    MulNegDet3(m.r1.y, m.r0.x, m.r1.x, m.r3.x, m.r0.z, m.r1.z, m.r3.z, m.r0.w, m.r1.w, m.r3.w);
    MulDet3(m.r1.z, m.r0.x, m.r1.x, m.r3.x, m.r0.y, m.r1.y, m.r3.y, m.r0.w, m.r1.w, m.r3.w);
    MulNegDet3(m.r1.w, m.r0.x, m.r1.x, m.r3.x, m.r0.y, m.r1.y, m.r3.y, m.r0.z, m.r1.z, m.r3.z);
  }

  lemma AdjugateEntry12(m: Matrix)
    ensures MultiplyMatrix(m, Adjoint(m)).r1.z == 0.0
  {
    CofactorSum12(m);
    EntryOfProduct(m, Adjoint(m), 1, 2,
      Vector(MatrixDetInternal(m.r0.y, m.r1.y, m.r3.y, m.r0.z, m.r1.z, m.r3.z, m.r0.w, m.r1.w, m.r3.w), -MatrixDetInternal(m.r0.x, m.r1.x, m.r3.x, m.r0.z, m.r1.z, m.r3.z, m.r0.w, m.r1.w, m.r3.w), MatrixDetInternal(m.r0.x, m.r1.x, m.r3.x, m.r0.y, m.r1.y, m.r3.y, m.r0.w, m.r1.w, m.r3.w), -MatrixDetInternal(m.r0.x, m.r1.x, m.r3.x, m.r0.y, m.r1.y, m.r3.y, m.r0.z, m.r1.z, m.r3.z)),
      0.0);
  }

  lemma CofactorSum13(m: Matrix)
    ensures m.r1.x * -MatrixDetInternal(m.r0.y, m.r1.y, m.r2.y, m.r0.z, m.r1.z, m.r2.z, m.r0.w, m.r1.w, m.r2.w)
          + m.r1.y * MatrixDetInternal(m.r0.x, m.r1.x, m.r2.x, m.r0.z, m.r1.z, m.r2.z, m.r0.w, m.r1.w, m.r2.w)
          + m.r1.z * -MatrixDetInternal(m.r0.x, m.r1.x, m.r2.x, m.r0.y, m.r1.y, m.r2.y, m.r0.w, m.r1.w, m.r2.w)
          + m.r1.w * MatrixDetInternal(m.r0.x, m.r1.x, m.r2.x, m.r0.y, m.r1.y, m.r2.y, m.r0.z, m.r1.z, m.r2.z)
         == 0.0
  {
    MulNegDet3(m.r1.x, m.r0.y, m.r1.y, m.r2.y, m.r0.z, m.r1.z, m.r2.z, m.r0.w, m.r1.w, m.r2.w);
    MulDet3(m.r1.y, m.r0.x, m.r1.x, m.r2.x, m.r0.z, m.r1.z, m.r2.z, m.r0.w, m.r1.w, m.r2.w);
    MulNegDet3(m.r1.z, m.r0.x, m.r1.x, m.r2.x, m.r0.y, m.r1.y, m.r2.y, m.r0.w, m.r1.w, m.r2.w);
    MulDet3(m.r1.w, m.r0.x, m.r1.x, m.r2.x, m.r0.y, m.r1.y, m.r2.y, m.r0.z, m.r1.z, m.r2.z);
  }

  lemma AdjugateEntry13(m: Matrix)
    ensures MultiplyMatrix(m, Adjoint(m)).r1.w == 0.0
  {
    CofactorSum13(m);
    EntryOfProduct(m, Adjoint(m), 1, 3,
      Vector(-MatrixDetInternal(m.r0.y, m.r1.y, m.r2.y, m.r0.z, m.r1.z, m.r2.z, m.r0.w, m.r1.w, m.r2.w), MatrixDetInternal(m.r0.x, m.r1.x, m.r2.x, m.r0.z, m.r1.z, m.r2.z, m.r0.w, m.r1.w, m.r2.w), -MatrixDetInternal(m.r0.x, m.r1.x, m.r2.x, m.r0.y, m.r1.y, m.r2.y, m.r0.w, m.r1.w, m.r2.w), MatrixDetInternal(m.r0.x, m.r1.x, m.r2.x, m.r0.y, m.r1.y, m.r2.y, m.r0.z, m.r1.z, m.r2.z)),
      0.0);
  }

  lemma CofactorSum20(m: Matrix)
    ensures m.r2.x * MatrixDetInternal(m.r1.y, m.r2.y, m.r3.y, m.r1.z, m.r2.z, m.r3.z, m.r1.w, m.r2.w, m.r3.w)
          + m.r2.y * -MatrixDetInternal(m.r1.x, m.r2.x, m.r3.x, m.r1.z, m.r2.z, m.r3.z, m.r1.w, m.r2.w, m.r3.w)
          + m.r2.z * MatrixDetInternal(m.r1.x, m.r2.x, m.r3.x, m.r1.y, m.r2.y, m.r3.y, m.r1.w, m.r2.w, m.r3.w)
          + m.r2.w * -MatrixDetInternal(m.r1.x, m.r2.x, m.r3.x, m.r1.y, m.r2.y, m.r3.y, m.r1.z, m.r2.z, m.r3.z)
         == 0.0
  {
    MulDet3(m.r2.x, m.r1.y, m.r2.y, m.r3.y, m.r1.z, m.r2.z, m.r3.z, m.r1.w, m.r2.w, m.r3.w);
    MulNegDet3(m.r2.y, m.r1.x, m.r2.x, m.r3.x, m.r1.z, m.r2.z, m.r3.z, m.r1.w, m.r2.w, m.r3.w);
    MulDet3(m.r2.z, m.r1.x, m.r2.x, m.r3.x, m.r1.y, m.r2.y, m.r3.y, m.r1.w, m.r2.w, m.r3.w);
    MulNegDet3(m.r2.w, m.r1.x, m.r2.x, m.r3.x, m.r1.y, m.r2.y, m.r3.y, m.r1.z, m.r2.z, m.r3.z);
  }

  lemma AdjugateEntry20(m: Matrix)
    ensures MultiplyMatrix(m, Adjoint(m)).r2.x == 0.0
  {
    CofactorSum20(m);
    EntryOfProduct(m, Adjoint(m), 2, 0,
      Vector(MatrixDetInternal(m.r1.y, m.r2.y, m.r3.y, m.r1.z, m.r2.z, m.r3.z, m.r1.w, m.r2.w, m.r3.w), -MatrixDetInternal(m.r1.x, m.r2.x, m.r3.x, m.r1.z, m.r2.z, m.r3.z, m.r1.w, m.r2.w, m.r3.w), MatrixDetInternal(m.r1.x, m.r2.x, m.r3.x, m.r1.y, m.r2.y, m.r3.y, m.r1.w, m.r2.w, m.r3.w), -MatrixDetInternal(m.r1.x, m.r2.x, m.r3.x, m.r1.y, m.r2.y, m.r3.y, m.r1.z, m.r2.z, m.r3.z)),
      0.0);
  }

  lemma CofactorSum21(m: Matrix)
    ensures m.r2.x * -MatrixDetInternal(m.r0.y, m.r2.y, m.r3.y, m.r0.z, m.r2.z, m.r3.z, m.r0.w, m.r2.w, m.r3.w)
          + m.r2.y * MatrixDetInternal(m.r0.x, m.r2.x, m.r3.x, m.r0.z, m.r2.z, m.r3.z, m.r0.w, m.r2.w, m.r3.w)
          + m.r2.z * -MatrixDetInternal(m.r0.x, m.r2.x, m.r3.x, m.r0.y, m.r2.y, m.r3.y, m.r0.w, m.r2.w, m.r3.w)
          + m.r2.w * MatrixDetInternal(m.r0.x, m.r2.x, m.r3.x, m.r0.y, m.r2.y, m.r3.y, m.r0.z, m.r2.z, m.r3.z)
         == 0.0
  {
    MulNegDet3(m.r2.x, m.r0.y, m.r2.y, m.r3.y, m.r0.z, m.r2.z, m.r3.z, m.r0.w, m.r2.w, m.r3.w);
    MulDet3(m.r2.y, m.r0.x, m.r2.x, m.r3.x, m.r0.z, m.r2.z, m.r3.z, m.r0.w, m.r2.w, m.r3.w);
    MulNegDet3(m.r2.z, m.r0.x, m.r2.x, m.r3.x, m.r0.y, m.r2.y, m.r3.y, m.r0.w, m.r2.w, m.r3.w);
    MulDet3(m.r2.w, m.r0.x, m.r2.x, m.r3.x, m.r0.y, m.r2.y, m.r3.y, m.r0.z, m.r2.z, m.r3.z);
  }

  lemma AdjugateEntry21(m: Matrix)
    ensures MultiplyMatrix(m, Adjoint(m)).r2.y == 0.0
  {
    CofactorSum21(m);
    EntryOfProduct(m, Adjoint(m), 2, 1,
      Vector(-MatrixDetInternal(m.r0.y, m.r2.y, m.r3.y, m.r0.z, m.r2.z, m.r3.z, m.r0.w, m.r2.w, m.r3.w), MatrixDetInternal(m.r0.x, m.r2.x, m.r3.x, m.r0.z, m.r2.z, m.r3.z, m.r0.w, m.r2.w, m.r3.w), -MatrixDetInternal(m.r0.x, m.r2.x, m.r3.x, m.r0.y, m.r2.y, m.r3.y, m.r0.w, m.r2.w, m.r3.w), MatrixDetInternal(m.r0.x, m.r2.x, m.r3.x, m.r0.y, m.r2.y, m.r3.y, m.r0.z, m.r2.z, m.r3.z)),
      0.0);
  }

  lemma CofactorSum22(m: Matrix)
    ensures m.r2.x * MatrixDetInternal(m.r0.y, m.r1.y, m.r3.y, m.r0.z, m.r1.z, m.r3.z, m.r0.w, m.r1.w, m.r3.w)
          + m.r2.y * -MatrixDetInternal(m.r0.x, m.r1.x, m.r3.x, m.r0.z, m.r1.z, m.r3.z, m.r0.w, m.r1.w, m.r3.w)
          + m.r2.z * MatrixDetInternal(m.r0.x, m.r1.x, m.r3.x, m.r0.y, m.r1.y, m.r3.y, m.r0.w, m.r1.w, m.r3.w)
          + m.r2.w * -MatrixDetInternal(m.r0.x, m.r1.x, m.r3.x, m.r0.y, m.r1.y, m.r3.y, m.r0.z, m.r1.z, m.r3.z)
         == Leibniz(m)
  {
    MulDet3(m.r2.x, m.r0.y, m.r1.y, m.r3.y, m.r0.z, m.r1.z, m.r3.z, m.r0.w, m.r1.w, m.r3.w);
    MulNegDet3(m.r2.y, m.r0.x, m.r1.x, m.r3.x, m.r0.z, m.r1.z, m.r3.z, m.r0.w, m.r1.w, m.r3.w);
    MulDet3(m.r2.z, m.r0.x, m.r1.x, m.r3.x, m.r0.y, m.r1.y, m.r3.y, m.r0.w, m.r1.w, m.r3.w);
    MulNegDet3(m.r2.w, m.r0.x, m.r1.x, m.r3.x, m.r0.y, m.r1.y, m.r3.y, m.r0.z, m.r1.z, m.r3.z);
  }

  lemma AdjugateEntry22(m: Matrix)
    ensures MultiplyMatrix(m, Adjoint(m)).r2.z == MatrixDeterminant(m)
  {
    CofactorSum22(m);
    EntryOfProduct(m, Adjoint(m), 2, 2,
      Vector(MatrixDetInternal(m.r0.y, m.r1.y, m.r3.y, m.r0.z, m.r1.z, m.r3.z, m.r0.w, m.r1.w, m.r3.w), -MatrixDetInternal(m.r0.x, m.r1.x, m.r3.x, m.r0.z, m.r1.z, m.r3.z, m.r0.w, m.r1.w, m.r3.w), MatrixDetInternal(m.r0.x, m.r1.x, m.r3.x, m.r0.y, m.r1.y, m.r3.y, m.r0.w, m.r1.w, m.r3.w), -MatrixDetInternal(m.r0.x, m.r1.x, m.r3.x, m.r0.y, m.r1.y, m.r3.y, m.r0.z, m.r1.z, m.r3.z)),
      Leibniz(m));
    DeterminantIsLeibniz(m);
  }

  lemma CofactorSum23(m: Matrix)
    ensures m.r2.x * -MatrixDetInternal(m.r0.y, m.r1.y, m.r2.y, m.r0.z, m.r1.z, m.r2.z, m.r0.w, m.r1.w, m.r2.w)
          + m.r2.y * MatrixDetInternal(m.r0.x, m.r1.x, m.r2.x, m.r0.z, m.r1.z, m.r2.z, m.r0.w, m.r1.w, m.r2.w)
          + m.r2.z * -MatrixDetInternal(m.r0.x, m.r1.x, m.r2.x, m.r0.y, m.r1.y, m.r2.y, m.r0.w, m.r1.w, m.r2.w)
          + m.r2.w * MatrixDetInternal(m.r0.x, m.r1.x, m.r2.x, m.r0.y, m.r1.y, m.r2.y, m.r0.z, m.r1.z, m.r2.z)
         == 0.0
  {
    MulNegDet3(m.r2.x, m.r0.y, m.r1.y, m.r2.y, m.r0.z, m.r1.z, m.r2.z, m.r0.w, m.r1.w, m.r2.w);
    MulDet3(m.r2.y, m.r0.x, m.r1.x, m.r2.x, m.r0.z, m.r1.z, m.r2.z, m.r0.w, m.r1.w, m.r2.w);
    MulNegDet3(m.r2.z, m.r0.x, m.r1.x, m.r2.x, m.r0.y, m.r1.y, m.r2.y, m.r0.w, m.r1.w, m.r2.w);
    MulDet3(m.r2.w, m.r0.x, m.r1.x, m.r2.x, m.r0.y, m.r1.y, m.r2.y, m.r0.z, m.r1.z, m.r2.z);
  }

  lemma AdjugateEntry23(m: Matrix)
    ensures MultiplyMatrix(m, Adjoint(m)).r2.w == 0.0
  {
    CofactorSum23(m);
    EntryOfProduct(m, Adjoint(m), 2, 3,
      Vector(-MatrixDetInternal(m.r0.y, m.r1.y, m.r2.y, m.r0.z, m.r1.z, m.r2.z, m.r0.w, m.r1.w, m.r2.w), MatrixDetInternal(m.r0.x, m.r1.x, m.r2.x, m.r0.z, m.r1.z, m.r2.z, m.r0.w, m.r1.w, m.r2.w), -MatrixDetInternal(m.r0.x, m.r1.x, m.r2.x, m.r0.y, m.r1.y, m.r2.y, m.r0.w, m.r1.w, m.r2.w), MatrixDetInternal(m.r0.x, m.r1.x, m.r2.x, m.r0.y, m.r1.y, m.r2.y, m.r0.z, m.r1.z, m.r2.z)),
      0.0);
  }

  lemma CofactorSum30(m: Matrix)
    ensures m.r3.x * MatrixDetInternal(m.r1.y, m.r2.y, m.r3.y, m.r1.z, m.r2.z, m.r3.z, m.r1.w, m.r2.w, m.r3.w)
          + m.r3.y * -MatrixDetInternal(m.r1.x, m.r2.x, m.r3.x, m.r1.z, m.r2.z, m.r3.z, m.r1.w, m.r2.w, m.r3.w)
          + m.r3.z * MatrixDetInternal(m.r1.x, m.r2.x, m.r3.x, m.r1.y, m.r2.y, m.r3.y, m.r1.w, m.r2.w, m.r3.w)
          + m.r3.w * -MatrixDetInternal(m.r1.x, m.r2.x, m.r3.x, m.r1.y, m.r2.y, m.r3.y, m.r1.z, m.r2.z, m.r3.z)
         == 0.0
  {
    MulDet3(m.r3.x, m.r1.y, m.r2.y, m.r3.y, m.r1.z, m.r2.z, m.r3.z, m.r1.w, m.r2.w, m.r3.w);
    MulNegDet3(m.r3.y, m.r1.x, m.r2.x, m.r3.x, m.r1.z, m.r2.z, m.r3.z, m.r1.w, m.r2.w, m.r3.w);
    MulDet3(m.r3.z, m.r1.x, m.r2.x, m.r3.x, m.r1.y, m.r2.y, m.r3.y, m.r1.w, m.r2.w, m.r3.w);
    MulNegDet3(m.r3.w, m.r1.x, m.r2.x, m.r3.x, m.r1.y, m.r2.y, m.r3.y, m.r1.z, m.r2.z, m.r3.z);
  }

  lemma AdjugateEntry30(m: Matrix)
    ensures MultiplyMatrix(m, Adjoint(m)).r3.x == 0.0
  {
    CofactorSum30(m);
    EntryOfProduct(m, Adjoint(m), 3, 0,
      Vector(MatrixDetInternal(m.r1.y, m.r2.y, m.r3.y, m.r1.z, m.r2.z, m.r3.z, m.r1.w, m.r2.w, m.r3.w), -MatrixDetInternal(m.r1.x, m.r2.x, m.r3.x, m.r1.z, m.r2.z, m.r3.z, m.r1.w, m.r2.w, m.r3.w), MatrixDetInternal(m.r1.x, m.r2.x, m.r3.x, m.r1.y, m.r2.y, m.r3.y, m.r1.w, m.r2.w, m.r3.w), -MatrixDetInternal(m.r1.x, m.r2.x, m.r3.x, m.r1.y, m.r2.y, m.r3.y, m.r1.z, m.r2.z, m.r3.z)),
      0.0);
  }

  lemma CofactorSum31(m: Matrix)
    ensures m.r3.x * -MatrixDetInternal(m.r0.y, m.r2.y, m.r3.y, m.r0.z, m.r2.z, m.r3.z, m.r0.w, m.r2.w, m.r3.w)
          + m.r3.y * MatrixDetInternal(m.r0.x, m.r2.x, m.r3.x, m.r0.z, m.r2.z, m.r3.z, m.r0.w, m.r2.w, m.r3.w)
          + m.r3.z * -MatrixDetInternal(m.r0.x, m.r2.x, m.r3.x, m.r0.y, m.r2.y, m.r3.y, m.r0.w, m.r2.w, m.r3.w)
          + m.r3.w * MatrixDetInternal(m.r0.x, m.r2.x, m.r3.x, m.r0.y, m.r2.y, m.r3.y, m.r0.z, m.r2.z, m.r3.z)
         == 0.0
  {
    MulNegDet3(m.r3.x, m.r0.y, m.r2.y, m.r3.y, m.r0.z, m.r2.z, m.r3.z, m.r0.w, m.r2.w, m.r3.w);
    MulDet3(m.r3.y, m.r0.x, m.r2.x, m.r3.x, m.r0.z, m.r2.z, m.r3.z, m.r0.w, m.r2.w, m.r3.w);
    MulNegDet3(m.r3.z, m.r0.x, m.r2.x, m.r3.x, m.r0.y, m.r2.y, m.r3.y, m.r0.w, m.r2.w, m.r3.w);
    MulDet3(m.r3.w, m.r0.x, m.r2.x, m.r3.x, m.r0.y, m.r2.y, m.r3.y, m.r0.z, m.r2.z, m.r3.z);
  }

  lemma AdjugateEntry31(m: Matrix)
    ensures MultiplyMatrix(m, Adjoint(m)).r3.y == 0.0
  {
    CofactorSum31(m);
    EntryOfProduct(m, Adjoint(m), 3, 1,
      Vector(-MatrixDetInternal(m.r0.y, m.r2.y, m.r3.y, m.r0.z, m.r2.z, m.r3.z, m.r0.w, m.r2.w, m.r3.w), MatrixDetInternal(m.r0.x, m.r2.x, m.r3.x, m.r0.z, m.r2.z, m.r3.z, m.r0.w, m.r2.w, m.r3.w), -MatrixDetInternal(m.r0.x, m.r2.x, m.r3.x, m.r0.y, m.r2.y, m.r3.y, m.r0.w, m.r2.w, m.r3.w), MatrixDetInternal(m.r0.x, m.r2.x, m.r3.x, m.r0.y, m.r2.y, m.r3.y, m.r0.z, m.r2.z, m.r3.z)),
      0.0);
  }

  lemma CofactorSum32(m: Matrix)
    ensures m.r3.x * MatrixDetInternal(m.r0.y, m.r1.y, m.r3.y, m.r0.z, m.r1.z, m.r3.z, m.r0.w, m.r1.w, m.r3.w)
          + m.r3.y * -MatrixDetInternal(m.r0.x, m.r1.x, m.r3.x, m.r0.z, m.r1.z, m.r3.z, m.r0.w, m.r1.w, m.r3.w)
          + m.r3.z * MatrixDetInternal(m.r0.x, m.r1.x, m.r3.x, m.r0.y, m.r1.y, m.r3.y, m.r0.w, m.r1.w, m.r3.w)
          + m.r3.w * -MatrixDetInternal(m.r0.x, m.r1.x, m.r3.x, m.r0.y, m.r1.y, m.r3.y, m.r0.z, m.r1.z, m.r3.z)
         == 0.0
  {
    MulDet3(m.r3.x, m.r0.y, m.r1.y, m.r3.y, m.r0.z, m.r1.z, m.r3.z, m.r0.w, m.r1.w, m.r3.w);
    MulNegDet3(m.r3.y, m.r0.x, m.r1.x, m.r3.x, m.r0.z, m.r1.z, m.r3.z, m.r0.w, m.r1.w, m.r3.w);
    MulDet3(m.r3.z, m.r0.x, m.r1.x, m.r3.x, m.r0.y, m.r1.y, m.r3.y, m.r0.w, m.r1.w, m.r3.w);
    MulNegDet3(m.r3.w, m.r0.x, m.r1.x, m.r3.x, m.r0.y, m.r1.y, m.r3.y, m.r0.z, m.r1.z, m.r3.z);
  }

  lemma AdjugateEntry32(m: Matrix)
    ensures MultiplyMatrix(m, Adjoint(m)).r3.z == 0.0
  {
    CofactorSum32(m);
    EntryOfProduct(m, Adjoint(m), 3, 2,
      Vector(MatrixDetInternal(m.r0.y, m.r1.y, m.r3.y, m.r0.z, m.r1.z, m.r3.z, m.r0.w, m.r1.w, m.r3.w), -MatrixDetInternal(m.r0.x, m.r1.x, m.r3.x, m.r0.z, m.r1.z, m.r3.z, m.r0.w, m.r1.w, m.r3.w), MatrixDetInternal(m.r0.x, m.r1.x, m.r3.x, m.r0.y, m.r1.y, m.r3.y, m.r0.w, m.r1.w, m.r3.w), -MatrixDetInternal(m.r0.x, m.r1.x, m.r3.x, m.r0.y, m.r1.y, m.r3.y, m.r0.z, m.r1.z, m.r3.z)),
      0.0);
  }

  lemma CofactorSum33(m: Matrix)
    ensures m.r3.x * -MatrixDetInternal(m.r0.y, m.r1.y, m.r2.y, m.r0.z, m.r1.z, m.r2.z, m.r0.w, m.r1.w, m.r2.w)
          + m.r3.y * MatrixDetInternal(m.r0.x, m.r1.x, m.r2.x, m.r0.z, m.r1.z, m.r2.z, m.r0.w, m.r1.w, m.r2.w)
          + m.r3.z * -MatrixDetInternal(m.r0.x, m.r1.x, m.r2.x, m.r0.y, m.r1.y, m.r2.y, m.r0.w, m.r1.w, m.r2.w)
          + m.r3.w * MatrixDetInternal(m.r0.x, m.r1.x, m.r2.x, m.r0.y, m.r1.y, m.r2.y, m.r0.z, m.r1.z, m.r2.z)
         == Leibniz(m)
  {
    MulNegDet3(m.r3.x, m.r0.y, m.r1.y, m.r2.y, m.r0.z, m.r1.z, m.r2.z, m.r0.w, m.r1.w, m.r2.w);
    MulDet3(m.r3.y, m.r0.x, m.r1.x, m.r2.x, m.r0.z, m.r1.z, m.r2.z, m.r0.w, m.r1.w, m.r2.w);
    MulNegDet3(m.r3.z, m.r0.x, m.r1.x, m.r2.x, m.r0.y, m.r1.y, m.r2.y, m.r0.w, m.r1.w, m.r2.w);
    MulDet3(m.r3.w, m.r0.x, m.r1.x, m.r2.x, m.r0.y, m.r1.y, m.r2.y, m.r0.z, m.r1.z, m.r2.z);
  }

  lemma AdjugateEntry33(m: Matrix)
    ensures MultiplyMatrix(m, Adjoint(m)).r3.w == MatrixDeterminant(m)
  {
    CofactorSum33(m);
    EntryOfProduct(m, Adjoint(m), 3, 3,
      Vector(-MatrixDetInternal(m.r0.y, m.r1.y, m.r2.y, m.r0.z, m.r1.z, m.r2.z, m.r0.w, m.r1.w, m.r2.w), MatrixDetInternal(m.r0.x, m.r1.x, m.r2.x, m.r0.z, m.r1.z, m.r2.z, m.r0.w, m.r1.w, m.r2.w), -MatrixDetInternal(m.r0.x, m.r1.x, m.r2.x, m.r0.y, m.r1.y, m.r2.y, m.r0.w, m.r1.w, m.r2.w), MatrixDetInternal(m.r0.x, m.r1.x, m.r2.x, m.r0.y, m.r1.y, m.r2.y, m.r0.z, m.r1.z, m.r2.z)),
      Leibniz(m));
    DeterminantIsLeibniz(m);
  }

  /** m times its adjugate is det(m) times the identity. */
  lemma MultiplyAdjoint(m: Matrix)
    ensures MultiplyMatrix(m, Adjoint(m)) == Scaled(Identity, MatrixDeterminant(m))
  {
    AdjugateEntry00(m); AdjugateEntry01(m); AdjugateEntry02(m); AdjugateEntry03(m);
    AdjugateEntry10(m); AdjugateEntry11(m); AdjugateEntry12(m); AdjugateEntry13(m);
    AdjugateEntry20(m); AdjugateEntry21(m); AdjugateEntry22(m); AdjugateEntry23(m);
    AdjugateEntry30(m); AdjugateEntry31(m); AdjugateEntry32(m); AdjugateEntry33(m);
    var l := MultiplyMatrix(m, Adjoint(m));
    var r := Scaled(Identity, MatrixDeterminant(m));
    assert l.r0 == r.r0 && l.r1 == r.r1 && l.r2 == r.r2 && l.r3 == r.r3;
  }

  /** Every entry of m multiplied by `factor`: the specification of ScaleMatrix. */
  function Scaled(m: Matrix, factor: real): Matrix
  {
    Matrix(ScaleVector(m.r0, factor), ScaleVector(m.r1, factor),
           ScaleVector(m.r2, factor), ScaleVector(m.r3, factor))
  }

  /** ScaleMatrix fills the result entry by entry in a nested loop. */
  method ScaleMatrix(m: Matrix, factor: real) returns (result: Matrix)
    ensures forall i, j :: 0 <= i < 4 && 0 <= j < 4 ==> result.At(i, j) == m.At(i, j) * factor
    ensures result == Scaled(m, factor)
  {
    result := ZeroMatrix;
    for i := 0 to 4
      invariant forall i', j :: 0 <= i' < i && 0 <= j < 4 ==> result.At(i', j) == m.At(i', j) * factor
    {
      for j := 0 to 4
        invariant forall i', j' :: 0 <= i' < i && 0 <= j' < 4 ==> result.At(i', j') == m.At(i', j') * factor
        invariant forall j' :: 0 <= j' < j ==> result.At(i, j') == m.At(i, j') * factor
      {
        result := result.Set(i, j, m.At(i, j) * factor);
      }
    }
    forall i, j | 0 <= i < 4 && 0 <= j < 4
      ensures result.At(i, j) == Scaled(m, factor).At(i, j)
    {
      ScaledAt(m, factor, i, j);
    }
    MatrixExt(result, Scaled(m, factor));
  }

  lemma ScaledAt(m: Matrix, factor: real, i: nat, j: nat)
    requires i < 4 && j < 4
    ensures Scaled(m, factor).At(i, j) == m.At(i, j) * factor
  {
    assert Scaled(m, factor).Row(i) == ScaleVector(m.Row(i), factor);
    ScaleAt(m.Row(i), factor, j);
  }

  /** InvertMatrix treats determinants below this magnitude as singular. */
  const InvertEpsilon: real := 0.0000000000000000000000000000000000000001

  /** InvertMatrix: the identity for a (nearly) singular matrix, otherwise the adjugate over det. */
  function InvertMatrix(m: Matrix): (r: Matrix)
    ensures Abs(MatrixDeterminant(m)) < InvertEpsilon ==> r == Identity
    ensures Abs(MatrixDeterminant(m)) >= InvertEpsilon ==>
              r == Scaled(Adjoint(m), 1.0 / MatrixDeterminant(m))
  {
    var det := MatrixDeterminant(m);
    if Abs(det) < InvertEpsilon then Identity
    else Scaled(Adjoint(m), 1.0 / det)
  }

  /** Scaling the right factor scales the product. */
  lemma MultiplyScaled(m: Matrix, a: Matrix, s: real)
    ensures MultiplyMatrix(m, Scaled(a, s)) == Scaled(MultiplyMatrix(m, a), s)
  {
    TransformScaled(m.r0, a, s);
    TransformScaled(m.r1, a, s);
    TransformScaled(m.r2, a, s);
    TransformScaled(m.r3, a, s);
  }

  lemma TransformScaled(v: Vector, a: Matrix, s: real)
    ensures VectorTransform(v, Scaled(a, s)) == ScaleVector(VectorTransform(v, a), s)
  {
    var t := VectorTransform(v, a);
    TransformScaledX(v, a, s);
    TransformScaledY(v, a, s);
    TransformScaledZ(v, a, s);
    TransformScaledW(v, a, s);
    ScaleComponents(t, s);
    VectorExt(VectorTransform(v, Scaled(a, s)), ScaleVector(t, s));
  }

  lemma TransformScaledX(v: Vector, a: Matrix, s: real)
    ensures VectorTransform(v, Scaled(a, s)).x == VectorTransform(v, a).x * s
  {
    var sa := Scaled(a, s);
    TransformComponents(v, a);
    TransformComponents(v, sa);
    ScaledComponents(a, s);
    Distribute(v.x, v.y, v.z, v.w, a.r0.x, a.r1.x, a.r2.x, a.r3.x, s, sa.r0.x, sa.r1.x, sa.r2.x, sa.r3.x, VectorTransform(v, a).x);
  }

  lemma TransformScaledY(v: Vector, a: Matrix, s: real)
    ensures VectorTransform(v, Scaled(a, s)).y == VectorTransform(v, a).y * s
  {
    var sa := Scaled(a, s);
    TransformComponents(v, a);
    TransformComponents(v, sa);
    ScaledComponents(a, s);
    Distribute(v.x, v.y, v.z, v.w, a.r0.y, a.r1.y, a.r2.y, a.r3.y, s, sa.r0.y, sa.r1.y, sa.r2.y, sa.r3.y, VectorTransform(v, a).y);
  }

  lemma TransformScaledZ(v: Vector, a: Matrix, s: real)
    ensures VectorTransform(v, Scaled(a, s)).z == VectorTransform(v, a).z * s
  {
    var sa := Scaled(a, s);
    TransformComponents(v, a);
    TransformComponents(v, sa);
    ScaledComponents(a, s);
    Distribute(v.x, v.y, v.z, v.w, a.r0.z, a.r1.z, a.r2.z, a.r3.z, s, sa.r0.z, sa.r1.z, sa.r2.z, sa.r3.z, VectorTransform(v, a).z);
  }

  lemma TransformScaledW(v: Vector, a: Matrix, s: real)
    ensures VectorTransform(v, Scaled(a, s)).w == VectorTransform(v, a).w * s
  {
    var sa := Scaled(a, s);
    TransformComponents(v, a);
    TransformComponents(v, sa);
    ScaledComponents(a, s);
    Distribute(v.x, v.y, v.z, v.w, a.r0.w, a.r1.w, a.r2.w, a.r3.w, s, sa.r0.w, sa.r1.w, sa.r2.w, sa.r3.w, VectorTransform(v, a).w);
  }

  lemma TransformComponents(v: Vector, m: Matrix)
    ensures VectorTransform(v, m).x == v.x * m.r0.x + v.y * m.r1.x + v.z * m.r2.x + v.w * m.r3.x
    ensures VectorTransform(v, m).y == v.x * m.r0.y + v.y * m.r1.y + v.z * m.r2.y + v.w * m.r3.y
    ensures VectorTransform(v, m).z == v.x * m.r0.z + v.y * m.r1.z + v.z * m.r2.z + v.w * m.r3.z
    ensures VectorTransform(v, m).w == v.x * m.r0.w + v.y * m.r1.w + v.z * m.r2.w + v.w * m.r3.w
  {
  }

  lemma ScaledComponents(a: Matrix, s: real)
    ensures Scaled(a, s).r0.x == a.r0.x * s && Scaled(a, s).r1.x == a.r1.x * s && Scaled(a, s).r2.x == a.r2.x * s && Scaled(a, s).r3.x == a.r3.x * s
    ensures Scaled(a, s).r0.y == a.r0.y * s && Scaled(a, s).r1.y == a.r1.y * s && Scaled(a, s).r2.y == a.r2.y * s && Scaled(a, s).r3.y == a.r3.y * s
    ensures Scaled(a, s).r0.z == a.r0.z * s && Scaled(a, s).r1.z == a.r1.z * s && Scaled(a, s).r2.z == a.r2.z * s && Scaled(a, s).r3.z == a.r3.z * s
    ensures Scaled(a, s).r0.w == a.r0.w * s && Scaled(a, s).r1.w == a.r1.w * s && Scaled(a, s).r2.w == a.r2.w * s && Scaled(a, s).r3.w == a.r3.w * s
  {
  }

  lemma ScaleComponents(u: Vector, s: real)
    ensures ScaleVector(u, s).x == u.x * s && ScaleVector(u, s).y == u.y * s
    ensures ScaleVector(u, s).z == u.z * s && ScaleVector(u, s).w == u.w * s
  {
  }

  lemma VectorExt(u: Vector, t: Vector)
    requires u.x == t.x && u.y == t.y && u.z == t.z && u.w == t.w
    ensures u == t
  {
  }

  /** A four-term dot product with one side scaled, multiplied out. */
  lemma Distribute(v0: real, v1: real, v2: real, v3: real, a0: real, a1: real, a2: real, a3: real, s: real,
                   c0: real, c1: real, c2: real, c3: real, t: real)
    requires c0 == a0 * s && c1 == a1 * s && c2 == a2 * s && c3 == a3 * s
    requires t == v0 * a0 + v1 * a1 + v2 * a2 + v3 * a3
    ensures v0 * c0 + v1 * c1 + v2 * c2 + v3 * c3 == t * s
  {
  }

  /** Whenever InvertMatrix does not fall back to the identity, it returns a right inverse. */
  lemma InvertIsRightInverse(m: Matrix)
    requires Abs(MatrixDeterminant(m)) >= InvertEpsilon
    ensures MultiplyMatrix(m, InvertMatrix(m)) == Identity
  {
    MultiplyAdjoint(m);
    InverseOfAdjugate(m, Adjoint(m), MatrixDeterminant(m));
  }

  /** A matrix whose product with m is det times the identity, scaled by 1 / det, is a right inverse of m. */
  lemma InverseOfAdjugate(m: Matrix, adj: Matrix, det: real)
    requires det != 0.0 && MultiplyMatrix(m, adj) == Scaled(Identity, det)
    ensures MultiplyMatrix(m, Scaled(adj, 1.0 / det)) == Identity
  {
    MultiplyScaled(m, adj, 1.0 / det);
    assert det * (1.0 / det) == 1.0;
    assert Scaled(Scaled(Identity, det), 1.0 / det) == Identity;
  }

  /** The three camera axes of ViewMatrix, before they are laid out. */
  datatype CameraAxes = CameraAxes(side: Vector, up: Vector, forward: Vector)

  function ViewAxes(eye: Vector, target: Vector, up: Vector, sqrt: real -> real): CameraAxes
  {
    var forward := NormalizeVector(SubVector(target, eye), sqrt);
    var side := NormalizeVector(CrossProduct(forward, up), sqrt);
    var up' := NormalizeVector(CrossProduct(side, forward), sqrt);
    CameraAxes(side, up', forward)
  }

  /**
   * ViewMatrix: columns side, up and -forward, last column (0, 0, 0, 1), and
   * a bottom row of the axes' dot products with the eye.
   */
  function ViewMatrix(eye: Vector, target: Vector, up: Vector, sqrt: real -> real): (r: Matrix)
    ensures var ax := ViewAxes(eye, target, up, sqrt);
            r.r0.w == 0.0 && r.r1.w == 0.0 && r.r2.w == 0.0 && r.r3.w == 1.0 &&
            r.r3 == Vector(Dot(ax.side, eye), Dot(ax.up, eye), Dot(ax.forward, eye), 1.0) &&
            Vector(r.r0.x, r.r1.x, r.r2.x, 0.0) == Spatial(ax.side) &&
            Vector(r.r0.y, r.r1.y, r.r2.y, 0.0) == Spatial(ax.up) &&
            Vector(-r.r0.z, -r.r1.z, -r.r2.z, 0.0) == Spatial(ax.forward)
  {
    var ax := ViewAxes(eye, target, up, sqrt);
    var side, up', forward := ax.side, ax.up, ax.forward;
    Matrix(Vector(side.x, up'.x, -forward.x, 0.0),
           Vector(side.y, up'.y, -forward.y, 0.0),
           Vector(side.z, up'.z, -forward.z, 0.0),
           Vector(Dot(side, eye), Dot(up', eye), Dot(forward, eye), 1.0))
  }

  /** Normalising either argument keeps a zero dot product zero. */
  lemma NormalizePreservesOrthogonal(a: Vector, b: Vector, sqrt: real -> real)
    requires Dot(a, b) == 0.0
    ensures Dot(NormalizeVector(a, sqrt), b) == 0.0
    ensures Dot(b, NormalizeVector(a, sqrt)) == 0.0
  {
    var n := sqrt(SquaredNorm(a));
    if n != 0.0 {
      var k := 1.0 / n;
      assert Dot(NormalizeVector(a, sqrt), b) == k * Dot(a, b);
    }
  }

  /** Whatever the square root, the three camera axes are mutually orthogonal. */
  lemma ViewAxesOrthogonal(eye: Vector, target: Vector, up: Vector, sqrt: real -> real)
    ensures var ax := ViewAxes(eye, target, up, sqrt);
            Dot(ax.side, ax.forward) == 0.0 && Dot(ax.up, ax.side) == 0.0 && Dot(ax.up, ax.forward) == 0.0
  {
    var forward := NormalizeVector(SubVector(target, eye), sqrt);
    var c := CrossProduct(forward, up);
    var side := NormalizeVector(c, sqrt);
    NormalizePreservesOrthogonal(c, forward, sqrt);
    var c2 := CrossProduct(side, forward);
    NormalizePreservesOrthogonal(c2, side, sqrt);
    NormalizePreservesOrthogonal(c2, forward, sqrt);
  }
}
