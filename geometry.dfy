/**
 * The System.Numerics primitives the core uses, idealised over `real`:
 * vectors, 4x4 matrices and `Vector4.Transform`, which multiplies a ROW
 * vector by a matrix (v * M), the convention of System.Numerics.
 */
module Geometry {
  datatype Vec2 = Vec2(x: real, y: real)
  datatype Vec3 = Vec3(x: real, y: real, z: real)
  datatype Vec4 = Vec4(x: real, y: real, z: real, w: real)

  /** A 4x4 matrix; `mRC` is row R, column C. */
  datatype Matrix = Matrix(
    m11: real, m12: real, m13: real, m14: real,
    m21: real, m22: real, m23: real, m24: real,
    m31: real, m32: real, m33: real, m34: real,
    m41: real, m42: real, m43: real, m44: real)

  function Identity(): Matrix {
    Matrix(1.0, 0.0, 0.0, 0.0,
           0.0, 1.0, 0.0, 0.0,
           0.0, 0.0, 1.0, 0.0,
           0.0, 0.0, 0.0, 1.0)
  }

  /** `Matrix4x4.CreateScale(float)`: a uniform scale of x, y and z. */
  function Scale(s: real): Matrix {
    Matrix(s,   0.0, 0.0, 0.0,
           0.0, s,   0.0, 0.0,
           0.0, 0.0, s,   0.0,
           0.0, 0.0, 0.0, 1.0)
  }

  /** The dot product of v with the column (c1, c2, c3, c4). */
  function Dot(v: Vec4, c1: real, c2: real, c3: real, c4: real): real {
    v.x * c1 + v.y * c2 + v.z * c3 + v.w * c4
  }

  /** `Vector4.Transform(v, m)`: the row vector v times m, one column per component. */
  function Transform(v: Vec4, m: Matrix): Vec4 {
    Vec4(Dot(v, m.m11, m.m21, m.m31, m.m41),
         Dot(v, m.m12, m.m22, m.m32, m.m42),
         Dot(v, m.m13, m.m23, m.m33, m.m43),
         Dot(v, m.m14, m.m24, m.m34, m.m44))
  }

  /** The matrix product a * b (`Matrix4x4.operator *`): row R of a against column C of b. */
  function Mul(a: Matrix, b: Matrix): Matrix {
    var r1, r2 := Vec4(a.m11, a.m12, a.m13, a.m14), Vec4(a.m21, a.m22, a.m23, a.m24);
    var r3, r4 := Vec4(a.m31, a.m32, a.m33, a.m34), Vec4(a.m41, a.m42, a.m43, a.m44);
    Matrix(
      Dot(r1, b.m11, b.m21, b.m31, b.m41), Dot(r1, b.m12, b.m22, b.m32, b.m42),
      Dot(r1, b.m13, b.m23, b.m33, b.m43), Dot(r1, b.m14, b.m24, b.m34, b.m44),
      Dot(r2, b.m11, b.m21, b.m31, b.m41), Dot(r2, b.m12, b.m22, b.m32, b.m42),
      Dot(r2, b.m13, b.m23, b.m33, b.m43), Dot(r2, b.m14, b.m24, b.m34, b.m44),
      Dot(r3, b.m11, b.m21, b.m31, b.m41), Dot(r3, b.m12, b.m22, b.m32, b.m42),
      Dot(r3, b.m13, b.m23, b.m33, b.m43), Dot(r3, b.m14, b.m24, b.m34, b.m44),
      Dot(r4, b.m11, b.m21, b.m31, b.m41), Dot(r4, b.m12, b.m22, b.m32, b.m42),
      Dot(r4, b.m13, b.m23, b.m33, b.m43), Dot(r4, b.m14, b.m24, b.m34, b.m44))
  }

  /** Transforming by the identity changes nothing. */
  lemma TransformIdentity(v: Vec4)
    ensures Transform(v, Identity()) == v
  {
  }

  /** A uniform scale multiplies x, y and z and keeps w. */
  lemma TransformScale(v: Vec4, s: real)
    ensures Transform(v, Scale(s)) == Vec4(s * v.x, s * v.y, s * v.z, v.w)
  {
  }

  /**
   * One output component of (v * a) * b, expanded: the column (b1, b2, b3,
   * b4) of b applied after a equals v applied to the column a * (b1..b4).
   */
  lemma ColumnExpansion(v: Vec4, a: Matrix, b1: real, b2: real, b3: real, b4: real)
    ensures Dot(Transform(v, a), b1, b2, b3, b4)
         == Dot(v, Dot(Vec4(a.m11, a.m12, a.m13, a.m14), b1, b2, b3, b4),
                   Dot(Vec4(a.m21, a.m22, a.m23, a.m24), b1, b2, b3, b4),
                   Dot(Vec4(a.m31, a.m32, a.m33, a.m34), b1, b2, b3, b4),
                   Dot(Vec4(a.m41, a.m42, a.m43, a.m44), b1, b2, b3, b4))
  {
    Expand(v.x, v.y, v.z, v.w,
           a.m11, a.m12, a.m13, a.m14, a.m21, a.m22, a.m23, a.m24,
           a.m31, a.m32, a.m33, a.m34, a.m41, a.m42, a.m43, a.m44,
           b1, b2, b3, b4);
  }

  /** `ColumnExpansion` over the entries, as dot products of x with the columns of A and of the rows of A with b. */
  lemma Expand(x: real, y: real, z: real, w: real,
               a11: real, a12: real, a13: real, a14: real,
               a21: real, a22: real, a23: real, a24: real,
               a31: real, a32: real, a33: real, a34: real,
               a41: real, a42: real, a43: real, a44: real,
               b1: real, b2: real, b3: real, b4: real)
    ensures var v := Vec4(x, y, z, w);
      Dot(Vec4(Dot(v, a11, a21, a31, a41), Dot(v, a12, a22, a32, a42),
               Dot(v, a13, a23, a33, a43), Dot(v, a14, a24, a34, a44)), b1, b2, b3, b4)
      == Dot(v, Dot(Vec4(a11, a12, a13, a14), b1, b2, b3, b4), Dot(Vec4(a21, a22, a23, a24), b1, b2, b3, b4),
                Dot(Vec4(a31, a32, a33, a34), b1, b2, b3, b4), Dot(Vec4(a41, a42, a43, a44), b1, b2, b3, b4))
  {
    var v := Vec4(x, y, z, w);
    DotScale(v, a11, a21, a31, a41, b1);
    DotScale(v, a12, a22, a32, a42, b2);
    DotScale(v, a13, a23, a33, a43, b3);
    DotScale(v, a14, a24, a34, a44, b4);
    DotAdd(v, a11 * b1, a21 * b1, a31 * b1, a41 * b1, a12 * b2, a22 * b2, a32 * b2, a42 * b2);
    DotAdd(v, a11 * b1 + a12 * b2, a21 * b1 + a22 * b2, a31 * b1 + a32 * b2, a41 * b1 + a42 * b2,
           a13 * b3, a23 * b3, a33 * b3, a43 * b3);
    DotAdd(v, a11 * b1 + a12 * b2 + a13 * b3, a21 * b1 + a22 * b2 + a23 * b3,
           a31 * b1 + a32 * b2 + a33 * b3, a41 * b1 + a42 * b2 + a43 * b3,
           a14 * b4, a24 * b4, a34 * b4, a44 * b4);
  }

  /** A dot product scaled by k is the dot product with the column scaled by k. */
  lemma DotScale(v: Vec4, c1: real, c2: real, c3: real, c4: real, k: real)
    ensures Dot(v, c1, c2, c3, c4) * k == Dot(v, c1 * k, c2 * k, c3 * k, c4 * k)
  {
    ScaleSum(v.x * c1, v.y * c2, v.z * c3, v.w * c4, k);
    assert (v.x * c1) * k == v.x * (c1 * k);
    assert (v.y * c2) * k == v.y * (c2 * k);
    assert (v.z * c3) * k == v.z * (c3 * k);
    assert (v.w * c4) * k == v.w * (c4 * k);
  }

  /** Dot products with the same vector add column-wise. */
  lemma DotAdd(v: Vec4, c1: real, c2: real, c3: real, c4: real, d1: real, d2: real, d3: real, d4: real)
    ensures Dot(v, c1, c2, c3, c4) + Dot(v, d1, d2, d3, d4) == Dot(v, c1 + d1, c2 + d2, c3 + d3, c4 + d4)
  {
    assert v.x * (c1 + d1) == v.x * c1 + v.x * d1;
    assert v.y * (c2 + d2) == v.y * c2 + v.y * d2;
    assert v.z * (c3 + d3) == v.z * c3 + v.z * d3;
    assert v.w * (c4 + d4) == v.w * c4 + v.w * d4;
  }

  /** Multiplication distributes over a sum of four terms. */
  lemma ScaleSum(q1: real, q2: real, q3: real, q4: real, p: real)
    ensures (q1 + q2 + q3 + q4) * p == q1 * p + q2 * p + q3 * p + q4 * p
    ensures p * (q1 + q2 + q3 + q4) == p * q1 + p * q2 + p * q3 + p * q4
  {
  }

  /**
   * Transforming by a and then by b is transforming once by a * b: the
   * reason a chain of per-stage transforms equals one composed matrix.
   */
  lemma TransformCompose(v: Vec4, a: Matrix, b: Matrix)
    ensures Transform(Transform(v, a), b) == Transform(v, Mul(a, b))
  {
    ColumnExpansion(v, a, b.m11, b.m21, b.m31, b.m41);
    ColumnExpansion(v, a, b.m12, b.m22, b.m32, b.m42);
    ColumnExpansion(v, a, b.m13, b.m23, b.m33, b.m43);
    ColumnExpansion(v, a, b.m14, b.m24, b.m34, b.m44);
  }
}
