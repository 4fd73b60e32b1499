/** 4x4 matrices over GF(2^8), the algebra behind MixColumns.

    A column of the AES state is a vector of four field elements, and
    MixColumns multiplies it by a fixed matrix. The one fact the inverse
    proof needs from this module is that applying two matrices in turn is
    applying their product (`ApplyCompose`), together with the identity
    matrix doing nothing (`ApplyIdentity`). */
module Matrices {
  import opened Polynomials

  /** A column vector of four field elements. */
  datatype Vec = Vec(e0: Poly, e1: Poly, e2: Poly, e3: Poly)

  /** A matrix, given by its four rows. */
  datatype Mat = Mat(r0: Vec, r1: Vec, r2: Vec, r3: Vec)

  /** The row vector `row` times the column `x`, added up left to right:
      x0 * row0 + x1 * row1 + x2 * row2 + x3 * row3. */
  function Dot(row: Vec, x: Vec): Poly
  {
    Sum4(Mul(x.e0, row.e0), Mul(x.e1, row.e1), Mul(x.e2, row.e2), Mul(x.e3, row.e3))
  }

  /** The matrix m times the column x. */
  function Apply(m: Mat, x: Vec): Vec
  {
    Vec(Dot(m.r0, x), Dot(m.r1, x), Dot(m.r2, x), Dot(m.r3, x))
  }

  /** The rows of the transpose are the columns of m. */
  function Transpose(m: Mat): Mat
  {
    Mat(Vec(m.r0.e0, m.r1.e0, m.r2.e0, m.r3.e0),
        Vec(m.r0.e1, m.r1.e1, m.r2.e1, m.r3.e1),
        Vec(m.r0.e2, m.r1.e2, m.r2.e2, m.r3.e2),
        Vec(m.r0.e3, m.r1.e3, m.r2.e3, m.r3.e3))
  }

  /** The row vector v times the matrix a. */
  function RowTimes(v: Vec, a: Mat): Vec
  {
    var t := Transpose(a);
    Vec(Dot(v, t.r0), Dot(v, t.r1), Dot(v, t.r2), Dot(v, t.r3))
  }

  /** The matrix product b * a. */
  function Compose(b: Mat, a: Mat): Mat
  {
    Mat(RowTimes(b.r0, a), RowTimes(b.r1, a), RowTimes(b.r2, a), RowTimes(b.r3, a))
  }

  /** The identity matrix. */
  const Identity: Mat :=
    Mat(Vec(One, Zero, Zero, Zero), Vec(Zero, One, Zero, Zero),
        Vec(Zero, Zero, One, Zero), Vec(Zero, Zero, Zero, One))

  /** One row of a matrix product, multiplied out: (row . x) * v is the sum
      of x_k * (row_k * v). */
  lemma RowExpand(row: Vec, x: Vec, v: Poly)
    ensures Mul(Dot(row, x), v)
         == Sum4(Mul(x.e0, Mul(row.e0, v)), Mul(x.e1, Mul(row.e1, v)),
                 Mul(x.e2, Mul(row.e2, v)), Mul(x.e3, Mul(row.e3, v)))
  {
    MulSum4Left(Mul(x.e0, row.e0), Mul(x.e1, row.e1), Mul(x.e2, row.e2), Mul(x.e3, row.e3), v);
    MulAssociative(x.e0, row.e0, v);
    MulAssociative(x.e1, row.e1, v);
    MulAssociative(x.e2, row.e2, v);
    MulAssociative(x.e3, row.e3, v);
  }

  /** v . (a x) == (v a) . x: the row vector can be multiplied into the
      matrix first. */
  lemma DotApply(v: Vec, a: Mat, x: Vec)
    ensures Dot(v, Apply(a, x)) == Dot(RowTimes(v, a), x)
  {
    RowExpand(a.r0, x, v.e0);
    RowExpand(a.r1, x, v.e1);
    RowExpand(a.r2, x, v.e2);
    RowExpand(a.r3, x, v.e3);
    Interchange(
      Mul(x.e0, Mul(a.r0.e0, v.e0)), Mul(x.e1, Mul(a.r0.e1, v.e0)), Mul(x.e2, Mul(a.r0.e2, v.e0)), Mul(x.e3, Mul(a.r0.e3, v.e0)),
      Mul(x.e0, Mul(a.r1.e0, v.e1)), Mul(x.e1, Mul(a.r1.e1, v.e1)), Mul(x.e2, Mul(a.r1.e2, v.e1)), Mul(x.e3, Mul(a.r1.e3, v.e1)),
      Mul(x.e0, Mul(a.r2.e0, v.e2)), Mul(x.e1, Mul(a.r2.e1, v.e2)), Mul(x.e2, Mul(a.r2.e2, v.e2)), Mul(x.e3, Mul(a.r2.e3, v.e2)),
      Mul(x.e0, Mul(a.r3.e0, v.e3)), Mul(x.e1, Mul(a.r3.e1, v.e3)), Mul(x.e2, Mul(a.r3.e2, v.e3)), Mul(x.e3, Mul(a.r3.e3, v.e3)));
    MulSum4Right(x.e0, Mul(a.r0.e0, v.e0), Mul(a.r1.e0, v.e1), Mul(a.r2.e0, v.e2), Mul(a.r3.e0, v.e3));
    MulSum4Right(x.e1, Mul(a.r0.e1, v.e0), Mul(a.r1.e1, v.e1), Mul(a.r2.e1, v.e2), Mul(a.r3.e1, v.e3));
    MulSum4Right(x.e2, Mul(a.r0.e2, v.e0), Mul(a.r1.e2, v.e1), Mul(a.r2.e2, v.e2), Mul(a.r3.e2, v.e3));
    MulSum4Right(x.e3, Mul(a.r0.e3, v.e0), Mul(a.r1.e3, v.e1), Mul(a.r2.e3, v.e2), Mul(a.r3.e3, v.e3));
  }

  /** Applying a and then b is applying the product b * a. */
  lemma ApplyCompose(b: Mat, a: Mat, x: Vec)
    ensures Apply(b, Apply(a, x)) == Apply(Compose(b, a), x)
  {
    DotApply(b.r0, a, x);
    DotApply(b.r1, a, x);
    DotApply(b.r2, a, x);
    DotApply(b.r3, a, x);
  }

  /** A product is known once each of its rows is. */
  lemma ComposeByRows(b: Mat, a: Mat, c: Mat)
    requires RowTimes(b.r0, a) == c.r0 && RowTimes(b.r1, a) == c.r1
    requires RowTimes(b.r2, a) == c.r2 && RowTimes(b.r3, a) == c.r3
    ensures Compose(b, a) == c
  {
  }

  /** A matrix a followed by a left inverse b of it gives every column
      back. */
  lemma InverseApply(b: Mat, a: Mat, x: Vec)
    requires Compose(b, a) == Identity
    ensures Apply(b, Apply(a, x)) == x
  {
    ApplyCompose(b, a, x);
    ApplyIdentity(x);
  }

  /** The identity matrix leaves every column as it is. */
  lemma ApplyIdentity(x: Vec)
    ensures Apply(Identity, x) == x
  {
    MulOneRight(x.e0);
    MulOneRight(x.e1);
    MulOneRight(x.e2);
    MulOneRight(x.e3);
    MulZero(x.e0);
    MulZero(x.e1);
    MulZero(x.e2);
    MulZero(x.e3);
    AddLaws(x.e0, Zero, Zero);
    AddLaws(x.e1, Zero, Zero);
    AddLaws(x.e2, Zero, Zero);
    AddLaws(x.e3, Zero, Zero);
    AddLaws(Zero, Zero, Zero);
  }
}
