/** Polynomials of degree below 8 over GF(2), the elements of the field
    GF(2^8) used by AES (section 4 of FIPS 197).

    A polynomial is the sequence of its eight coefficients, lowest degree
    first: `p[i]` is the coefficient of x^i. Addition adds coefficients
    modulo 2. `Xtime` multiplies by x and reduces by the AES polynomial
    m(x) = x^8 + x^4 + x^3 + x + 1, whose low part x^4 + x^3 + x + 1 is
    `Reduction`. The product `Mul(p, q)` sums q[i] * x^i * p for i = 0..7,
    reducing after every multiplication by x.

    The laws proved here (identities, distributivity on both sides,
    commutativity, associativity) are the field laws that the AES
    MixColumns steps rely on; the bytes of the Python program are mapped
    onto these polynomials in module Bytes. */
module Polynomials {

  /** Eight coefficients in GF(2), lowest degree first. */
  type Poly = s: seq<bool> | |s| == 8 witness [false, false, false, false, false, false, false, false]

  const Zero: Poly := [false, false, false, false, false, false, false, false]
  const One: Poly := [true, false, false, false, false, false, false, false]

  /** x^4 + x^3 + x + 1: what x^8 is congruent to modulo m(x). */
  const Reduction: Poly := [true, true, false, true, true, false, false, false]

  /** Sum of two polynomials: coefficients are added modulo 2. */
  function Add(p: Poly, q: Poly): Poly
  {
    seq(8, i requires 0 <= i < 8 => p[i] != q[i])
  }

  /** Product with x modulo m(x): every coefficient moves up one degree, and
      a coefficient that leaves degree 7 comes back as x^4 + x^3 + x + 1. */
  function Xtime(p: Poly): Poly
  {
    seq(8, i requires 0 <= i < 8 => (i > 0 && p[i - 1]) != (p[7] && Reduction[i]))
  }

  /** The polynomial without its constant term, divided by x. */
  function Down(q: Poly): Poly
  {
    seq(8, i requires 0 <= i < 8 => i < 7 && q[i + 1])
  }

  /** p times the coefficient `bit`. */
  function Scale(p: Poly, bit: bool): Poly
  {
    if bit then p else Zero
  }

  /** The sum of q[i] * x^i * p over the n lowest coefficients of q. */
  function MulN(p: Poly, q: Poly, n: nat): Poly
    decreases n
  {
    if n == 0 then Zero else Add(Scale(p, q[0]), MulN(Xtime(p), Down(q), n - 1))
  }

  /** The product of p and q in GF(2^8), reduced as it is computed: the
      sum of q[i] * (x^i * p mod m(x)), each x^i * p obtained from the
      previous one by one `Xtime`. Since reduction modulo m(x) respects
      sums and products, this is the full product p * q reduced modulo
      m(x); the field laws below are proved of this definition. */
  function Mul(p: Poly, q: Poly): Poly
  {
    MulN(p, q, 8)
  }

  /** All coefficients from degree n up are zero. */
  ghost predicate DegreeBelow(q: Poly, n: nat)
  {
    forall j :: n <= j < 8 ==> !q[j]
  }

  // ---------------------------------------------------------------------------
  // Addition, x-multiplication and shifting

  /** Zero is the identity of addition, every polynomial is its own
      negative, and addition is commutative and associative. */
  lemma AddLaws(p: Poly, q: Poly, r: Poly)
    ensures Add(p, Zero) == p && Add(Zero, p) == p && Add(p, p) == Zero
    ensures Add(p, q) == Add(q, p)
    ensures Add(Add(p, q), r) == Add(p, Add(q, r))
  {
  }

  /** Swapping the middle terms of a sum of four. */
  lemma AddRegroup(p: Poly, q: Poly, r: Poly, t: Poly)
    ensures Add(Add(p, q), Add(r, t)) == Add(Add(p, r), Add(q, t))
  {
  }

  lemma XtimeAdditive(p: Poly, q: Poly)
    ensures Xtime(Add(p, q)) == Add(Xtime(p), Xtime(q))
  {
  }

  lemma DownAdditive(p: Poly, q: Poly)
    ensures Down(Add(p, q)) == Add(Down(p), Down(q))
  {
  }

  lemma ZeroFixed()
    ensures Xtime(Zero) == Zero && Down(Zero) == Zero && Add(Zero, Zero) == Zero
  {
  }

  lemma ScaleLaws(p: Poly, q: Poly, b: bool, c: bool)
    ensures Scale(Add(p, q), b) == Add(Scale(p, b), Scale(q, b))
    ensures Scale(p, b != c) == Add(Scale(p, b), Scale(p, c))
    ensures Xtime(Scale(p, b)) == Scale(Xtime(p), b)
  {
    AddLaws(p, Zero, Zero);
    ZeroFixed();
  }

  /** x * p is p with every coefficient moved up one degree, plus the
      reduction when p has a coefficient of degree 7. */
  lemma XtimeSplit(p: Poly)
    ensures Xtime(p) == Add([false] + p[..7], Scale(Reduction, p[7]))
  {
  }

  /** A polynomial is its constant term plus x times the rest. */
  lemma Decompose(q: Poly)
    ensures q == Add(Scale(One, q[0]), Xtime(Down(q)))
  {
  }

  lemma DownDegree(q: Poly, n: nat)
    requires n > 0 && DegreeBelow(q, n)
    ensures DegreeBelow(Down(q), n - 1)
  {
  }

  // ---------------------------------------------------------------------------
  // The product

  lemma {:induction false} MulNZeroRight(p: Poly, n: nat)
    ensures MulN(p, Zero, n) == Zero
    decreases n
  {
    if n > 0 {
      ZeroFixed();
      MulNZeroRight(Xtime(p), n - 1);
    }
  }

  lemma {:induction false} MulNZeroLeft(q: Poly, n: nat)
    ensures MulN(Zero, q, n) == Zero
    decreases n
  {
    if n > 0 {
      ZeroFixed();
      MulNZeroLeft(Down(q), n - 1);
    }
  }

  /** Zero times anything is zero, on either side. */
  lemma MulZero(p: Poly)
    ensures Mul(p, Zero) == Zero && Mul(Zero, p) == Zero
  {
    MulNZeroRight(p, 8);
    MulNZeroLeft(p, 8);
  }

  /** Coefficients of q that are zero anyway add nothing to the product. */
  lemma {:induction false} Truncate(p: Poly, q: Poly, n: nat, m: nat)
    requires DegreeBelow(q, n) && n <= m
    ensures MulN(p, q, m) == MulN(p, q, n)
    decreases n
  {
    if n == 0 {
      assert q == Zero;
      MulNZeroRight(p, m);
    } else {
      DownDegree(q, n);
      Truncate(Xtime(p), Down(q), n - 1, m - 1);
    }
  }

  lemma {:induction false} MulNDistributesLeft(p: Poly, r: Poly, q: Poly, n: nat)
    ensures MulN(Add(p, r), q, n) == Add(MulN(p, q, n), MulN(r, q, n))
    decreases n
  {
    if n == 0 {
      ZeroFixed();
    } else {
      XtimeAdditive(p, r);
      MulNDistributesLeft(Xtime(p), Xtime(r), Down(q), n - 1);
      ScaleLaws(p, r, q[0], false);
      AddRegroup(Scale(p, q[0]), Scale(r, q[0]), MulN(Xtime(p), Down(q), n - 1), MulN(Xtime(r), Down(q), n - 1));
    }
  }

  lemma {:induction false} MulNDistributesRight(p: Poly, q: Poly, r: Poly, n: nat)
    ensures MulN(p, Add(q, r), n) == Add(MulN(p, q, n), MulN(p, r, n))
    decreases n
  {
    if n == 0 {
      ZeroFixed();
    } else {
      DownAdditive(q, r);
      MulNDistributesRight(Xtime(p), Down(q), Down(r), n - 1);
      ScaleLaws(p, p, q[0], r[0]);
      assert Add(q, r)[0] == (q[0] != r[0]);
      AddRegroup(Scale(p, q[0]), Scale(p, r[0]), MulN(Xtime(p), Down(q), n - 1), MulN(Xtime(p), Down(r), n - 1));
    }
  }

  /** The product distributes over addition in its left factor. */
  lemma MulDistributesLeft(p: Poly, r: Poly, q: Poly)
    ensures Mul(Add(p, r), q) == Add(Mul(p, q), Mul(r, q))
  {
    MulNDistributesLeft(p, r, q, 8);
  }

  /** The product distributes over addition in its right factor. */
  lemma MulDistributesRight(p: Poly, q: Poly, r: Poly)
    ensures Mul(p, Add(q, r)) == Add(Mul(p, q), Mul(p, r))
  {
    MulNDistributesRight(p, q, r, 8);
  }

  lemma {:induction false} MulNXtimeLeft(p: Poly, q: Poly, n: nat)
    ensures MulN(Xtime(p), q, n) == Xtime(MulN(p, q, n))
    decreases n
  {
    if n == 0 {
      ZeroFixed();
    } else {
      var rest := MulN(Xtime(p), Down(q), n - 1);
      MulNXtimeLeft(Xtime(p), Down(q), n - 1);
      ScaleLaws(p, p, q[0], false);
      XtimeAdditive(Scale(p, q[0]), rest);
    }
  }

  /** Multiplying the left factor by x multiplies the product by x. */
  lemma MulXtimeLeft(p: Poly, q: Poly)
    ensures Mul(Xtime(p), q) == Xtime(Mul(p, q))
  {
    MulNXtimeLeft(p, q, 8);
  }

  /** The product splits off the constant term of its right factor. */
  lemma MulStep(p: Poly, q: Poly)
    ensures Mul(p, q) == Add(Scale(p, q[0]), Xtime(Mul(p, Down(q))))
  {
    DownDegree(q, 8);
    Truncate(Xtime(p), Down(q), 7, 8);
    MulNXtimeLeft(p, Down(q), 8);
  }

  /** One is the identity of the product on the right. */
  lemma MulOneRight(p: Poly)
    ensures Mul(p, One) == p
  {
    MulStep(p, One);
    assert Down(One) == Zero;
    MulZero(p);
    ZeroFixed();
    AddLaws(p, Zero, Zero);
  }

  lemma {:induction false} MulOneLeftBelow(p: Poly, n: nat)
    requires DegreeBelow(p, n)
    ensures Mul(One, p) == p
    decreases n
  {
    if n == 0 {
      assert p == Zero;
      MulZero(One);
    } else {
      MulStep(One, p);
      DownDegree(p, n);
      MulOneLeftBelow(Down(p), n - 1);
      Decompose(p);
    }
  }

  /** One is the identity of the product on the left. */
  lemma MulOneLeft(p: Poly)
    ensures Mul(One, p) == p
  {
    MulOneLeftBelow(p, 8);
  }

  /** A factor that is a single coefficient can be taken out on the left. */
  lemma MulScaleLeft(p: Poly, q: Poly, b: bool)
    ensures Mul(Scale(p, b), q) == Scale(Mul(p, q), b)
  {
    MulZero(q);
  }

  /** A factor that is a single coefficient can be taken out on the right. */
  lemma MulScaleRight(p: Poly, q: Poly, b: bool)
    ensures Mul(p, Scale(q, b)) == Scale(Mul(p, q), b)
  {
    MulZero(p);
  }

  /** The inductive step of commutativity: if p commutes with Down(q), it
      commutes with q. */
  lemma CommuteStep(p: Poly, q: Poly)
    requires Mul(p, Down(q)) == Mul(Down(q), p)
    ensures Mul(p, q) == Mul(q, p)
  {
    var d := Down(q);
    calc {
      Mul(p, q);
      { MulStep(p, q); }
      Add(Scale(p, q[0]), Xtime(Mul(d, p)));
      { MulXtimeLeft(d, p); }
      Add(Scale(p, q[0]), Mul(Xtime(d), p));
      { MulScaleLeft(One, p, q[0]); MulOneLeft(p); }
      Add(Mul(Scale(One, q[0]), p), Mul(Xtime(d), p));
      { MulDistributesLeft(Scale(One, q[0]), Xtime(d), p); }
      Mul(Add(Scale(One, q[0]), Xtime(d)), p);
      { Decompose(q); }
      Mul(q, p);
    }
  }

  lemma {:induction false} MulCommutativeBelow(p: Poly, q: Poly, n: nat)
    requires DegreeBelow(q, n)
    ensures Mul(p, q) == Mul(q, p)
    decreases n
  {
    if n == 0 {
      assert q == Zero;
      MulZero(p);
    } else {
      DownDegree(q, n);
      MulCommutativeBelow(p, Down(q), n - 1);
      CommuteStep(p, q);
    }
  }

  /** The product is commutative. */
  lemma MulCommutative(p: Poly, q: Poly)
    ensures Mul(p, q) == Mul(q, p)
  {
    MulCommutativeBelow(p, q, 8);
  }

  /** Multiplying the right factor by x multiplies the product by x. */
  lemma MulXtimeRight(p: Poly, q: Poly)
    ensures Mul(p, Xtime(q)) == Xtime(Mul(p, q))
  {
    MulCommutative(p, Xtime(q));
    MulXtimeLeft(q, p);
    MulCommutative(q, p);
  }

  /** The product by a polynomial whose constant term is split off. */
  lemma MulSplitRight(p: Poly, q: Poly)
    ensures Mul(q, p) == Add(Scale(p, q[0]), Xtime(Mul(Down(q), p)))
  {
    MulStep(p, q);
    MulCommutative(p, q);
    MulCommutative(p, Down(q));
  }

  /** The inductive step of associativity, over the middle factor. */
  lemma AssociateStep(p: Poly, q: Poly, r: Poly)
    requires Mul(Mul(p, Down(q)), r) == Mul(p, Mul(Down(q), r))
    ensures Mul(Mul(p, q), r) == Mul(p, Mul(q, r))
  {
    var d := Down(q);
    calc {
      Mul(Mul(p, q), r);
      { MulStep(p, q); }
      Mul(Add(Scale(p, q[0]), Xtime(Mul(p, d))), r);
      { MulDistributesLeft(Scale(p, q[0]), Xtime(Mul(p, d)), r); }
      Add(Mul(Scale(p, q[0]), r), Mul(Xtime(Mul(p, d)), r));
      { MulScaleLeft(p, r, q[0]); MulXtimeLeft(Mul(p, d), r); }
      Add(Scale(Mul(p, r), q[0]), Xtime(Mul(p, Mul(d, r))));
      { MulScaleRight(p, r, q[0]); MulXtimeRight(p, Mul(d, r)); }
      Add(Mul(p, Scale(r, q[0])), Mul(p, Xtime(Mul(d, r))));
      { MulDistributesRight(p, Scale(r, q[0]), Xtime(Mul(d, r))); }
      Mul(p, Add(Scale(r, q[0]), Xtime(Mul(d, r))));
      { MulSplitRight(r, q); }
      Mul(p, Mul(q, r));
    }
  }

  lemma {:induction false} MulAssociativeBelow(p: Poly, q: Poly, r: Poly, n: nat)
    requires DegreeBelow(q, n)
    ensures Mul(Mul(p, q), r) == Mul(p, Mul(q, r))
    decreases n
  {
    if n == 0 {
      assert q == Zero;
      MulZero(p);
      MulZero(r);
      MulZero(Zero);
    } else {
      DownDegree(q, n);
      MulAssociativeBelow(p, Down(q), r, n - 1);
      AssociateStep(p, q, r);
    }
  }

  /** The product is associative. */
  lemma MulAssociative(p: Poly, q: Poly, r: Poly)
    ensures Mul(Mul(p, q), r) == Mul(p, Mul(q, r))
  {
    MulAssociativeBelow(p, q, r, 8);
  }

  // ---------------------------------------------------------------------------
  // Sums of four, as in one cell of a MixColumns matrix product

  /** ((a + b) + c) + d, grouped as Python evaluates `a ^ b ^ c ^ d`. */
  function Sum4(a: Poly, b: Poly, c: Poly, d: Poly): Poly
  {
    Add(Add(Add(a, b), c), d)
  }

  /** A sum of four sums of four can be added up by columns instead of rows. */
  lemma Interchange(u00: Poly, u01: Poly, u02: Poly, u03: Poly,
                    u10: Poly, u11: Poly, u12: Poly, u13: Poly,
                    u20: Poly, u21: Poly, u22: Poly, u23: Poly,
                    u30: Poly, u31: Poly, u32: Poly, u33: Poly)
    ensures Sum4(Sum4(u00, u01, u02, u03), Sum4(u10, u11, u12, u13),
                 Sum4(u20, u21, u22, u23), Sum4(u30, u31, u32, u33))
         == Sum4(Sum4(u00, u10, u20, u30), Sum4(u01, u11, u21, u31),
                 Sum4(u02, u12, u22, u32), Sum4(u03, u13, u23, u33))
  {
  }

  /** A common right factor of four products can be taken out. */
  lemma MulSum4Left(a: Poly, b: Poly, c: Poly, d: Poly, k: Poly)
    ensures Mul(Sum4(a, b, c, d), k) == Sum4(Mul(a, k), Mul(b, k), Mul(c, k), Mul(d, k))
  {
    MulDistributesLeft(Add(Add(a, b), c), d, k);
    MulDistributesLeft(Add(a, b), c, k);
    MulDistributesLeft(a, b, k);
  }

  /** A common left factor of four products can be taken out. */
  lemma MulSum4Right(k: Poly, a: Poly, b: Poly, c: Poly, d: Poly)
    ensures Mul(k, Sum4(a, b, c, d)) == Sum4(Mul(k, a), Mul(k, b), Mul(k, c), Mul(k, d))
  {
    MulDistributesRight(k, Add(Add(a, b), c), d);
    MulDistributesRight(k, Add(a, b), c);
    MulDistributesRight(k, a, b);
  }
}
