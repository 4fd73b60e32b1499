/** The coefficient matrices of MixColumns and InvMixColumns in
    aesalgorithm.py, as matrices over GF(2^8), and the fact that they are
    inverse to each other.

    The coefficients are the bytes 0x01, 0x02, 0x03 (MixColumns) and 0x09,
    0x0b, 0x0d, 0x0e (InvMixColumns), written here as polynomials: bit i
    of the byte is the coefficient of x^i. The products of the two matrices
    are worked out entry by entry: each product of a coefficient with 0x02
    or 0x03 is one or two `Xtime` steps, and each entry is a sum of four
    such products. The sums over concrete polynomials are kept in lemmas
    of their own, apart from the field laws, so each is a small
    computation. */
module MixMatrices {
  import opened Polynomials
  import opened Matrices

  /** 0x02, the polynomial x. */
  const Two: Poly := [false, true, false, false, false, false, false, false]
  /** 0x03, x + 1. */
  const Three: Poly := [true, true, false, false, false, false, false, false]
  /** 0x09, x^3 + 1. */
  const Nine: Poly := [true, false, false, true, false, false, false, false]
  /** 0x0b, x^3 + x + 1. */
  const Eleven: Poly := [true, true, false, true, false, false, false, false]
  /** 0x0d, x^3 + x^2 + 1. */
  const Thirteen: Poly := [true, false, true, true, false, false, false, false]
  /** 0x0e, x^3 + x^2 + x. */
  const Fourteen: Poly := [false, true, true, true, false, false, false, false]

  /** The matrix of `mix_columns` (aesalgorithm.py:79-82): row r holds the
      factors applied to the four cells of a column for output row r. */
  const MixMatrix: Mat :=
    Mat(Vec(Two, Three, One, One), Vec(One, Two, Three, One),
        Vec(One, One, Two, Three), Vec(Three, One, One, Two))

  /** The matrix of `inv_mix_columns` (aesalgorithm.py:98-101). */
  const InvMixMatrix: Mat :=
    Mat(Vec(Fourteen, Eleven, Thirteen, Nine), Vec(Nine, Fourteen, Eleven, Thirteen),
        Vec(Thirteen, Nine, Fourteen, Eleven), Vec(Eleven, Thirteen, Nine, Fourteen))

  /** InvMixColumns undoes MixColumns: the product of the two matrices,
      inverse matrix first, is the identity. */
  lemma InverseAfterMix()
    ensures Compose(InvMixMatrix, MixMatrix) == Identity
  {
    var a, b := MixMatrix, InvMixMatrix;
    ProductRowInverse0();
    ProductRowInverse1();
    ProductRowInverse2();
    ProductRowInverse3();
    ComposeByRows(b, a, Identity);
  }

  /** MixColumns undoes InvMixColumns: the product the other way round is
      the identity too. */
  lemma MixAfterInverse()
    ensures Compose(MixMatrix, InvMixMatrix) == Identity
  {
    var a, b := InvMixMatrix, MixMatrix;
    ProductRowMix0();
    ProductRowMix1();
    ProductRowMix2();
    ProductRowMix3();
    ComposeByRows(b, a, Identity);
  }

  /** The inverse matrix undoes the MixColumns matrix on every column. */
  lemma InverseUndoesMix(x: Vec)
    ensures Apply(InvMixMatrix, Apply(MixMatrix, x)) == x
  {
    InverseAfterMix();
    InverseApply(InvMixMatrix, MixMatrix, x);
  }

  /** The MixColumns matrix undoes the inverse matrix on every column. */
  lemma MixUndoesInverse(x: Vec)
    ensures Apply(MixMatrix, Apply(InvMixMatrix, x)) == x
  {
    MixAfterInverse();
    InverseApply(MixMatrix, InvMixMatrix, x);
  }

  /** Multiplying by 1, by x and by x + 1, on either side. */
  lemma SmallFactors(q: Poly)
    ensures Mul(One, q) == q && Mul(q, One) == q
    ensures Mul(Two, q) == Xtime(q) && Mul(q, Two) == Xtime(q)
    ensures Mul(Three, q) == Add(Xtime(q), q) && Mul(q, Three) == Add(Xtime(q), q)
  {
    assert Two == Xtime(One);
    assert Three == Add(Two, One);
    MulOneLeft(q);
    MulOneRight(q);
    MulXtimeLeft(One, q);
    MulXtimeRight(q, One);
    MulDistributesLeft(Two, One, q);
    MulDistributesRight(q, Two, One);
  }

  /** Nine times x and times x + 1 (0x12 and 0x1b). */
  lemma NineDoubled()
    ensures Xtime(Nine) == [false, true, false, false, true, false, false, false]
    ensures Add([false, true, false, false, true, false, false, false], Nine) == [true, true, false, true, true, false, false, false]
  {
  }

  /** Eleven times x and times x + 1 (0x16 and 0x1d). */
  lemma ElevenDoubled()
    ensures Xtime(Eleven) == [false, true, true, false, true, false, false, false]
    ensures Add([false, true, true, false, true, false, false, false], Eleven) == [true, false, true, true, true, false, false, false]
  {
  }

  /** Thirteen times x and times x + 1 (0x1a and 0x17). */
  lemma ThirteenDoubled()
    ensures Xtime(Thirteen) == [false, true, false, true, true, false, false, false]
    ensures Add([false, true, false, true, true, false, false, false], Thirteen) == [true, true, true, false, true, false, false, false]
  {
  }

  /** Fourteen times x and times x + 1 (0x1c and 0x12). */
  lemma FourteenDoubled()
    ensures Xtime(Fourteen) == [false, false, true, true, true, false, false, false]
    ensures Add([false, false, true, true, true, false, false, false], Fourteen) == [false, true, false, false, true, false, false, false]
  {
  }

  /** The products of Nine with the MixColumns coefficients, either way round. */
  lemma ProductsOfNine()
    ensures Mul(One, Nine) == Mul(Nine, One) == Nine
    ensures Mul(Two, Nine) == Mul(Nine, Two) == [false, true, false, false, true, false, false, false]
    ensures Mul(Three, Nine) == Mul(Nine, Three) == [true, true, false, true, true, false, false, false]
  {
    SmallFactors(Nine);
    NineDoubled();
  }

  /** The products of Eleven with the MixColumns coefficients, either way round. */
  lemma ProductsOfEleven()
    ensures Mul(One, Eleven) == Mul(Eleven, One) == Eleven
    ensures Mul(Two, Eleven) == Mul(Eleven, Two) == [false, true, true, false, true, false, false, false]
    ensures Mul(Three, Eleven) == Mul(Eleven, Three) == [true, false, true, true, true, false, false, false]
  {
    SmallFactors(Eleven);
    ElevenDoubled();
  }

  /** The products of Thirteen with the MixColumns coefficients, either way round. */
  lemma ProductsOfThirteen()
    ensures Mul(One, Thirteen) == Mul(Thirteen, One) == Thirteen
    ensures Mul(Two, Thirteen) == Mul(Thirteen, Two) == [false, true, false, true, true, false, false, false]
    ensures Mul(Three, Thirteen) == Mul(Thirteen, Three) == [true, true, true, false, true, false, false, false]
  {
    SmallFactors(Thirteen);
    ThirteenDoubled();
  }

  /** The products of Fourteen with the MixColumns coefficients, either way round. */
  lemma ProductsOfFourteen()
    ensures Mul(One, Fourteen) == Mul(Fourteen, One) == Fourteen
    ensures Mul(Two, Fourteen) == Mul(Fourteen, Two) == [false, false, true, true, true, false, false, false]
    ensures Mul(Three, Fourteen) == Mul(Fourteen, Three) == [false, true, false, false, true, false, false, false]
  {
    SmallFactors(Fourteen);
    FourteenDoubled();
  }

  /** The sums making up row 0 of InvMixMatrix * MixMatrix. */
  lemma SumsRowInverse0()
    ensures Sum4([false, false, true, true, true, false, false, false], [true, true, false, true, false, false, false, false],
                 [true, false, true, true, false, false, false, false], [true, true, false, true, true, false, false, false]) == One
    ensures Sum4([false, true, false, false, true, false, false, false], [false, true, true, false, true, false, false, false],
                 [true, false, true, true, false, false, false, false], [true, false, false, true, false, false, false, false]) == Zero
    ensures Sum4([false, true, true, true, false, false, false, false], [true, false, true, true, true, false, false, false],
                 [false, true, false, true, true, false, false, false], [true, false, false, true, false, false, false, false]) == Zero
    ensures Sum4([false, true, true, true, false, false, false, false], [true, true, false, true, false, false, false, false],
                 [true, true, true, false, true, false, false, false], [false, true, false, false, true, false, false, false]) == Zero
  {
  }

  /** Row 0 of InvMixMatrix * MixMatrix is row 0 of the identity. */
  lemma ProductRowInverse0()
    ensures RowTimes(InvMixMatrix.r0, MixMatrix) == Identity.r0
  {
    ProductsOfNine();
    ProductsOfEleven();
    ProductsOfThirteen();
    ProductsOfFourteen();
    SumsRowInverse0();
  }

  /** The sums making up row 1 of InvMixMatrix * MixMatrix. */
  lemma SumsRowInverse1()
    ensures Sum4([false, true, false, false, true, false, false, false], [false, true, true, true, false, false, false, false],
                 [true, true, false, true, false, false, false, false], [true, true, true, false, true, false, false, false]) == Zero
    ensures Sum4([true, true, false, true, true, false, false, false], [false, false, true, true, true, false, false, false],
                 [true, true, false, true, false, false, false, false], [true, false, true, true, false, false, false, false]) == One
    ensures Sum4([true, false, false, true, false, false, false, false], [false, true, false, false, true, false, false, false],
                 [false, true, true, false, true, false, false, false], [true, false, true, true, false, false, false, false]) == Zero
    ensures Sum4([true, false, false, true, false, false, false, false], [false, true, true, true, false, false, false, false],
                 [true, false, true, true, true, false, false, false], [false, true, false, true, true, false, false, false]) == Zero
  {
  }

  /** Row 1 of InvMixMatrix * MixMatrix is row 1 of the identity. */
  lemma ProductRowInverse1()
    ensures RowTimes(InvMixMatrix.r1, MixMatrix) == Identity.r1
  {
    ProductsOfNine();
    ProductsOfEleven();
    ProductsOfThirteen();
    ProductsOfFourteen();
    SumsRowInverse1();
  }

  /** The sums making up row 2 of InvMixMatrix * MixMatrix. */
  lemma SumsRowInverse2()
    ensures Sum4([false, true, false, true, true, false, false, false], [true, false, false, true, false, false, false, false],
                 [false, true, true, true, false, false, false, false], [true, false, true, true, true, false, false, false]) == Zero
    ensures Sum4([true, true, true, false, true, false, false, false], [false, true, false, false, true, false, false, false],
                 [false, true, true, true, false, false, false, false], [true, true, false, true, false, false, false, false]) == Zero
    ensures Sum4([true, false, true, true, false, false, false, false], [true, true, false, true, true, false, false, false],
                 [false, false, true, true, true, false, false, false], [true, true, false, true, false, false, false, false]) == One
    ensures Sum4([true, false, true, true, false, false, false, false], [true, false, false, true, false, false, false, false],
                 [false, true, false, false, true, false, false, false], [false, true, true, false, true, false, false, false]) == Zero
  {
  }

  /** Row 2 of InvMixMatrix * MixMatrix is row 2 of the identity. */
  lemma ProductRowInverse2()
    ensures RowTimes(InvMixMatrix.r2, MixMatrix) == Identity.r2
  {
    ProductsOfNine();
    ProductsOfEleven();
    ProductsOfThirteen();
    ProductsOfFourteen();
    SumsRowInverse2();
  }

  /** The sums making up row 3 of InvMixMatrix * MixMatrix. */
  lemma SumsRowInverse3()
    ensures Sum4([false, true, true, false, true, false, false, false], [true, false, true, true, false, false, false, false],
                 [true, false, false, true, false, false, false, false], [false, true, false, false, true, false, false, false]) == Zero
    ensures Sum4([true, false, true, true, true, false, false, false], [false, true, false, true, true, false, false, false],
                 [true, false, false, true, false, false, false, false], [false, true, true, true, false, false, false, false]) == Zero
    ensures Sum4([true, true, false, true, false, false, false, false], [true, true, true, false, true, false, false, false],
                 [false, true, false, false, true, false, false, false], [false, true, true, true, false, false, false, false]) == Zero
    ensures Sum4([true, true, false, true, false, false, false, false], [true, false, true, true, false, false, false, false],
                 [true, true, false, true, true, false, false, false], [false, false, true, true, true, false, false, false]) == One
  {
  }

  /** Row 3 of InvMixMatrix * MixMatrix is row 3 of the identity. */
  lemma ProductRowInverse3()
    ensures RowTimes(InvMixMatrix.r3, MixMatrix) == Identity.r3
  {
    ProductsOfNine();
    ProductsOfEleven();
    ProductsOfThirteen();
    ProductsOfFourteen();
    SumsRowInverse3();
  }

  /** The sums making up row 0 of MixMatrix * InvMixMatrix. */
  lemma SumsRowMix0()
    ensures Sum4([false, false, true, true, true, false, false, false], [true, true, false, true, true, false, false, false],
                 [true, false, true, true, false, false, false, false], [true, true, false, true, false, false, false, false]) == One
    ensures Sum4([false, true, true, false, true, false, false, false], [false, true, false, false, true, false, false, false],
                 [true, false, false, true, false, false, false, false], [true, false, true, true, false, false, false, false]) == Zero
    ensures Sum4([false, true, false, true, true, false, false, false], [true, false, true, true, true, false, false, false],
                 [false, true, true, true, false, false, false, false], [true, false, false, true, false, false, false, false]) == Zero
    ensures Sum4([false, true, false, false, true, false, false, false], [true, true, true, false, true, false, false, false],
                 [true, true, false, true, false, false, false, false], [false, true, true, true, false, false, false, false]) == Zero
  {
  }

  /** Row 0 of MixMatrix * InvMixMatrix is row 0 of the identity. */
  lemma ProductRowMix0()
    ensures RowTimes(MixMatrix.r0, InvMixMatrix) == Identity.r0
  {
    ProductsOfNine();
    ProductsOfEleven();
    ProductsOfThirteen();
    ProductsOfFourteen();
    SumsRowMix0();
  }

  /** The sums making up row 1 of MixMatrix * InvMixMatrix. */
  lemma SumsRowMix1()
    ensures Sum4([false, true, true, true, false, false, false, false], [false, true, false, false, true, false, false, false],
                 [true, true, true, false, true, false, false, false], [true, true, false, true, false, false, false, false]) == Zero
    ensures Sum4([true, true, false, true, false, false, false, false], [false, false, true, true, true, false, false, false],
                 [true, true, false, true, true, false, false, false], [true, false, true, true, false, false, false, false]) == One
    ensures Sum4([true, false, true, true, false, false, false, false], [false, true, true, false, true, false, false, false],
                 [false, true, false, false, true, false, false, false], [true, false, false, true, false, false, false, false]) == Zero
    ensures Sum4([true, false, false, true, false, false, false, false], [false, true, false, true, true, false, false, false],
                 [true, false, true, true, true, false, false, false], [false, true, true, true, false, false, false, false]) == Zero
  {
  }

  /** Row 1 of MixMatrix * InvMixMatrix is row 1 of the identity. */
  lemma ProductRowMix1()
    ensures RowTimes(MixMatrix.r1, InvMixMatrix) == Identity.r1
  {
    ProductsOfNine();
    ProductsOfEleven();
    ProductsOfThirteen();
    ProductsOfFourteen();
    SumsRowMix1();
  }

  /** The sums making up row 2 of MixMatrix * InvMixMatrix. */
  lemma SumsRowMix2()
    ensures Sum4([false, true, true, true, false, false, false, false], [true, false, false, true, false, false, false, false],
                 [false, true, false, true, true, false, false, false], [true, false, true, true, true, false, false, false]) == Zero
    ensures Sum4([true, true, false, true, false, false, false, false], [false, true, true, true, false, false, false, false],
                 [false, true, false, false, true, false, false, false], [true, true, true, false, true, false, false, false]) == Zero
    ensures Sum4([true, false, true, true, false, false, false, false], [true, true, false, true, false, false, false, false],
                 [false, false, true, true, true, false, false, false], [true, true, false, true, true, false, false, false]) == One
    ensures Sum4([true, false, false, true, false, false, false, false], [true, false, true, true, false, false, false, false],
                 [false, true, true, false, true, false, false, false], [false, true, false, false, true, false, false, false]) == Zero
  {
  }

  /** Row 2 of MixMatrix * InvMixMatrix is row 2 of the identity. */
  lemma ProductRowMix2()
    ensures RowTimes(MixMatrix.r2, InvMixMatrix) == Identity.r2
  {
    ProductsOfNine();
    ProductsOfEleven();
    ProductsOfThirteen();
    ProductsOfFourteen();
    SumsRowMix2();
  }

  /** The sums making up row 3 of MixMatrix * InvMixMatrix. */
  lemma SumsRowMix3()
    ensures Sum4([false, true, false, false, true, false, false, false], [true, false, false, true, false, false, false, false],
                 [true, false, true, true, false, false, false, false], [false, true, true, false, true, false, false, false]) == Zero
    ensures Sum4([true, false, true, true, true, false, false, false], [false, true, true, true, false, false, false, false],
                 [true, false, false, true, false, false, false, false], [false, true, false, true, true, false, false, false]) == Zero
    ensures Sum4([true, true, true, false, true, false, false, false], [true, true, false, true, false, false, false, false],
                 [false, true, true, true, false, false, false, false], [false, true, false, false, true, false, false, false]) == Zero
    ensures Sum4([true, true, false, true, true, false, false, false], [true, false, true, true, false, false, false, false],
                 [true, true, false, true, false, false, false, false], [false, false, true, true, true, false, false, false]) == One
  {
  }

  /** Row 3 of MixMatrix * InvMixMatrix is row 3 of the identity. */
  lemma ProductRowMix3()
    ensures RowTimes(MixMatrix.r3, InvMixMatrix) == Identity.r3
  {
    ProductsOfNine();
    ProductsOfEleven();
    ProductsOfThirteen();
    ProductsOfFourteen();
    SumsRowMix3();
  }
}
