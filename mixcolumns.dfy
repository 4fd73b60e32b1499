/** MixColumns and InvMixColumns of aesalgorithm.py. Each allocates a new
    matrix of zeros and fills it column by column in a loop, every cell a
    XOR of four terms, each term a cell of the input column or its `gmul`
    product with a constant.

    Both matrices are circulant: the factors of row r are those of row 0
    rotated right by r places. So cell r of a mixed column is the row-0
    formula applied to the column read from row r onwards, wrapping
    around (`MixColumnsOf`); the methods prove that the per-row formulas
    of the program compute exactly that.

    Read as polynomials, column c of the result is a fixed matrix times
    column c of the input (`MixedColumn`, `InvMixedColumn`), and the two
    matrices are inverse to each other (module MixMatrices); that is why
    InvMixColumns undoes MixColumns. */
module AesMixColumns {
  import opened Polynomials
  import opened Bytes
  import opened GF256
  import opened Matrices
  import opened MixMatrices
  import opened AesState

  /** Row 0 of `mix_columns` (aesalgorithm.py:79) for a column x0, x1, x2,
      x3: `gmul(x0, 2) ^ gmul(x1, 3) ^ x2 ^ x3`, grouped left to right as
      Python evaluates it. */
  function MixedCell(x0: Byte, x1: Byte, x2: Byte, x3: Byte): Byte
  {
    Xor(Xor(Xor(Product(x0, 2), Product(x1, 3)), x2), x3)
  }

  /** Row 0 of `inv_mix_columns` (aesalgorithm.py:98). */
  function InvMixedCell(x0: Byte, x1: Byte, x2: Byte, x3: Byte): Byte
  {
    Xor(Xor(Xor(Product(x0, 0x0e), Product(x1, 0x0b)), Product(x2, 0x0d)), Product(x3, 0x09))
  }

  /** The state whose cell k (row k / 4, column k % 4) is `cell` applied
      to the cells of its column from its own row downwards, wrapping
      around: cells k, k + 4, k + 8 and k + 12, modulo 16. A circulant
      matrix applied to every column has this form. */
  function Circulant(s: State, cell: (Byte, Byte, Byte, Byte) -> Byte): State
  {
    seq(16, k requires 0 <= k < 16 => CirculantCell(s, cell, k))
  }

  /** Cell k of `Circulant(s, cell)`. */
  function CirculantCell(s: State, cell: (Byte, Byte, Byte, Byte) -> Byte, k: int): Byte
    requires 0 <= k < 16
  {
    cell(s[k], s[(k + 4) % 16], s[(k + 8) % 16], s[(k + 12) % 16])
  }

  /** MixColumns on the state value. */
  function MixColumnsOf(s: State): State
  {
    Circulant(s, MixedCell)
  }

  /** InvMixColumns on the state value. */
  function InvMixColumnsOf(s: State): State
  {
    Circulant(s, InvMixedCell)
  }

  /** Column i of a circulant state, cell by cell: row r combines the
      column read from row r onwards. */
  lemma CirculantColumn(s: State, cell: (Byte, Byte, Byte, Byte) -> Byte, i: int)
    requires 0 <= i < 4
    ensures Circulant(s, cell)[i] == cell(s[i], s[4 + i], s[8 + i], s[12 + i])
    ensures Circulant(s, cell)[4 + i] == cell(s[4 + i], s[8 + i], s[12 + i], s[i])
    ensures Circulant(s, cell)[8 + i] == cell(s[8 + i], s[12 + i], s[i], s[4 + i])
    ensures Circulant(s, cell)[12 + i] == cell(s[12 + i], s[i], s[4 + i], s[8 + i])
  {
    assert (i + 4) % 16 == 4 + i && (i + 8) % 16 == 8 + i && (i + 12) % 16 == 12 + i;
    assert (4 + i + 4) % 16 == 8 + i && (4 + i + 8) % 16 == 12 + i && (4 + i + 12) % 16 == i;
    assert (8 + i + 4) % 16 == 12 + i && (8 + i + 8) % 16 == i && (8 + i + 12) % 16 == 4 + i;
    assert (12 + i + 4) % 16 == i && (12 + i + 8) % 16 == 4 + i && (12 + i + 12) % 16 == 8 + i;
  }

  /** A XOR of four bytes does not change when its terms are rotated. */
  lemma XorRotations(a: Byte, b: Byte, c: Byte, d: Byte)
    ensures Xor(Xor(Xor(a, b), c), d) == Xor(Xor(Xor(b, c), d), a)
    ensures Xor(Xor(Xor(a, b), c), d) == Xor(Xor(Xor(c, d), a), b)
    ensures Xor(Xor(Xor(a, b), c), d) == Xor(Xor(Xor(d, a), b), c)
  {
    XorRotate(a, b, c, d);
    XorRotate(b, c, d, a);
    XorRotate(c, d, a, b);
  }

  /** One rotation: ((a ^ b) ^ c) ^ d == ((b ^ c) ^ d) ^ a. */
  lemma XorRotate(a: Byte, b: Byte, c: Byte, d: Byte)
    ensures Xor(Xor(Xor(a, b), c), d) == Xor(Xor(Xor(b, c), d), a)
  {
    XorLaws(a, b, c);
    XorLaws(a, Xor(b, c), d);
    XorLaws(a, Xor(Xor(b, c), d), 0);
  }

  // ---------------------------------------------------------------------------
  // The methods

  /** `mix_columns` (aesalgorithm.py:76-83): a new matrix of zeros, filled
      one column per round of the loop. */
  method MixColumns(state: array2<Byte>) returns (mixed: array2<Byte>)
    requires IsMatrix(state)
    ensures fresh(mixed) && IsMatrix(mixed)
    ensures Contents(mixed) == MixColumnsOf(Contents(state))
  {
    ghost var s := Contents(state);
    ghost var m := MixColumnsOf(s);
    mixed := new Byte[4, 4]((r, c) => 0);
    ghost var t := Contents(mixed);
    for i := 0 to 4
      invariant Contents(mixed) == t
      invariant FilledUpTo(t, m, i)
    {
      ColumnOfContents(state, i);
      var y0, y1, y2, y3 := MixColumn(state[0, i], state[1, i], state[2, i], state[3, i]);
      CirculantColumn(s, MixedCell, i);
      SetColumn(mixed, i, y0, y1, y2, y3);
      FillColumn(t, m, i, y0, y1, y2, y3);
      t := t[i := y0][4 + i := y1][8 + i := y2][12 + i := y3];
    }
    Filled(t, m);
  }

  /** The four cells one round of the loop in `mix_columns` stores in
      column i (aesalgorithm.py:79-82), computed from column i of the
      input, x0 in row 0 to x3 in row 3. */
  method MixColumn(x0: Byte, x1: Byte, x2: Byte, x3: Byte) returns (y0: Byte, y1: Byte, y2: Byte, y3: Byte)
    ensures y0 == MixedCell(x0, x1, x2, x3)
    ensures y1 == MixedCell(x1, x2, x3, x0)
    ensures y2 == MixedCell(x2, x3, x0, x1)
    ensures y3 == MixedCell(x3, x0, x1, x2)
  {
    var t0 := Gmul(x0, 2);
    var t1 := Gmul(x1, 3);
    y0 := Xor(Xor(Xor(t0, t1), x2), x3);
    t0 := Gmul(x1, 2);
    t1 := Gmul(x2, 3);
    y1 := Xor(Xor(Xor(x0, t0), t1), x3);
    XorRotations(x0, t0, t1, x3);
    t0 := Gmul(x2, 2);
    t1 := Gmul(x3, 3);
    y2 := Xor(Xor(Xor(x0, x1), t0), t1);
    XorRotations(x0, x1, t0, t1);
    t0 := Gmul(x0, 3);
    t1 := Gmul(x3, 2);
    y3 := Xor(Xor(Xor(t0, x1), x2), t1);
    XorRotations(t0, x1, x2, t1);
  }

  /** `inv_mix_columns` (aesalgorithm.py:95-102). */
  method InvMixColumns(state: array2<Byte>) returns (mixed: array2<Byte>)
    requires IsMatrix(state)
    ensures fresh(mixed) && IsMatrix(mixed)
    ensures Contents(mixed) == InvMixColumnsOf(Contents(state))
  {
    ghost var s := Contents(state);
    ghost var m := InvMixColumnsOf(s);
    mixed := new Byte[4, 4]((r, c) => 0);
    ghost var t := Contents(mixed);
    for i := 0 to 4
      invariant Contents(mixed) == t
      invariant FilledUpTo(t, m, i)
    {
      ColumnOfContents(state, i);
      var y0, y1, y2, y3 := InvMixColumn(state[0, i], state[1, i], state[2, i], state[3, i]);
      CirculantColumn(s, InvMixedCell, i);
      SetColumn(mixed, i, y0, y1, y2, y3);
      FillColumn(t, m, i, y0, y1, y2, y3);
      t := t[i := y0][4 + i := y1][8 + i := y2][12 + i := y3];
    }
    Filled(t, m);
  }

  /** The four cells one round of the loop in `inv_mix_columns` stores in
      column i (aesalgorithm.py:98-101). */
  method InvMixColumn(x0: Byte, x1: Byte, x2: Byte, x3: Byte) returns (y0: Byte, y1: Byte, y2: Byte, y3: Byte)
    ensures y0 == InvMixedCell(x0, x1, x2, x3)
    ensures y1 == InvMixedCell(x1, x2, x3, x0)
    ensures y2 == InvMixedCell(x2, x3, x0, x1)
    ensures y3 == InvMixedCell(x3, x0, x1, x2)
  {
    var t0 := Gmul(x0, 0x0e);
    var t1 := Gmul(x1, 0x0b);
    var t2 := Gmul(x2, 0x0d);
    var t3 := Gmul(x3, 0x09);
    y0 := Xor(Xor(Xor(t0, t1), t2), t3);
    t0 := Gmul(x0, 0x09);
    t1 := Gmul(x1, 0x0e);
    t2 := Gmul(x2, 0x0b);
    t3 := Gmul(x3, 0x0d);
    y1 := Xor(Xor(Xor(t0, t1), t2), t3);
    XorRotations(t0, t1, t2, t3);
    t0 := Gmul(x0, 0x0d);
    t1 := Gmul(x1, 0x09);
    t2 := Gmul(x2, 0x0e);
    t3 := Gmul(x3, 0x0b);
    y2 := Xor(Xor(Xor(t0, t1), t2), t3);
    XorRotations(t0, t1, t2, t3);
    t0 := Gmul(x0, 0x0b);
    t1 := Gmul(x1, 0x0d);
    t2 := Gmul(x2, 0x09);
    t3 := Gmul(x3, 0x0e);
    y3 := Xor(Xor(Xor(t0, t1), t2), t3);
    XorRotations(t0, t1, t2, t3);
  }

  /** The four assignments that end one round of either loop: column i
      of the new matrix receives y0 to y3, and nothing else changes. */
  method SetColumn(mixed: array2<Byte>, i: int, y0: Byte, y1: Byte, y2: Byte, y3: Byte)
    requires IsMatrix(mixed) && 0 <= i < 4
    modifies mixed
    ensures Contents(mixed) == old(Contents(mixed))[i := y0][4 + i := y1][8 + i := y2][12 + i := y3]
  {
    mixed[0, i] := y0;
    mixed[1, i] := y1;
    mixed[2, i] := y2;
    mixed[3, i] := y3;
  }

  // ---------------------------------------------------------------------------
  // Bookkeeping for the loops

  /** The columns left of i of t already hold those of m. */
  predicate FilledUpTo(t: State, m: State, i: int)
  {
    forall k :: 0 <= k < 16 && k % 4 < i ==> t[k] == m[k]
  }

  /** Storing column i of m into t extends the filled part by one column. */
  lemma FillColumn(t: State, m: State, i: int, y0: Byte, y1: Byte, y2: Byte, y3: Byte)
    requires 0 <= i < 4 && FilledUpTo(t, m, i)
    requires m[i] == y0 && m[4 + i] == y1 && m[8 + i] == y2 && m[12 + i] == y3
    ensures FilledUpTo(t[i := y0][4 + i := y1][8 + i := y2][12 + i := y3], m, i + 1)
  {
    var t' := t[i := y0][4 + i := y1][8 + i := y2][12 + i := y3];
    forall k | 0 <= k < 16 && k % 4 < i + 1
      ensures t'[k] == m[k]
    {
      if k % 4 == i {
        assert k == i || k == 4 + i || k == 8 + i || k == 12 + i;
      }
    }
  }

  /** Once every column is filled, t is m. */
  lemma Filled(t: State, m: State)
    requires FilledUpTo(t, m, 4)
    ensures t == m
  {
    forall k | 0 <= k < 16
      ensures t[k] == m[k]
    {
      assert k % 4 < 4;
    }
  }

  // ---------------------------------------------------------------------------
  // Columns as vectors of field elements

  /** Column c of a state, as four polynomials, row 0 first. */
  function ColumnOf(s: State, c: int): Vec
    requires 0 <= c < 4
  {
    var column := Column(s, c);
    Vec(ToPoly(column[0]), ToPoly(column[1]), ToPoly(column[2]), ToPoly(column[3]))
  }

  /** The coefficients of the two matrices, as polynomials: 0x01, 0x02,
      0x03, 0x09, 0x0b, 0x0d and 0x0e. */
  lemma CoefficientOne() ensures ToPoly(1) == One {}
  lemma CoefficientTwo() ensures ToPoly(2) == Two {}
  lemma CoefficientThree() ensures ToPoly(3) == Three {}
  lemma CoefficientNine() ensures ToPoly(0x09) == Nine {}
  lemma CoefficientEleven() ensures ToPoly(0x0b) == Eleven {}
  lemma CoefficientThirteen() ensures ToPoly(0x0d) == Thirteen {}
  lemma CoefficientFourteen() ensures ToPoly(0x0e) == Fourteen {}

  /** A XOR of four `gmul` products is the sum of the products of their
      polynomials: row k0..k3 of a matrix times the column x0..x3. */
  lemma Combination(x0: Byte, x1: Byte, x2: Byte, x3: Byte, k0: Byte, k1: Byte, k2: Byte, k3: Byte)
    ensures ToPoly(Xor(Xor(Xor(Product(x0, k0), Product(x1, k1)), Product(x2, k2)), Product(x3, k3)))
         == Dot(Vec(ToPoly(k0), ToPoly(k1), ToPoly(k2), ToPoly(k3)), Vec(ToPoly(x0), ToPoly(x1), ToPoly(x2), ToPoly(x3)))
  {
    var a, b, c, d := Product(x0, k0), Product(x1, k1), Product(x2, k2), Product(x3, k3);
    XorIsAdd(a, b);
    XorIsAdd(Xor(a, b), c);
    XorIsAdd(Xor(Xor(a, b), c), d);
    ProductIsMul(x0, k0);
    ProductIsMul(x1, k1);
    ProductIsMul(x2, k2);
    ProductIsMul(x3, k3);
  }

  /** Read as polynomials, the four cells `mix_columns` computes for a
      column are the MixColumns matrix times that column. */
  lemma MixColumnPoly(x0: Byte, x1: Byte, x2: Byte, x3: Byte)
    ensures Vec(ToPoly(MixedCell(x0, x1, x2, x3)), ToPoly(MixedCell(x1, x2, x3, x0)),
                ToPoly(MixedCell(x2, x3, x0, x1)), ToPoly(MixedCell(x3, x0, x1, x2)))
         == Apply(MixMatrix, Vec(ToPoly(x0), ToPoly(x1), ToPoly(x2), ToPoly(x3)))
  {
    CoefficientOne();
    CoefficientTwo();
    CoefficientThree();
    ProductZeroOne(x0);
    ProductZeroOne(x1);
    ProductZeroOne(x2);
    ProductZeroOne(x3);
    Combination(x0, x1, x2, x3, 2, 3, 1, 1);
    XorRotations(Product(x1, 2), Product(x2, 3), x3, x0);
    Combination(x0, x1, x2, x3, 1, 2, 3, 1);
    XorRotations(Product(x2, 2), Product(x3, 3), x0, x1);
    Combination(x0, x1, x2, x3, 1, 1, 2, 3);
    XorRotations(Product(x3, 2), Product(x0, 3), x1, x2);
    Combination(x0, x1, x2, x3, 3, 1, 1, 2);
  }

  /** Read as polynomials, the four cells `inv_mix_columns` computes for a
      column are the inverse matrix times that column. */
  lemma InvMixColumnPoly(x0: Byte, x1: Byte, x2: Byte, x3: Byte)
    ensures Vec(ToPoly(InvMixedCell(x0, x1, x2, x3)), ToPoly(InvMixedCell(x1, x2, x3, x0)),
                ToPoly(InvMixedCell(x2, x3, x0, x1)), ToPoly(InvMixedCell(x3, x0, x1, x2)))
         == Apply(InvMixMatrix, Vec(ToPoly(x0), ToPoly(x1), ToPoly(x2), ToPoly(x3)))
  {
    CoefficientNine();
    CoefficientEleven();
    CoefficientThirteen();
    CoefficientFourteen();
    Combination(x0, x1, x2, x3, 0x0e, 0x0b, 0x0d, 0x09);
    XorRotations(Product(x1, 0x0e), Product(x2, 0x0b), Product(x3, 0x0d), Product(x0, 0x09));
    Combination(x0, x1, x2, x3, 0x09, 0x0e, 0x0b, 0x0d);
    XorRotations(Product(x2, 0x0e), Product(x3, 0x0b), Product(x0, 0x0d), Product(x1, 0x09));
    Combination(x0, x1, x2, x3, 0x0d, 0x09, 0x0e, 0x0b);
    XorRotations(Product(x3, 0x0e), Product(x0, 0x0b), Product(x1, 0x0d), Product(x2, 0x09));
    Combination(x0, x1, x2, x3, 0x0b, 0x0d, 0x09, 0x0e);
  }

  /** Column c of MixColumns is the MixColumns matrix times column c of the
      input. */
  lemma MixedColumn(s: State, c: int)
    requires 0 <= c < 4
    ensures ColumnOf(MixColumnsOf(s), c) == Apply(MixMatrix, ColumnOf(s, c))
  {
    CirculantColumn(s, MixedCell, c);
    MixColumnPoly(s[c], s[4 + c], s[8 + c], s[12 + c]);
  }

  /** Column c of InvMixColumns is the inverse matrix times column c of the
      input. */
  lemma InvMixedColumn(s: State, c: int)
    requires 0 <= c < 4
    ensures ColumnOf(InvMixColumnsOf(s), c) == Apply(InvMixMatrix, ColumnOf(s, c))
  {
    CirculantColumn(s, InvMixedCell, c);
    InvMixColumnPoly(s[c], s[4 + c], s[8 + c], s[12 + c]);
  }

  /** States with the same columns, read as polynomials, are equal. */
  lemma ColumnsDetermine(s: State, t: State)
    requires forall c :: 0 <= c < 4 ==> ColumnOf(s, c) == ColumnOf(t, c)
    ensures s == t
  {
    forall k | 0 <= k < 16
      ensures s[k] == t[k]
    {
      var c := k % 4;
      assert ColumnOf(s, c) == ColumnOf(t, c);
      assert k == c || k == 4 + c || k == 8 + c || k == 12 + c;
      ToPolyInjective(s[k], t[k]);
    }
  }

  // ---------------------------------------------------------------------------
  // Properties

  /** InvMixColumns undoes MixColumns. */
  lemma InvMixColumnsUndoesMix(s: State)
    ensures InvMixColumnsOf(MixColumnsOf(s)) == s
  {
    var m := MixColumnsOf(s);
    forall c | 0 <= c < 4
      ensures ColumnOf(InvMixColumnsOf(m), c) == ColumnOf(s, c)
    {
      InvMixedColumn(m, c);
      MixedColumn(s, c);
      InverseUndoesMix(ColumnOf(s, c));
    }
    ColumnsDetermine(InvMixColumnsOf(m), s);
  }

  /** MixColumns undoes InvMixColumns. */
  lemma MixColumnsUndoesInv(s: State)
    ensures MixColumnsOf(InvMixColumnsOf(s)) == s
  {
    var m := InvMixColumnsOf(s);
    forall c | 0 <= c < 4
      ensures ColumnOf(MixColumnsOf(m), c) == ColumnOf(s, c)
    {
      MixedColumn(m, c);
      InvMixedColumn(s, c);
      MixUndoesInverse(ColumnOf(s, c));
    }
    ColumnsDetermine(MixColumnsOf(m), s);
  }

  /** Column c of either output depends on column c of the input only. */
  lemma MixColumnsColumnwise(s: State, t: State, c: int)
    requires 0 <= c < 4
    requires s[c] == t[c] && s[4 + c] == t[4 + c] && s[8 + c] == t[8 + c] && s[12 + c] == t[12 + c]
    ensures MixColumnsOf(s)[c] == MixColumnsOf(t)[c] && MixColumnsOf(s)[4 + c] == MixColumnsOf(t)[4 + c]
    ensures MixColumnsOf(s)[8 + c] == MixColumnsOf(t)[8 + c] && MixColumnsOf(s)[12 + c] == MixColumnsOf(t)[12 + c]
    ensures InvMixColumnsOf(s)[c] == InvMixColumnsOf(t)[c] && InvMixColumnsOf(s)[4 + c] == InvMixColumnsOf(t)[4 + c]
    ensures InvMixColumnsOf(s)[8 + c] == InvMixColumnsOf(t)[8 + c] && InvMixColumnsOf(s)[12 + c] == InvMixColumnsOf(t)[12 + c]
  {
    CirculantColumn(s, MixedCell, c);
    CirculantColumn(t, MixedCell, c);
    CirculantColumn(s, InvMixedCell, c);
    CirculantColumn(t, InvMixedCell, c);
  }
}
