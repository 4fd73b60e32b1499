/** Multiplication in GF(2^8) as `gmul` in aesalgorithm.py computes it.

    `Product(a, b)` is the field product of two bytes: the product of their
    polynomials modulo x^8 + x^4 + x^3 + x + 1, read back as a byte. `Gmul`
    is the program's shift-and-add loop, proved to compute `Product`. The
    lemmas carry the field laws of module Polynomials over to bytes. */
module GF256 {
  import P = Polynomials
  import opened Bytes

  /** The product of a and b in GF(2^8), bit by bit of b: the low bit of b
      selects a, and the remaining bits of b multiply a doubled in the field
      (section 4.2.1 of FIPS 197). */
  function Product(a: Byte, b: Byte): Byte
    decreases b
  {
    if b == 0 then 0 else Xor(if b % 2 == 1 then a else 0, Product(Double(a), b / 2))
  }

  /** The product of bytes is the product of their polynomials modulo
      x^8 + x^4 + x^3 + x + 1. */
  lemma {:induction false} ProductIsMul(a: Byte, b: Byte)
    ensures ToPoly(Product(a, b)) == P.Mul(ToPoly(a), ToPoly(b))
    decreases b
  {
    var pa, pb := ToPoly(a), ToPoly(b);
    assert ToPoly(0) == P.Zero;
    if b == 0 {
      P.MulZero(pa);
    } else {
      var low: Byte := if b % 2 == 1 then a else 0;
      LowBit(b);
      ShiftRight(b);
      DoubleIsXtime(a);
      ProductIsMul(Double(a), b / 2);
      P.MulStep(pa, pb);
      P.MulXtimeLeft(pa, P.Down(pb));
      assert ToPoly(low) == P.Scale(pa, pb[0]);
      XorIsAdd(low, Product(Double(a), b / 2));
    }
  }

  /** `gmul(a, b)`: eight rounds, each adding a to the result when the low
      bit of b is set, then doubling a in the field (`a & 0x80` is
      `a >= 128` on a byte, `(a << 1) & 0xFF` is `(2 * a) % 256`) and
      halving b. What is still to be added after a round is the product of
      the current a and b. */
  method Gmul(a0: Byte, b0: Byte) returns (p: Byte)
    ensures p == Product(a0, b0)
  {
    var a: Byte, b: Byte := a0, b0;
    p := 0;
    XorLaws(Product(a0, b0), 0, 0);
    for i := 0 to 8
      invariant Xor(p, Product(a, b)) == Product(a0, b0)
      invariant b < Pow2(8 - i)
    {
      GmulRound(p, a, b, 8 - i);
      if b % 2 == 1 {
        p := Xor(p, a);
      }
      var hiBitSet := a >= 128;
      a := (2 * a) % 256;
      if hiBitSet {
        a := Xor(a, 0x1B);
      }
      b := b / 2;
    }
    ProductZeroOne(a);
    XorLaws(p, 0, 0);
  }

  /** One round of the loop keeps its invariant. */
  lemma GmulRound(p: Byte, a: Byte, b: Byte, k: nat)
    requires k > 0 && b < Pow2(k)
    ensures Xor(if b % 2 == 1 then Xor(p, a) else p, Product(Double(a), b / 2)) == Xor(p, Product(a, b))
    ensures b / 2 < Pow2(k - 1)
  {
    var rest := Product(Double(a), b / 2);
    if b == 0 {
      ProductZeroOne(Double(a));
    }
    XorLaws(p, a, rest);
    XorLaws(p, 0, rest);
    XorLaws(rest, 0, 0);
    XorLaws(p, p, p);
  }

  // ---------------------------------------------------------------------------
  // Field laws on bytes

  /** 0 annihilates and 1 is the identity, on either side. */
  lemma ProductZeroOne(a: Byte)
    ensures Product(a, 0) == 0 && Product(0, a) == 0
    ensures Product(a, 1) == a && Product(1, a) == a
  {
    assert ToPoly(0) == P.Zero;
    assert ToPoly(1) == P.One;
    P.MulZero(ToPoly(a));
    P.MulOneRight(ToPoly(a));
    P.MulOneLeft(ToPoly(a));
    ProductIsMul(a, 0);
    ProductIsMul(0, a);
    ProductIsMul(a, 1);
    ProductIsMul(1, a);
    ToPolyInjective(Product(a, 0), 0);
    ToPolyInjective(Product(0, a), 0);
    ToPolyInjective(Product(a, 1), a);
    ToPolyInjective(Product(1, a), a);
  }

  /** The product is commutative. */
  lemma ProductCommutative(a: Byte, b: Byte)
    ensures Product(a, b) == Product(b, a)
  {
    P.MulCommutative(ToPoly(a), ToPoly(b));
    ProductIsMul(a, b);
    ProductIsMul(b, a);
    ToPolyInjective(Product(a, b), Product(b, a));
  }

  /** The product distributes over XOR in both factors. */
  lemma ProductDistributes(a: Byte, b: Byte, c: Byte)
    ensures Product(Xor(a, c), b) == Xor(Product(a, b), Product(c, b))
    ensures Product(a, Xor(b, c)) == Xor(Product(a, b), Product(a, c))
  {
    XorIsAdd(a, c);
    XorIsAdd(b, c);
    P.MulDistributesLeft(ToPoly(a), ToPoly(c), ToPoly(b));
    P.MulDistributesRight(ToPoly(a), ToPoly(b), ToPoly(c));
    ProductIsMul(a, b);
    ProductIsMul(c, b);
    ProductIsMul(a, c);
    ProductIsMul(Xor(a, c), b);
    ProductIsMul(a, Xor(b, c));
    XorIsAdd(Product(a, b), Product(c, b));
    XorIsAdd(Product(a, b), Product(a, c));
    ToPolyInjective(Product(Xor(a, c), b), Xor(Product(a, b), Product(c, b)));
    ToPolyInjective(Product(a, Xor(b, c)), Xor(Product(a, b), Product(a, c)));
  }

  /** The product is associative. */
  lemma ProductAssociative(a: Byte, b: Byte, c: Byte)
    ensures Product(Product(a, b), c) == Product(a, Product(b, c))
  {
    ProductIsMul(a, b);
    ProductIsMul(b, c);
    ProductIsMul(Product(a, b), c);
    ProductIsMul(a, Product(b, c));
    P.MulAssociative(ToPoly(a), ToPoly(b), ToPoly(c));
    ToPolyInjective(Product(Product(a, b), c), Product(a, Product(b, c)));
  }

  /** Multiplying by 2 is one doubling round of `gmul`, and multiplying by
      3 adds the byte itself. */
  lemma ProductTwoThree(a: Byte)
    ensures Product(a, 2) == Double(a)
    ensures Product(a, 3) == Xor(Double(a), a)
  {
    var pa := ToPoly(a);
    assert ToPoly(2) == [false, true, false, false, false, false, false, false];
    assert ToPoly(3) == [true, true, false, false, false, false, false, false];
    assert P.Down(ToPoly(2)) == P.One && P.Down(ToPoly(3)) == P.One;
    P.MulStep(pa, ToPoly(2));
    P.MulStep(pa, ToPoly(3));
    P.MulOneRight(pa);
    P.AddLaws(P.Xtime(pa), P.Zero, P.Zero);
    P.AddLaws(pa, P.Xtime(pa), P.Zero);
    DoubleIsXtime(a);
    XorIsAdd(Double(a), a);
    ProductIsMul(a, 2);
    ProductIsMul(a, 3);
    ToPolyInjective(Product(a, 2), Double(a));
    ToPolyInjective(Product(a, 3), Xor(Double(a), a));
  }
}
