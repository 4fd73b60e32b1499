/** Bytes as the Python programs see them: integers in 0..255, combined
    with the bitwise exclusive or of Python's `^` operator.

    A byte's binary digits, lowest first, are the coefficients of a
    polynomial in module Polynomials. `ToPoly` reads them off and
    `FromPoly` puts them back together; the two are mutually inverse.
    Exclusive or is defined digit by digit, so it is addition of
    polynomials. The bit manipulations of the `gmul` loop (`b & 1`,
    `b >>= 1`, `a & 0x80`, `(a << 1) & 0xFF`, `a ^= 0x1B`) are related here
    to the polynomial operations they implement. */
module Bytes {
  import opened Polynomials

  /** A byte: an integer in 0..255. */
  type Byte = x: int | 0 <= x < 256

  /** 2 to the power k. */
  function Pow2(k: nat): (r: nat)
    ensures r >= 1
  {
    if k == 0 then 1 else 2 * Pow2(k - 1)
  }

  /** The n lowest binary digits of a, lowest first. */
  function Bits(a: nat, n: nat): (s: seq<bool>)
    ensures |s| == n
  {
    if n == 0 then [] else [a % 2 == 1] + Bits(a / 2, n - 1)
  }

  /** The number whose binary digits, lowest first, are s. */
  function Value(s: seq<bool>): nat
  {
    if |s| == 0 then 0 else (if s[0] then 1 else 0) + 2 * Value(s[1..])
  }

  lemma {:induction false} ValueBound(s: seq<bool>)
    ensures Value(s) < Pow2(|s|)
  {
    if |s| > 0 {
      ValueBound(s[1..]);
    }
  }

  /** Digits are read off a number below 2^n and put back unchanged. */
  lemma {:induction false} ValueOfBits(a: nat, n: nat)
    requires a < Pow2(n)
    ensures Value(Bits(a, n)) == a
  {
    if n > 0 {
      ValueOfBits(a / 2, n - 1);
      assert Bits(a, n)[1..] == Bits(a / 2, n - 1);
    }
  }

  /** A digit sequence is recovered from the number it denotes. */
  lemma {:induction false} BitsOfValue(s: seq<bool>)
    ensures Bits(Value(s), |s|) == s
  {
    if |s| > 0 {
      var v := Value(s[1..]);
      assert Value(s) / 2 == v && (Value(s) % 2 == 1) == s[0];
      BitsOfValue(s[1..]);
      assert s == [s[0]] + s[1..];
    }
  }

  /** A number below 2^n has a zero digit at position n. */
  lemma {:induction false} BitsTopZero(a: nat, n: nat)
    requires a < Pow2(n)
    ensures Bits(a, n + 1) == Bits(a, n) + [false]
  {
    if n == 0 {
      assert a == 0;
    } else {
      BitsTopZero(a / 2, n - 1);
    }
  }

  /** Appending a digit adds its weight. */
  lemma {:induction false} ValueAppend(t: seq<bool>, b: bool)
    ensures Value(t + [b]) == Value(t) + (if b then Pow2(|t|) else 0)
  {
    if |t| > 0 {
      assert (t + [b])[1..] == t[1..] + [b];
      ValueAppend(t[1..], b);
    } else {
      assert (t + [b])[1..] == [];
    }
  }

  /** The coefficients of a byte. */
  function ToPoly(a: Byte): Poly
  {
    Bits(a, 8)
  }

  /** The byte with the given coefficients. */
  function FromPoly(p: Poly): Byte
  {
    ValueBound(p);
    Value(p)
  }

  /** Reading the coefficients off a byte and putting them back gives the
      byte, and the other way round: bytes and polynomials correspond one to
      one. */
  lemma Correspondence(a: Byte, p: Poly)
    ensures FromPoly(ToPoly(a)) == a
    ensures ToPoly(FromPoly(p)) == p
  {
    ValueOfBits(a, 8);
    BitsOfValue(p);
  }

  /** Bytes with the same coefficients are equal. */
  lemma ToPolyInjective(a: Byte, b: Byte)
    requires ToPoly(a) == ToPoly(b)
    ensures a == b
  {
    Correspondence(a, Zero);
    Correspondence(b, Zero);
  }

  // ---------------------------------------------------------------------------
  // Exclusive or

  /** 0 for an even number of set bits, 1 for an odd one. */
  function Parity(n: nat): (r: nat)
    requires n <= 3
    ensures r < 2
  {
    if n == 0 || n == 2 then 0 else 1
  }

  /** Bitwise exclusive or of two naturals: the lowest bit of the result is
      the parity of the two lowest bits, and the remaining bits are the XOR
      of the remaining bits. */
  function BitXor(a: nat, b: nat): nat
    decreases a + b
  {
    if a == 0 && b == 0 then 0 else 2 * BitXor(a / 2, b / 2) + Parity(a % 2 + b % 2)
  }

  /** The lowest bit and the remaining bits of a XOR, also when both
      arguments are 0. */
  lemma BitXorHalves(a: nat, b: nat)
    ensures BitXor(a, b) / 2 == BitXor(a / 2, b / 2)
    ensures BitXor(a, b) % 2 == Parity(a % 2 + b % 2)
  {
  }

  /** XOR of numbers below 2^k stays below 2^k. */
  lemma {:induction false} BitXorBelow(a: nat, b: nat, k: nat)
    requires a < Pow2(k) && b < Pow2(k)
    ensures BitXor(a, b) < Pow2(k)
  {
    BitXorHalves(a, b);
    if k > 0 {
      BitXorBelow(a / 2, b / 2, k - 1);
    } else {
      assert a == 0 && b == 0;
    }
  }

  /** The digits of a XOR are the pairwise sums of the digits. */
  lemma {:induction false} BitsOfXor(a: nat, b: nat, n: nat)
    ensures forall i :: 0 <= i < n ==> Bits(BitXor(a, b), n)[i] == (Bits(a, n)[i] != Bits(b, n)[i])
  {
    if n > 0 {
      BitXorHalves(a, b);
      BitsOfXor(a / 2, b / 2, n - 1);
    }
  }

  /** Python's `a ^ b` on bytes. */
  function Xor(a: Byte, b: Byte): Byte
  {
    assert Pow2(8) == 256;
    BitXorBelow(a, b, 8);
    BitXor(a, b)
  }

  /** Exclusive or of bytes is the sum of their polynomials. */
  lemma XorIsAdd(a: Byte, b: Byte)
    ensures ToPoly(Xor(a, b)) == Add(ToPoly(a), ToPoly(b))
  {
    BitsOfXor(a, b, 8);
  }

  /** 0 is the identity of XOR, every byte is its own XOR inverse, and XOR
      is commutative and associative. */
  lemma XorLaws(a: Byte, b: Byte, c: Byte)
    ensures Xor(a, 0) == a && Xor(0, a) == a
    ensures Xor(a, a) == 0
    ensures Xor(a, b) == Xor(b, a)
    ensures Xor(Xor(a, b), c) == Xor(a, Xor(b, c))
  {
    var pa, pb, pc := ToPoly(a), ToPoly(b), ToPoly(c);
    assert ToPoly(0) == Zero;
    AddLaws(pa, pb, pc);
    XorIsAdd(a, 0);
    XorIsAdd(0, a);
    XorIsAdd(a, a);
    XorIsAdd(a, b);
    XorIsAdd(b, a);
    XorIsAdd(b, c);
    XorIsAdd(Xor(a, b), c);
    XorIsAdd(a, Xor(b, c));
    ToPolyInjective(Xor(a, 0), a);
    ToPolyInjective(Xor(0, a), a);
    ToPolyInjective(Xor(a, a), 0);
    ToPolyInjective(Xor(a, b), Xor(b, a));
    ToPolyInjective(Xor(Xor(a, b), c), Xor(a, Xor(b, c)));
  }

  /** XORing with b twice gives back a. */
  lemma XorCancel(a: Byte, b: Byte)
    ensures Xor(Xor(a, b), b) == a
  {
    XorLaws(a, b, b);
    XorLaws(b, b, b);
    XorLaws(a, a, a);
  }

  // ---------------------------------------------------------------------------
  // The bit operations of the multiplication loop

  /** `b & 1` is the constant coefficient. */
  lemma LowBit(b: Byte)
    ensures ToPoly(b)[0] == (b % 2 == 1)
  {
  }

  /** `b >> 1` divides by x, dropping the constant coefficient. */
  lemma ShiftRight(b: Byte)
    ensures b / 2 < 256 && ToPoly(b / 2) == Down(ToPoly(b))
  {
    assert Pow2(7) == 128;
    BitsTopZero(b / 2, 7);
  }

  /** `a & 0x80` is the coefficient of x^7. */
  lemma HighBit(a: Byte)
    ensures ToPoly(a)[7] == (a >= 128)
  {
    var s := ToPoly(a);
    var t := s[..7];
    assert s == t + [s[7]];
    assert Pow2(7) == 128;
    ValueAppend(t, s[7]);
    ValueBound(t);
    ValueOfBits(a, 8);
  }

  /** 0x1B is x^4 + x^3 + x + 1. */
  lemma ReductionByte()
    ensures ToPoly(0x1B) == Reduction
  {
  }

  /** `(a << 1) & 0xFF` moves every coefficient up a degree and drops the
      one of degree 7. */
  lemma ShiftLeft(a: Byte)
    ensures ToPoly((2 * a) % 256) == [false] + ToPoly(a)[..7]
  {
    var s := ToPoly(a);
    var t := s[..7];
    assert s == t + [s[7]];
    assert Pow2(7) == 128;
    ValueAppend(t, s[7]);
    ValueBound(t);
    ValueOfBits(a, 8);
    assert ([false] + t)[1..] == t;
    assert (2 * a) % 256 == Value([false] + t);
    BitsOfValue([false] + t);
  }

  /** One round of doubling in the `gmul` loop: shift left within the byte
      and XOR in 0x1B when the top bit was set. */
  function Double(a: Byte): Byte
  {
    var shifted := (2 * a) % 256;
    if a >= 128 then Xor(shifted, 0x1B) else shifted
  }

  /** Doubling in the loop multiplies by x modulo x^8 + x^4 + x^3 + x + 1. */
  lemma DoubleIsXtime(a: Byte)
    ensures ToPoly(Double(a)) == Xtime(ToPoly(a))
  {
    var shifted := (2 * a) % 256;
    ShiftLeft(a);
    HighBit(a);
    XtimeSplit(ToPoly(a));
    if a >= 128 {
      ReductionByte();
      XorIsAdd(shifted, 0x1B);
    } else {
      AddLaws(ToPoly(shifted), Zero, Zero);
    }
  }
}
