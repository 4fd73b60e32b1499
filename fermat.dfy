/** Fermat's little theorem, by way of the binomial theorem: for a prime
    p, every m^p - m is a multiple of p, so m^(1 + j * (p - 1)) leaves the
    same remainder as m. With two primes this is the reason RSA
    decryption (rsaalgorithm.py:97-105) undoes encryption
    (rsaalgorithm.py:75-89). */
module Fermat {
  import opened NumberTheory

  /** The binomial coefficient "n choose k", by Pascal's rule. */
  function Binom(n: nat, k: nat): nat
  {
    if k == 0 then 1
    else if n == 0 then 0
    else Binom(n - 1, k - 1) + Binom(n - 1, k)
  }

  /** There is no way to choose more than n of n. */
  lemma {:induction false} BinomBeyond(n: nat, k: nat)
    requires k > n
    ensures Binom(n, k) == 0
  {
    if n > 0 {
      BinomBeyond(n - 1, k - 1);
      BinomBeyond(n - 1, k);
    }
  }

  /** There is one way to choose all n. */
  lemma {:induction false} BinomAll(n: nat)
    ensures Binom(n, n) == 1
  {
    if n > 0 {
      BinomAll(n - 1);
      BinomBeyond(n - 1, n);
    }
  }

  /** k * C(n, k) == n * C(n - 1, k - 1). */
  lemma {:induction false} Absorption(n: nat, k: nat)
    requires n >= 1 && k >= 1
    ensures k * Binom(n, k) == n * Binom(n - 1, k - 1)
  {
    if n == 1 {
      if k > 1 {
        BinomBeyond(0, k - 1);
        BinomBeyond(0, k);
      }
    } else if k == 1 {
      Absorption(n - 1, 1);
    } else {
      Absorption(n - 1, k);
      Absorption(n - 1, k - 1);
      AbsorptionStep(n, k, Binom(n - 1, k - 1), Binom(n - 1, k), Binom(n - 2, k - 2), Binom(n - 2, k - 1));
    }
  }

  /** The arithmetic of one step of Absorption. */
  lemma AbsorptionStep(n: int, k: int, b11: int, b10: int, b22: int, b21: int)
    requires (k - 1) * b11 == (n - 1) * b22
    requires k * b10 == (n - 1) * b21
    requires b11 == b22 + b21
    ensures k * (b11 + b10) == n * b11
  {
    assert k * b11 == (k - 1) * b11 + b11;
    assert n * b11 == (n - 1) * b11 + b11;
    assert (n - 1) * b11 == (n - 1) * b22 + (n - 1) * b21;
  }

  /** A prime p divides C(p, k) for 0 < k < p. */
  lemma PrimeDividesBinom(p: nat, k: nat)
    requires IsPrime(p) && 0 < k < p
    ensures Divides(p, Binom(p, k))
  {
    Absorption(p, k);
    assert Divides(p, k * Binom(p, k)) by {
      assert k * Binom(p, k) == p * Binom(p - 1, k - 1);
    }
    PrimeDoesNotDivideSmaller(p, k);
    EuclidLemma(p, k, Binom(p, k));
  }

  /** The first j + 1 terms of the expansion of (a + 1)^n:
      the sum of C(n, k) * a^k for k from 0 to j. */
  function Expansion(n: nat, a: int, j: nat): int
  {
    if j == 0 then Binom(n, 0) * Pow(a, 0)
    else Expansion(n, a, j - 1) + Binom(n, j) * Pow(a, j)
  }

  /** Pascal's rule, summed: the expansion for n + 1 is the expansion for
      n plus a times the same expansion shifted by one term. */
  lemma {:induction false} PascalExpansion(n: nat, a: int, j: nat)
    requires j >= 1
    ensures Expansion(n + 1, a, j) == Expansion(n, a, j) + a * Expansion(n, a, j - 1)
  {
    if j > 1 {
      PascalExpansion(n, a, j - 1);
      PascalTerm(a, Pow(a, j - 1), Binom(n, j - 1), Binom(n, j),
        Expansion(n, a, j - 1), Expansion(n, a, j - 2), Expansion(n + 1, a, j - 1));
    }
  }

  /** The arithmetic of one step of PascalExpansion. */
  lemma PascalTerm(a: int, pow: int, b1: int, b0: int, e1: int, e2: int, f1: int)
    requires f1 == e1 + a * e2
    requires e1 == e2 + b1 * pow
    ensures f1 + (b1 + b0) * (a * pow) == (e1 + b0 * (a * pow)) + a * e1
  {
    assert a * e1 == a * e2 + b1 * (a * pow);
  }

  /** Terms beyond the n-th are 0. */
  lemma {:induction false} ExpansionComplete(n: nat, a: int, j: nat)
    requires j >= n
    ensures Expansion(n, a, j) == Expansion(n, a, n)
  {
    if j > n {
      ExpansionComplete(n, a, j - 1);
      BinomBeyond(n, j);
    }
  }

  /** The binomial theorem: (a + 1)^n is the sum of C(n, k) * a^k. */
  lemma {:induction false} BinomialTheorem(n: nat, a: int)
    ensures Pow(a + 1, n) == Expansion(n, a, n)
  {
    if n > 0 {
      BinomialTheorem(n - 1, a);
      PascalExpansion(n - 1, a, n);
      ExpansionComplete(n - 1, a, n);
      assert Pow(a + 1, n) == Expansion(n - 1, a, n - 1) + a * Expansion(n - 1, a, n - 1);
    }
  }

  /** For a prime p, all terms but the first and the last of the
      expansion of (a + 1)^p are multiples of p. */
  lemma {:induction false} MiddleTerms(p: nat, a: int, j: nat)
    requires IsPrime(p) && j < p
    ensures Divides(p, Expansion(p, a, j) - 1)
  {
    if j == 0 {
      assert Expansion(p, a, j) - 1 == p * 0;
    } else {
      MiddleTerms(p, a, j - 1);
      PrimeDividesBinom(p, j);
      DividesCombination(p, Expansion(p, a, j - 1) - 1, Binom(p, j), 1, Pow(a, j));
    }
  }

  /** Fermat's little theorem: p divides m^p - m. */
  lemma {:induction false} FermatLittle(p: nat, m: nat)
    requires IsPrime(p)
    ensures Divides(p, Pow(m, p) - m)
  {
    if m == 0 {
      assert Pow(m, p) == 0 * Pow(m, p - 1);
      assert Pow(m, p) - m == p * 0;
    } else {
      var a := m - 1;
      FermatLittle(p, a);
      BinomialTheorem(p, a);
      BinomAll(p);
      MiddleTerms(p, a, p - 1);
      assert Pow(m, p) == Expansion(p, a, p - 1) + Pow(a, p);
      DividesCombination(p, Expansion(p, a, p - 1) - 1, Pow(a, p) - a, 1, 1);
    }
  }

  /** m^(1 + j * (p - 1)) leaves the remainder of m modulo a prime p. */
  lemma {:induction false} PowCycle(p: nat, m: nat, j: nat)
    requires IsPrime(p)
    ensures Divides(p, Pow(m, 1 + j * (p - 1)) - m)
  {
    if j > 0 {
      PowCycle(p, m, j - 1);
      FermatLittle(p, m);
      var before := Pow(m, (j - 1) * (p - 1));
      assert 1 + j * (p - 1) == (j - 1) * (p - 1) + p;
      PowAdd(m, (j - 1) * (p - 1), p);
      PowAdd(m, 1, (j - 1) * (p - 1));
      assert Pow(m, 1) == m;
      // m^(1 + j (p - 1)) - m == before * (m^p - m) + (m^(1 + (j - 1)(p - 1)) - m)
      CycleStep(before, Pow(m, p), m, Pow(m, 1 + (j - 1) * (p - 1)));
      DividesCombination(p, Pow(m, p) - m, Pow(m, 1 + (j - 1) * (p - 1)) - m, before, 1);
    } else {
      assert Pow(m, 1) == m * Pow(m, 0);
      assert Pow(m, 1) - m == p * 0;
    }
  }

  /** The arithmetic of one step of PowCycle. */
  lemma CycleStep(before: int, powP: int, m: int, prev: int)
    requires prev == m * before
    ensures before * powP - m == before * (powP - m) + 1 * (prev - m)
  {
  }
}
