/** The integer arithmetic behind rsaalgorithm.py: Python's `%` and `**`,
    divisibility, Euclid's algorithm with Bezout's identity, the modular
    inverse `mod_inverse` returns, and the facts about primes that RSA
    decryption rests on. */
module NumberTheory {

  // ---------------------------------------------------------------------------
  // Python's integer operators

  /** Python's `a % b` for b != 0. The remainder takes the sign of b
      (division rounds towards minus infinity), where Dafny's `%` is never
      negative; the two agree when b is positive. */
  function PyMod(a: int, b: int): (r: int)
    requires b != 0
    ensures b > 0 ==> 0 <= r < b
    ensures b < 0 ==> b < r <= 0
  {
    var r := a % b;
    if b < 0 && r != 0 then r + b else r
  }

  /** Python's `a // b`, the quotient that goes with PyMod. */
  function PyDiv(a: int, b: int): int
    requires b != 0
  {
    if b < 0 && a % b != 0 then a / b - 1 else a / b
  }

  /** Quotient and remainder put a back together. */
  lemma PyDivMod(a: int, b: int)
    requires b != 0
    ensures a == b * PyDiv(a, b) + PyMod(a, b)
  {
    assert a == b * (a / b) + a % b;
    if b < 0 && a % b != 0 {
      assert b * (a / b - 1) + (a % b + b) == b * (a / b) + a % b;
    }
  }

  /** `b ** e` for an exponent e >= 0. */
  function Pow(b: int, e: nat): (power: int)
    ensures b >= 0 ==> power >= 0
    ensures b > 0 ==> power > 0
  {
    if e == 0 then 1 else b * Pow(b, e - 1)
  }

  /** b^(x + y) == b^x * b^y. */
  lemma {:induction false} PowAdd(b: int, x: nat, y: nat)
    ensures Pow(b, x + y) == Pow(b, x) * Pow(b, y)
  {
    if x > 0 {
      PowAdd(b, x - 1, y);
      var u, v := Pow(b, x - 1), Pow(b, y);
      assert Pow(b, x + y) == b * (u * v);
      assert b * (u * v) == (b * u) * v;
    }
  }

  /** b^(x * y) == (b^x)^y. */
  lemma {:induction false} PowMul(b: int, x: nat, y: nat)
    ensures Pow(b, x * y) == Pow(Pow(b, x), y)
  {
    if y > 0 {
      PowMul(b, x, y - 1);
      assert x * (y - 1) + x == x * y;
      PowAdd(b, x * (y - 1), x);
    }
  }

  // ---------------------------------------------------------------------------
  // Remainders modulo a positive number

  /** n * t >= n for positive n and t. */
  lemma {:induction false} MulAtLeast(n: int, t: int)
    requires n > 0 && t >= 1
    ensures n * t >= n
    decreases t
  {
    if t > 1 {
      MulAtLeast(n, t - 1);
      assert n * t == n * (t - 1) + n;
    }
  }

  /** Quotient and remainder modulo a positive n are unique: whenever
      x == n * q + r with 0 <= r < n, they are x / n and x % n. */
  lemma DivModUnique(n: int, x: int, q: int, r: int)
    requires n > 0 && x == n * q + r && 0 <= r < n
    ensures x / n == q && x % n == r
  {
    var q', r' := x / n, x % n;
    assert x == n * q' + r';
    assert n * (q' - q) == r - r';
    if q' > q {
      MulAtLeast(n, q' - q);
    } else if q' < q {
      MulAtLeast(n, q - q');
    }
  }

  /** Adding a multiple of n does not change the remainder. */
  lemma ModMultiple(n: int, k: int, z: int)
    requires n > 0
    ensures (n * k + z) % n == z % n
  {
    DivModUnique(n, z, z / n, z % n);
    assert n * k + z == n * (k + z / n) + z % n;
    DivModUnique(n, n * k + z, k + z / n, z % n);
  }

  /** A factor can be reduced modulo n before multiplying. */
  lemma MulMod(x: int, y: int, n: int)
    requires n > 0
    ensures (x * y) % n == ((x % n) * y) % n
    ensures (x * y) % n == (x * (y % n)) % n
  {
    MulModLeft(x, y, n);
    MulModLeft(y, x, n);
    assert x * y == y * x && (x % n) * y == y * (x % n);
    assert x * (y % n) == (y % n) * x;
  }

  /** The left factor can be reduced modulo n before multiplying. */
  lemma MulModLeft(x: int, y: int, n: int)
    requires n > 0
    ensures (x * y) % n == ((x % n) * y) % n
  {
    var q, r := x / n, x % n;
    assert x == n * q + r;
    assert x * y == (n * q + r) * y;
    assert (n * q + r) * y == n * (q * y) + r * y;
    ModMultiple(n, q * y, r * y);
  }

  /** A number in [0, n) is its own remainder. */
  lemma ModSmall(n: int, x: int)
    requires 0 <= x < n
    ensures x % n == x
  {
    DivModUnique(n, x, 0, x);
  }

  /** The remainder of a number that is not negative is at most the number. */
  lemma ModAtMost(n: int, x: int)
    requires n > 0 && x >= 0
    ensures 0 <= x % n <= x
  {
    if x / n >= 1 {
      MulAtLeast(n, x / n);
    }
  }

  /** The base of a power can be reduced modulo n first: this is why
      encrypting `m` and then decrypting the remainder behaves like raising
      m to the product of the two exponents. */
  lemma {:induction false} PowMod(b: int, e: nat, n: int)
    requires n > 0
    ensures Pow(b % n, e) % n == Pow(b, e) % n
  {
    if e > 0 {
      var r := b % n;
      var u, v := Pow(r, e - 1), Pow(b, e - 1);
      PowMod(b, e - 1, n);
      assert u % n == v % n;
      calc {
        Pow(r, e) % n;
        (r * u) % n;
        { MulMod(r, u, n); }
        (r * (u % n)) % n;
        (r * (v % n)) % n;
        { MulMod(r, v, n); }
        (r * v) % n;
        { MulMod(b, v, n); }
        (b * v) % n;
        Pow(b, e) % n;
      }
    }
  }

  // ---------------------------------------------------------------------------
  // Divisibility

  /** d divides x. */
  ghost predicate Divides(d: int, x: int)
  {
    exists k :: x == d * k
  }

  /** Common divisors divide every combination a * x + b * y. */
  lemma DividesCombination(d: int, x: int, y: int, a: int, b: int)
    requires Divides(d, x) && Divides(d, y)
    ensures Divides(d, a * x + b * y)
  {
    var kx :| x == d * kx;
    var ky :| y == d * ky;
    assert a * x + b * y == d * (a * kx + b * ky);
  }

  /** For positive n, dividing is leaving remainder 0. */
  lemma DividesByRemainder(n: int, x: int)
    requires n > 0
    ensures Divides(n, x) <==> x % n == 0
  {
    if x % n == 0 {
      assert x == n * (x / n);
    }
    if Divides(n, x) {
      var k :| x == n * k;
      ModMultiple(n, k, 0);
    }
  }

  /** A positive divisor of a positive number is not larger than it. */
  lemma DivisorBound(d: int, x: int)
    requires d > 0 && x > 0 && Divides(d, x)
    ensures d <= x
  {
    var k :| x == d * k;
    MulAtLeast(d, k);
  }

  // ---------------------------------------------------------------------------
  // Euclid's algorithm

  /** What the `gcd` loop of rsaalgorithm.py returns for a and b: the pair
      (a, b) becomes (b, a % b) until b is 0. Python's `%` makes the
      remainder smaller than b in absolute value, so the loop ends. */
  function GcdOf(a: int, b: int): int
    decreases if b < 0 then -b else b
  {
    if b == 0 then a else GcdOf(b, PyMod(a, b))
  }

  /** The result divides both arguments. */
  lemma {:induction false} GcdDivides(a: int, b: int)
    ensures Divides(GcdOf(a, b), a) && Divides(GcdOf(a, b), b)
    decreases if b < 0 then -b else b
  {
    var g := GcdOf(a, b);
    if b == 0 {
      assert a == g * 1 && b == g * 0;
    } else {
      GcdDivides(b, PyMod(a, b));
      PyDivMod(a, b);
      DividesCombination(g, b, PyMod(a, b), PyDiv(a, b), 1);
    }
  }

  /** Every common divisor of the arguments divides the result, so the
      result is a greatest common divisor. */
  lemma {:induction false} GcdGreatest(a: int, b: int, c: int)
    requires Divides(c, a) && Divides(c, b)
    ensures Divides(c, GcdOf(a, b))
    decreases if b < 0 then -b else b
  {
    if b != 0 {
      PyDivMod(a, b);
      assert PyMod(a, b) == 1 * a + (-PyDiv(a, b)) * b;
      DividesCombination(c, a, b, 1, -PyDiv(a, b));
      GcdGreatest(b, PyMod(a, b), c);
    }
  }

  /** For arguments that are not negative, the result is not negative, and
      it is positive unless both are 0. */
  lemma {:induction false} GcdSign(a: int, b: int)
    requires a >= 0 && b >= 0
    ensures GcdOf(a, b) >= 0
    ensures GcdOf(a, b) == 0 <==> a == 0 && b == 0
    decreases b
  {
    if b != 0 {
      GcdSign(b, PyMod(a, b));
    }
  }

  /** Among positive numbers, every common divisor is at most the result. */
  lemma GcdIsGreatest(a: int, b: int, c: int)
    requires a >= 0 && b >= 0 && (a > 0 || b > 0)
    requires c > 0 && Divides(c, a) && Divides(c, b)
    ensures c <= GcdOf(a, b)
  {
    GcdGreatest(a, b, c);
    GcdSign(a, b);
    DivisorBound(c, GcdOf(a, b));
  }

  /** Bezout coefficients, computed alongside Euclid's algorithm (the
      extended algorithm): a * x + b * y is the gcd. */
  function Bezout(a: int, b: int): (r: (int, int))
    ensures a * r.0 + b * r.1 == GcdOf(a, b)
    decreases if b < 0 then -b else b
  {
    if b == 0 then (1, 0)
    else
      var (x, y) := Bezout(b, PyMod(a, b));
      PyDivMod(a, b);
      BezoutStep(a, b, PyDiv(a, b), PyMod(a, b), x, y);
      (y, x - PyDiv(a, b) * y)
  }

  /** One step of the extended algorithm: coefficients for (b, a % b)
      give coefficients for (a, b). */
  lemma BezoutStep(a: int, b: int, q: int, r: int, x: int, y: int)
    requires a == b * q + r
    ensures a * y + b * (x - q * y) == b * x + r * y
  {
    assert a * y == b * q * y + r * y;
    assert b * (x - q * y) == b * x - b * q * y;
  }

  /** `mod_inverse(a, m)`: the d in [0, m) with a * d = 1 modulo m, which
      exists when a and m are coprime. */
  function ModInverse(a: int, m: int): (d: int)
    requires m > 1 && GcdOf(a, m) == 1
    ensures 0 <= d < m && (a * d) % m == 1
  {
    var (x, y) := Bezout(a, m);
    assert a * x == m * (-y) + 1;
    DivModUnique(m, a * x, -y, 1);
    MulMod(a, x, m);
    x % m
  }

  /** There is only one such d, so ModInverse is exactly the number
      `mod_inverse` computes. */
  lemma ModInverseUnique(a: int, m: int, d: int)
    requires m > 1 && GcdOf(a, m) == 1
    requires 0 <= d < m && (a * d) % m == 1
    ensures d == ModInverse(a, m)
  {
    var d' := ModInverse(a, m);
    // d' * (a * d) and d * (a * d') are the same number; reducing the
    // bracket modulo m turns them into d' and d.
    InverseSwap(a, d, d', m);
    ModSmall(m, d);
    ModSmall(m, d');
  }

  /** The arithmetic of ModInverseUnique: two inverses d and d' of a are
      congruent. */
  lemma InverseSwap(a: int, d: int, d': int, m: int)
    requires m > 0 && (a * d) % m == 1 && (a * d') % m == 1
    ensures d % m == d' % m
  {
    assert d' * (a * d) == d * (a * d');
    MulMod(d', a * d, m);
    MulMod(d, a * d', m);
  }

  // ---------------------------------------------------------------------------
  // Primes

  /** `isprime(n)` by trial division: n is at least 2 and no number
      between 2 and n - 1 divides it. That is, the only divisors of n from
      1 to n are 1 and n itself. */
  predicate IsPrime(n: int): (prime: bool)
    ensures prime <==> n >= 2 && forall d :: 1 <= d <= n && n % d == 0 ==> d == 1 || d == n
  {
    n >= 2 && forall k :: 2 <= k < n ==> n % k != 0
  }

  /** The only positive divisors of a prime are 1 and itself. */
  lemma PrimeDivisors(p: int, d: int)
    requires IsPrime(p) && d > 0 && Divides(d, p)
    ensures d == 1 || d == p
  {
    DivisorBound(d, p);
    DividesByRemainder(d, p);
  }

  /** Euclid's lemma: a prime that divides a product divides one of the
      factors. */
  lemma EuclidLemma(p: int, a: int, b: int)
    requires IsPrime(p) && Divides(p, a * b) && !Divides(p, a)
    ensures Divides(p, b)
  {
    var g := GcdOf(a, p);
    GcdDivides(a, p);
    GcdSign(p, PyMod(a, p));
    PrimeDivisors(p, g);
    var (x, y) := Bezout(a, p);
    ScaleBezout(a, b, x, y, p);
    assert Divides(p, p) by {
      assert p == p * 1;
    }
    DividesCombination(p, a * b, p, x, b * y);
  }

  /** Multiplying a * x + p * y == 1 by b. */
  lemma ScaleBezout(a: int, b: int, x: int, y: int, p: int)
    requires a * x + p * y == 1
    ensures b == x * (a * b) + (b * y) * p
  {
    assert b * (a * x + p * y) == b;
  }

  /** A number divisible by two different primes is divisible by their
      product. */
  lemma DistinctPrimesDivide(p: int, q: int, x: int)
    requires IsPrime(p) && IsPrime(q) && p != q
    requires Divides(p, x) && Divides(q, x)
    ensures Divides(p * q, x)
  {
    var k :| x == p * k;
    if Divides(q, p) {
      PrimeDivisors(p, q);
    }
    EuclidLemma(q, p, k);
    var j :| k == q * j;
    assert x == (p * q) * j;
  }

  /** A prime leaves remainder 0 only on its multiples, and numbers
      strictly between 0 and p are not multiples. */
  lemma PrimeDoesNotDivideSmaller(p: int, k: int)
    requires IsPrime(p) && 0 < k < p
    ensures !Divides(p, k)
  {
    if Divides(p, k) {
      DivisorBound(p, k);
    }
  }
}
