/** Textbook RSA as rsaalgorithm.py does it: Euclid's `gcd` loop, key
    generation from two primes, and encryption and decryption of a string
    one character at a time, `c = m^e mod n` and `m = c^d mod n` (the
    RSAEP and RSADP primitives of section 5.1 of RFC 8017, without
    padding).

    A character is its code point, the number `ord` gives and `chr` takes
    back. `isprime` is the predicate `IsPrime` and `mod_inverse` the
    function `ModInverse` of module NumberTheory; the values
    `random.randrange(1, phi)` returns are a parameter of key generation,
    in the order they are drawn. */
module Rsa {
  import opened NumberTheory
  import opened Fermat
  import opened Results

  /** What `chr` accepts and `ord` returns: 0 to 0x10FFFF. */
  predicate IsCodePoint(x: int)
  {
    0 <= x < 0x110000
  }

  type CodePoint = c: int | IsCodePoint(c)

  /** A key as the program passes it around, the tuple (exponent,
      modulus): (e, n) is public, (d, n) private. */
  datatype Key = Key(exponent: nat, modulus: int)

  /** `((e, n), (d, n))`, what `generate_keypair` returns. */
  datatype KeyPair = KeyPair(public: Key, private: Key)

  // ---------------------------------------------------------------------------
  // Euclid's algorithm

  /** `gcd(a, b)` (rsaalgorithm.py:63-66): `a, b = b, a % b` until b is 0.
      Python's `%` leaves a remainder smaller than b in absolute value, so
      the loop ends for all integers. The result is a common divisor that
      every common divisor divides, and it is not negative for arguments
      that are not. */
  method Gcd(a0: int, b0: int) returns (g: int)
    ensures g == GcdOf(a0, b0)
    ensures Divides(g, a0) && Divides(g, b0)
    ensures forall c :: Divides(c, a0) && Divides(c, b0) ==> Divides(c, g)
    ensures b0 == 0 ==> g == a0
    ensures a0 >= 0 && b0 >= 0 ==> g >= 0 && (g == 0 <==> a0 == 0 && b0 == 0)
  {
    var a, b := a0, b0;
    while b != 0
      invariant GcdOf(a, b) == GcdOf(a0, b0)
      decreases if b < 0 then -b else b
    {
      a, b := b, PyMod(a, b);
    }
    g := a;
    GcdDivides(a0, b0);
    forall c | Divides(c, a0) && Divides(c, b0)
      ensures Divides(c, g)
    {
      GcdGreatest(a0, b0, c);
    }
    if a0 >= 0 && b0 >= 0 {
      GcdSign(a0, b0);
    }
  }

  // ---------------------------------------------------------------------------
  // Encryption and decryption

  /** `(x ** key) % n`, the one computation of both `encrypt` and
      `decrypt`: x raised to the key's exponent, modulo the key's modulus.
      For a positive modulus the result lies in [0, n). */
  function Crypt(k: Key, x: int): (r: int)
    requires k.modulus != 0
    ensures k.modulus > 0 ==> 0 <= r < k.modulus
  {
    PyMod(Pow(x, k.exponent), k.modulus)
  }

  /** `encrypt(pk, plaintext)` (rsaalgorithm.py:75-89): the list of the
      characters' codes, each raised to e modulo n. With n == 0 the first
      character raises ZeroDivisionError; an empty plaintext gives an
      empty list whatever the key. */
  method Encrypt(pk: Key, plaintext: seq<CodePoint>) returns (r: Result<seq<int>>)
    ensures r.Failure? <==> pk.modulus == 0 && |plaintext| > 0
    ensures r.Success? ==> |r.value| == |plaintext|
    ensures r.Success? ==> forall i :: 0 <= i < |plaintext| ==> r.value[i] == Crypt(pk, plaintext[i])
    ensures r.Success? && pk.modulus > 0 ==> forall i :: 0 <= i < |r.value| ==> 0 <= r.value[i] < pk.modulus
  {
    var cipher: seq<int> := [];
    for i := 0 to |plaintext|
      invariant pk.modulus == 0 ==> i == 0
      invariant |cipher| == i
      invariant forall j :: 0 <= j < i ==> cipher[j] == Crypt(pk, plaintext[j])
    {
      var m := plaintext[i];
      if pk.modulus == 0 {
        return Failure("integer modulo by zero");
      }
      var c := PyMod(Pow(m, pk.exponent), pk.modulus);
      cipher := cipher + [c];
    }
    return Success(cipher);
  }

  /** `decrypt(pk, ciphertext)` (rsaalgorithm.py:97-105): each number
      raised to d modulo n and turned back into a character by `chr`. With
      n == 0 the first number raises ZeroDivisionError, and a result
      outside the code points makes `chr` raise ValueError. */
  method Decrypt(pk: Key, ciphertext: seq<int>) returns (r: Result<seq<CodePoint>>)
    ensures r.Failure? <==> (|ciphertext| > 0 &&
      (pk.modulus == 0 || exists i :: 0 <= i < |ciphertext| && !IsCodePoint(Crypt(pk, ciphertext[i]))))
    ensures r.Success? ==> |r.value| == |ciphertext|
    ensures r.Success? ==> forall i :: 0 <= i < |ciphertext| ==> r.value[i] == Crypt(pk, ciphertext[i])
  {
    var plain: seq<CodePoint> := [];
    for i := 0 to |ciphertext|
      invariant pk.modulus == 0 ==> i == 0
      invariant |plain| == i
      invariant forall j :: 0 <= j < i ==> plain[j] == Crypt(pk, ciphertext[j])
    {
      if pk.modulus == 0 {
        return Failure("integer modulo by zero");
      }
      var m := PyMod(Pow(ciphertext[i], pk.exponent), pk.modulus);
      if !IsCodePoint(m) {
        return Failure("chr() arg not in range(0x110000)");
      }
      plain := plain + [m];
    }
    return Success(plain);
  }

  // ---------------------------------------------------------------------------
  // Key generation

  /** `generate_keypair(p, q)` (rsaalgorithm.py:27-60). Both numbers must
      be prime and they must differ, or it raises ValueError. Then n is
      p * q and phi is (p - 1) * (q - 1); e is drawn from [1, phi) until
      `gcd(e, phi)` is 1 (`draws` are the values drawn, in order: a run
      whose draws are used up without a coprime one has not ended yet),
      and d is the inverse of e modulo phi. Note that e == 1 is accepted. */
  method GenerateKeypair(p: int, q: int, draws: seq<int>) returns (r: Result<KeyPair>)
    requires forall i :: 0 <= i < |draws| ==> 1 <= draws[i] < (p - 1) * (q - 1)
    ensures !(IsPrime(p) && IsPrime(q)) ==> r == Failure("Both numbers must be prime.")
    ensures IsPrime(p) && IsPrime(q) && p == q ==> r == Failure("p and q cannot be equal")
    ensures r.Success? <==> (IsPrime(p) && IsPrime(q) && p != q &&
      exists i :: 0 <= i < |draws| && GcdOf(draws[i], (p - 1) * (q - 1)) == 1)
    ensures r.Success? ==>
      var phi, e, d := (p - 1) * (q - 1), r.value.public.exponent, r.value.private.exponent;
      r.value.public.modulus == p * q && r.value.private.modulus == p * q &&
      phi > 1 && 1 <= e < phi && GcdOf(e, phi) == 1 &&
      0 <= d < phi && (e * d) % phi == 1 && d == ModInverse(e, phi) &&
      exists k :: 0 <= k < |draws| && e == draws[k] &&
        forall j :: 0 <= j < k ==> GcdOf(draws[j], phi) != 1
  {
    if !(IsPrime(p) && IsPrime(q)) {
      return Failure("Both numbers must be prime.");
    } else if p == q {
      return Failure("p and q cannot be equal");
    }
    var n := p * q;
    var phi := (p - 1) * (q - 1);
    TotientAboveOne(p, q);
    if |draws| == 0 {
      return Failure("no coprime exponent drawn");
    }
    var e := draws[0];
    var g := Gcd(e, phi);
    var i := 1;
    while g != 1
      invariant 1 <= i <= |draws|
      invariant e == draws[i - 1] && g == GcdOf(e, phi)
      invariant forall j :: 0 <= j < i - 1 ==> GcdOf(draws[j], phi) != 1
      decreases |draws| - i
    {
      if i == |draws| {
        return Failure("no coprime exponent drawn");
      }
      e := draws[i];
      g := Gcd(e, phi);
      i := i + 1;
    }
    var d := ModInverse(e, phi);
    return Success(KeyPair(Key(e, n), Key(d, n)));
  }

  /** For two different primes, phi = (p - 1) * (q - 1) is at least 2, so
      `randrange(1, phi)` always has a value to draw and `mod_inverse` a
      modulus above 1. */
  lemma TotientAboveOne(p: int, q: int)
    requires IsPrime(p) && IsPrime(q) && p != q
    ensures (p - 1) * (q - 1) > 1
  {
    if p < q {
      assert q - 1 >= 2;
      assert (p - 1) * (q - 1) >= 1 * (q - 1);
    } else {
      assert p - 1 >= 2;
      assert (p - 1) * (q - 1) >= (p - 1) * 1;
    }
  }

  /** The exponent 1 is coprime to every phi, so the selection loop
      accepts it although the comment at rsaalgorithm.py:43 asks for
      1 < e; with it, encryption leaves every code below n unchanged. */
  lemma ExponentOneAccepted(phi: int, n: int, m: int)
    requires phi > 1 && 0 <= m < n
    ensures GcdOf(1, phi) == 1
    ensures Crypt(Key(1, n), m) == m
  {
    assert PyMod(1, phi) == 1 by {
      ModSmall(phi, 1);
    }
    assert GcdOf(phi, 1) == GcdOf(1, PyMod(phi, 1));
    assert PyMod(phi, 1) == 0;
    assert Pow(m, 1) == m * Pow(m, 0);
    ModSmall(n, m);
  }

  // ---------------------------------------------------------------------------
  // Decryption undoes encryption

  /** With n = p * q for different primes p and q, and d the inverse of e
      modulo (p - 1) * (q - 1), decrypting the encryption of any x >= 0
      gives x modulo n: every code below n comes back unchanged. */
  lemma CryptRoundTrip(p: int, q: int, e: nat, d: nat, x: int)
    requires IsPrime(p) && IsPrime(q) && p != q
    requires (p - 1) * (q - 1) > 1 && (e * d) % ((p - 1) * (q - 1)) == 1
    requires x >= 0
    ensures Crypt(Key(d, p * q), Crypt(Key(e, p * q), x)) == x % (p * q)
  {
    var power := Pow(x, e * d);
    CryptTwice(e, d, p * q, x);
    var j := CycleCount(p, q, e, d);
    PowCycle(p, x, j * (q - 1));
    PowCycle(q, x, j * (p - 1));
    DistinctPrimesDivide(p, q, power - x);
    SameRemainder(p * q, power, x);
  }

  /** Encrypting and then decrypting modulo n raises to e * d modulo n. */
  lemma CryptTwice(e: nat, d: nat, n: int, x: int)
    requires n > 0
    ensures Crypt(Key(d, n), Crypt(Key(e, n), x)) == Pow(x, e * d) % n
  {
    PowMod(Pow(x, e), d, n);
    PowMul(x, e, d);
  }

  /** e * d is 1 more than a multiple j of phi, so it has the form
      1 + k * (p - 1) for the one prime and 1 + k' * (q - 1) for the
      other. */
  lemma CycleCount(p: int, q: int, e: nat, d: nat) returns (j: nat)
    requires (p - 1) * (q - 1) > 1 && (e * d) % ((p - 1) * (q - 1)) == 1
    ensures e * d == 1 + (j * (q - 1)) * (p - 1)
    ensures e * d == 1 + (j * (p - 1)) * (q - 1)
  {
    var phi := (p - 1) * (q - 1);
    j := (e * d) / phi;
    assert e * d == phi * j + 1;
    assert phi * j == (j * (q - 1)) * (p - 1) == (j * (p - 1)) * (q - 1);
  }

  /** Numbers whose difference n divides leave the same remainder. */
  lemma SameRemainder(n: int, y: int, x: int)
    requires n > 0 && Divides(n, y - x)
    ensures y % n == x % n
  {
    var k :| y - x == n * k;
    ModMultiple(n, k, x);
  }

  /** The same for the keys of a key pair: the public and the private key
      share their modulus p * q, and their exponents are inverse modulo
      phi. */
  lemma KeyPairRoundTrip(p: int, q: int, pair: KeyPair, m: CodePoint)
    requires IsPrime(p) && IsPrime(q) && p != q
    requires pair.public.modulus == p * q && pair.private.modulus == p * q
    requires (p - 1) * (q - 1) > 1
    requires (pair.public.exponent * pair.private.exponent) % ((p - 1) * (q - 1)) == 1
    requires m < p * q
    ensures Crypt(pair.private, Crypt(pair.public, m)) == m
  {
    assert IsCodePoint(m);
    CryptRoundTrip(p, q, pair.public.exponent, pair.private.exponent, m);
    ModSmall(p * q, m);
  }

  // ---------------------------------------------------------------------------
  // The demonstration

  /** The body of `main` (rsaalgorithm.py:122-132) once p and q have been
      read: the input loop at rsaalgorithm.py:116-120 has made p * q > 255.
      The keys are generated, the message is encrypted with the public key
      and the result decrypted with the private key. The run fails exactly
      when key generation does; otherwise every character comes back as its
      code modulo n, so a message whose codes are below n, and every message
      of bytes, comes back unchanged. */
  method RunRsa(p: int, q: int, draws: seq<int>, message: seq<CodePoint>)
    returns (r: Result<(seq<int>, seq<CodePoint>)>)
    requires p * q > 255
    requires forall i :: 0 <= i < |draws| ==> 1 <= draws[i] < (p - 1) * (q - 1)
    ensures r.Success? <==> (IsPrime(p) && IsPrime(q) && p != q &&
      exists i :: 0 <= i < |draws| && GcdOf(draws[i], (p - 1) * (q - 1)) == 1)
    ensures !(IsPrime(p) && IsPrime(q)) ==> r == Failure("Both numbers must be prime.")
    ensures IsPrime(p) && IsPrime(q) && p == q ==> r == Failure("p and q cannot be equal")
    ensures r.Success? ==> |r.value.0| == |message| && |r.value.1| == |message|
    ensures r.Success? ==> forall i :: 0 <= i < |message| ==> 0 <= r.value.0[i] < p * q
    ensures r.Success? ==> forall i :: 0 <= i < |message| ==> r.value.1[i] == message[i] % (p * q)
    ensures r.Success? && (forall i :: 0 <= i < |message| ==> message[i] < p * q) ==> r.value.1 == message
    ensures r.Success? && (forall i :: 0 <= i < |message| ==> message[i] < 256) ==> r.value.1 == message
  {
    var keys := GenerateKeypair(p, q, draws);
    if keys.Failure? {
      return Failure(keys.error);
    }
    var pair := keys.value;
    var encrypted := Encrypt(pair.public, message);
    var c := encrypted.value;
    forall i | 0 <= i < |c|
      ensures Crypt(pair.private, c[i]) == message[i] % (p * q)
      ensures IsCodePoint(Crypt(pair.private, c[i]))
    {
      CryptRoundTrip(p, q, pair.public.exponent, pair.private.exponent, message[i]);
      ModAtMost(p * q, message[i]);
    }
    var decrypted := Decrypt(pair.private, c);
    var m := decrypted.value;
    forall i | 0 <= i < |message| && message[i] < p * q
      ensures m[i] == message[i]
    {
      ModSmall(p * q, message[i]);
    }
    return Success((c, m));
  }
}
