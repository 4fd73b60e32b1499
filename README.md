# Two teaching ciphers, verified

This project models the computational core of two small cryptography
teaching programs and proves what they promise.

**aesalgorithm.py** runs one round of the Advanced Encryption Standard
(FIPS 197) on a 16-byte block and a 16-byte key, then runs the inverse
steps in reverse order:

- AddRoundKey, SubBytes, ShiftRows and MixColumns to encrypt;
- InvMixColumns, InvShiftRows, InvSubBytes and AddRoundKey to decrypt.

The block becomes a 4x4 state matrix filled column by column. The model
keeps the matrix as its 16 cells row by row (`AesState.State`, cell (r, c)
at index 4r + c). `AesState.Contents` reads that value off a 4x4 `array2`.

The model has the same shape as the program:

- `gmul` is an imperative loop of eight rounds (`GF256.Gmul`). It is
  proved to compute the field product `GF256.Product`, and the field laws
  are proved about `Product` by way of polynomials over GF(2)
  (modules `Polynomials` and `Bytes`).
- `shift_rows` and `inv_shift_rows` change their matrix in place
  (methods on an `array2`).
- `mix_columns` and `inv_mix_columns` allocate a new matrix and fill it in
  a loop (methods returning a fresh `array2`).
- `add_round_key`, `sub_bytes` and `inv_sub_bytes` are pure functions on
  the state value.
- `SBOX` is the literal table. `INV_SBOX` is built with `SBOX.index`
  exactly as the program builds it, and is proved equal to the published
  inverse table.

The central results:

- the two MixColumns matrices are inverse to each other over GF(2^8);
- decryption undoes encryption for every block and key (`AesRound.EncryptRound`);
- the program's run gives back the plaintext bytes it was given (`AesRound.AesAlgo`).

**rsaalgorithm.py** is textbook RSA, the RSAEP and RSADP primitives of
section 5.1 of RFC 8017 without padding:

- Euclid's `gcd` loop;
- key generation from two primes;
- per-character `c = m^e mod n` and `m = c^d mod n`.

The round trip is proved from Fermat's little theorem, which is itself
proved from the binomial theorem (module `Fermat`). It holds for every
character code below n.

Python's `%` rounds towards minus infinity. It is modelled as
`NumberTheory.PyMod`, and `**` as `NumberTheory.Pow`.

Where the program's comments and its code disagree, the model follows the
code:

- The comment at rsaalgorithm.py:23 and rsaalgorithm.py:43 asks for
  1 < e. `randrange(1, phi)` can return 1, and `gcd(1, phi) == 1`, so
  e == 1 is accepted. With e == 1 the ciphertext equals the plaintext
  (`Rsa.ExponentOneAccepted`).
- The driver asks only for p * q > 255, "for ASCII values". A character
  whose code is n or more decrypts to its code modulo n
  (`Rsa.CryptRoundTrip`), not to itself.
- The comment at aesalgorithm.py:20 speaks of repeating rounds. The code
  runs exactly one round and has no key expansion, and so does the model.
- The program never checks the lengths of the plaintext and the key. A
  list that is not 16 long fails where numpy reshapes it into a 4x4
  matrix; `AesRound.AesAlgo` returns a `Failure` in exactly those cases.

## Model

| member | source | states |
|---|---|---|
| `GF256.Gmul` | aesalgorithm.py:52-62 | the eight-round shift-and-add loop returns the GF(2^8) product of a and b |
| `GF256.ProductIsMul` | aesalgorithm.py:48-62 | the product of two bytes is `Polynomials.Mul` of their polynomials: the sum of q_i * x^i * p, each x^i * p reduced modulo x^8 + x^4 + x^3 + x + 1 by one xtime step from the previous one, which is the full product reduced modulo that polynomial |
| `GF256.ProductZeroOne` | aesalgorithm.py:52-62 | multiplying by 0 gives 0 and multiplying by 1 gives the byte back, on either side |
| `GF256.ProductCommutative` | aesalgorithm.py:52-62 | gmul(a, b) == gmul(b, a) |
| `GF256.ProductDistributes` | aesalgorithm.py:52-62 | gmul distributes over XOR in both arguments |
| `GF256.ProductAssociative` | aesalgorithm.py:52-62 | gmul is associative |
| `GF256.ProductTwoThree` | aesalgorithm.py:79-82 | multiplying by 2 is one doubling step of the loop, and multiplying by 3 is that step XOR the byte |
| `Bytes.DoubleIsXtime` | aesalgorithm.py:57-60 | shifting left within the byte and XORing 0x1B when the top bit was set multiplies by x modulo the AES polynomial |
| `Bytes.XorIsAdd` | aesalgorithm.py:67 | XOR of two bytes is the sum of their polynomials |
| `Bytes.XorLaws` | aesalgorithm.py:67 | XOR has identity 0, every byte is its own inverse, and XOR is commutative and associative |
| `Bytes.XorCancel` | aesalgorithm.py:67 | XORing with the same byte twice restores the byte |
| `SBox.Sbox` | aesalgorithm.py:25-42 | the 256 entries of the SBOX literal, in order; that it is a permutation is `SBox.SboxPermutation` |
| `SBox.InvSbox` | aesalgorithm.py:45 | `[SBOX.index(x) for x in range(256)]`, 256 entries; that it undoes SBOX is `SBox.InvSboxInverts` |
| `SBox.SboxPermutation` | aesalgorithm.py:25-42 | SBOX holds every byte exactly once, so it is a permutation of 0..255 |
| `SBox.IndexOf` | aesalgorithm.py:45 | `list.index` returns the first position that holds the value |
| `SBox.InvSboxIsInverseTable` | aesalgorithm.py:45 | INV_SBOX built with SBOX.index equals the published inverse S-box |
| `SBox.InvSboxInverts` | aesalgorithm.py:25-45 | INV_SBOX[SBOX[x]] == x and SBOX[INV_SBOX[x]] == x for every byte x |
| `SBox.InverseTableInverts` | aesalgorithm.py:25-42 | the published inverse S-box and SBOX undo each other entry by entry |
| `AesState.Build` | aesalgorithm.py:133-134 | `reshape(4, 4).T` of 16 bytes: column c of the state holds bytes 4c to 4c + 3, top to bottom |
| `AesState.Flatten` | aesalgorithm.py:180 | `state.T.flatten()`: 16 bytes, from which Build rebuilds the state |
| `AesState.FlattenBuild` | aesalgorithm.py:180 | flattening the transposed state returns the 16 input bytes in their order |
| `AesState.NewMatrix` | aesalgorithm.py:133-134 | a fresh 4x4 array holding the given state |
| `AesState.AddRoundKey` | aesalgorithm.py:66-67 | `state ^ round_key`: every cell is the GF(2^8) sum of the state cell and the key cell |
| `AesState.AddRoundKeyInvolution` | aesalgorithm.py:66-67 | AddRoundKey with the same key twice restores the state |
| `AesState.AddRoundKeyZero` | aesalgorithm.py:66-67 | AddRoundKey with the all-zero key leaves the state unchanged |
| `AesState.AddRoundKeyCommutes` | aesalgorithm.py:66-67 | state ^ key == key ^ state |
| `AesState.SubBytes` | aesalgorithm.py:72-73 | every cell is replaced by its SBOX entry, which INV_SBOX maps back to the original cell |
| `AesState.InvSubBytes` | aesalgorithm.py:112-113 | every cell is replaced by its INV_SBOX entry, which SBOX maps back to the original cell |
| `AesState.SubBytesInverse` | aesalgorithm.py:112-113 | InvSubBytes undoes SubBytes and SubBytes undoes InvSubBytes |
| `AesState.SubBytesCellwise` | aesalgorithm.py:72-73 | changing one cell of the input changes only that cell of the SubBytes (and InvSubBytes) output |
| `AesState.SubBytesInjective` | aesalgorithm.py:72-73 | SubBytes maps different states to different states |
| `AesShiftRows.Roll` | aesalgorithm.py:87-89 | `np.roll(row, shift)` on four entries rotates the row right by shift mod 4: the last shift mod 4 entries come to the front |
| `AesShiftRows.RollLeft` | aesalgorithm.py:87-89 | np.roll by -n rotates a row of four left by n |
| `AesShiftRows.RollRight` | aesalgorithm.py:106-108 | np.roll by n rotates a row of four right by n |
| `AesShiftRows.RollRoundTrip` | aesalgorithm.py:87-108 | rolling by s and then by -s restores the row |
| `AesShiftRows.RollRow` | aesalgorithm.py:87 | `state[r] = np.roll(state[r], shift)` replaces row r in place and leaves the other rows as they were |
| `AesShiftRows.ShiftRows` | aesalgorithm.py:86-90 | the array afterwards holds ShiftRows of what it held before |
| `AesShiftRows.InvShiftRows` | aesalgorithm.py:105-109 | the array afterwards holds InvShiftRows of what it held before |
| `AesShiftRows.ShiftRowsByRows` | aesalgorithm.py:86-90 | the three in-place row rolls in turn amount to ShiftRows |
| `AesShiftRows.InvShiftRowsByRows` | aesalgorithm.py:105-109 | the three in-place row rolls in turn amount to InvShiftRows |
| `AesShiftRows.ShiftRowsRotates` | aesalgorithm.py:86-90 | row r is rotated left by r, row 0 unchanged |
| `AesShiftRows.InvShiftRowsRotates` | aesalgorithm.py:105-109 | row r is rotated right by r |
| `AesShiftRows.ShiftRowsInverse` | aesalgorithm.py:86-109 | InvShiftRows undoes ShiftRows and ShiftRows undoes InvShiftRows |
| `AesMixColumns.MixColumns` | aesalgorithm.py:76-83 | the new matrix holds MixColumns of the input, the input unchanged |
| `AesMixColumns.MixColumn` | aesalgorithm.py:79-82 | the four cells of one loop round are the row-0 formula applied to the column rotated by the row |
| `AesMixColumns.InvMixColumns` | aesalgorithm.py:95-102 | the new matrix holds InvMixColumns of the input |
| `AesMixColumns.InvMixColumn` | aesalgorithm.py:98-101 | the four cells of one loop round of inv_mix_columns, in circulant form |
| `AesMixColumns.SetColumn` | aesalgorithm.py:79-82 | the four assignments of a round fill column i and change nothing else |
| `AesMixColumns.MixColumnPoly` | aesalgorithm.py:79-82 | read as polynomials, the four cells are the MixColumns matrix times the column |
| `AesMixColumns.InvMixColumnPoly` | aesalgorithm.py:98-101 | read as polynomials, the four cells are the inverse matrix times the column |
| `AesMixColumns.MixedColumn` | aesalgorithm.py:76-83 | column c of the output is the MixColumns matrix times column c of the input |
| `AesMixColumns.InvMixedColumn` | aesalgorithm.py:95-102 | column c of the output is the inverse matrix times column c of the input |
| `AesMixColumns.MixColumnsColumnwise` | aesalgorithm.py:76-102 | output column c of either step depends only on input column c |
| `AesMixColumns.InvMixColumnsUndoesMix` | aesalgorithm.py:76-102 | inv_mix_columns(mix_columns(s)) == s |
| `AesMixColumns.MixColumnsUndoesInv` | aesalgorithm.py:76-102 | mix_columns(inv_mix_columns(s)) == s |
| `MixMatrices.InverseAfterMix` | aesalgorithm.py:79-101 | the inverse matrix times the MixColumns matrix is the identity over GF(2^8) |
| `MixMatrices.MixAfterInverse` | aesalgorithm.py:79-101 | the MixColumns matrix times the inverse matrix is the identity over GF(2^8) |
| `MixMatrices.InverseUndoesMix` | aesalgorithm.py:79-101 | the inverse matrix undoes the MixColumns matrix on every column |
| `MixMatrices.MixUndoesInverse` | aesalgorithm.py:79-101 | the MixColumns matrix undoes the inverse matrix on every column |
| `AesRound.EncryptRound` | aesalgorithm.py:142-155 | AddRoundKey, SubBytes, ShiftRows and MixColumns in turn; DecryptRound with the same key gives back the state before encryption |
| `AesRound.DecryptRound` | aesalgorithm.py:167-176 | InvMixColumns, InvShiftRows, InvSubBytes and AddRoundKey in turn; the four forward steps with the same key give back the ciphertext, so one round is a permutation of states |
| `AesRound.EncryptInjective` | aesalgorithm.py:142-155 | different plaintexts under one key give different ciphertexts |
| `AesRound.AesAlgo` | aesalgorithm.py:133-180 | fails exactly when the plaintext or the key is not 16 bytes; otherwise the ciphertext is one round of the input and the decrypted bytes equal the plaintext |
| `NumberTheory.Pow` | rsaalgorithm.py:86 | `b ** e` for e >= 0: not negative for a base that is not, positive for a positive base |
| `NumberTheory.IsPrime` | rsaalgorithm.py:28 | `isprime(n)`: n >= 2 and its only divisors between 1 and n are 1 and n |
| `NumberTheory.PyMod` | rsaalgorithm.py:65 | Python's remainder lies in [0, b) for b > 0 and in (b, 0] for b < 0 |
| `NumberTheory.GcdDivides` | rsaalgorithm.py:63-66 | the result of Euclid's loop divides both arguments |
| `NumberTheory.GcdGreatest` | rsaalgorithm.py:63-66 | every common divisor of the arguments divides the result |
| `NumberTheory.GcdSign` | rsaalgorithm.py:63-66 | for non-negative arguments the result is non-negative, and 0 only when both are 0 |
| `NumberTheory.GcdIsGreatest` | rsaalgorithm.py:63-66 | every positive common divisor is at most the result |
| `NumberTheory.Bezout` | rsaalgorithm.py:54-55 | the extended algorithm's coefficients combine the arguments into their gcd |
| `NumberTheory.ModInverse` | rsaalgorithm.py:55 | `mod_inverse(e, phi)` lies in [0, phi) and e * d leaves remainder 1 modulo phi |
| `NumberTheory.ModInverseUnique` | rsaalgorithm.py:55 | only one number in [0, phi) has that property, so ModInverse is what `mod_inverse` returns |
| `Rsa.Gcd` | rsaalgorithm.py:63-66 | the loop terminates and returns a common divisor that every common divisor divides; gcd(a, 0) == a |
| `Rsa.Crypt` | rsaalgorithm.py:86 | `(x ** key) % n` lies in [0, n) for n > 0 |
| `Rsa.Encrypt` | rsaalgorithm.py:75-89 | one entry per character, entry i is ord(plaintext[i])^e mod n in [0, n); fails exactly when n == 0 and the plaintext is not empty |
| `Rsa.Decrypt` | rsaalgorithm.py:97-105 | one character per entry, character i is chr(c_i^d mod n); fails exactly on n == 0 or a result that is no code point |
| `Rsa.GenerateKeypair` | rsaalgorithm.py:27-60 | raises for non-primes and for p == q; otherwise both keys have modulus p * q, e is the first drawn value coprime to phi = (p - 1)(q - 1), 1 <= e < phi, and d is e's inverse modulo phi |
| `Rsa.TotientAboveOne` | rsaalgorithm.py:40-45 | for two different primes phi is at least 2, so `randrange(1, phi)` and `mod_inverse` are defined |
| `Rsa.ExponentOneAccepted` | rsaalgorithm.py:43-50 | e == 1 passes the gcd check, and with it encryption is the identity on codes below n |
| `Rsa.CryptTwice` | rsaalgorithm.py:86-102 | encrypting and then decrypting modulo n raises to e * d modulo n |
| `Rsa.CryptRoundTrip` | rsaalgorithm.py:75-105 | with d the inverse of e modulo phi, decrypting the encryption of x >= 0 gives x mod n |
| `Rsa.KeyPairRoundTrip` | rsaalgorithm.py:60-105 | with the keys of a generated pair, every code below n decrypts to itself |
| `Rsa.RunRsa` | rsaalgorithm.py:122-132 | fails exactly when key generation does, with its messages for non-prime p or q and for p == q; otherwise the ciphertext has one entry in [0, n) per character and each character decrypts to its code mod n, so a message whose codes are below n (every byte message, as p * q > 255) comes back unchanged |
| `Fermat.FermatLittle` | rsaalgorithm.py:97-105 | p divides m^p - m for every prime p, the fact decryption rests on |

## Left out

- Console input and output: the `input()` prompts, every `print`, the module-level call `aes_algo()` and `main`'s read-and-retry loop (rsaalgorithm.py:113-120). `Rsa.RunRsa` starts once p and q are read and takes p * q > 255 as that loop guarantees it.
- The hexadecimal parsing at aesalgorithm.py:129-130: `AesRound.AesAlgo` takes the parsed byte lists.
- numpy itself (`np.vectorize`, `np.roll`, `np.zeros_like`, dtypes): only the element-wise meaning is modelled. Every value stays in 0..255, so numpy's integer width never matters.
- `random.randrange`: the values it returns are the parameter `draws`, each in [1, phi). A run whose draws are used up without a coprime one has not ended yet; the model reports it as a `Failure`.
- `Rsa.GenerateKeypair`: the message of that `Failure` is the model's own; Python would simply go on drawing.
- `sympy.isprime` is the predicate `NumberTheory.IsPrime`, defined by trial division. It is not sympy's algorithm, only its answer.
- `sympy.mod_inverse` is `NumberTheory.ModInverse`, defined by the extended Euclidean algorithm. `ModInverseUnique` shows that any function with mod_inverse's contract returns the same value.
- Negative exponents, for which Python's `**` returns a float: key exponents are natural numbers here, as `generate_keypair` produces them.
- Python's `str` is modelled as a sequence of code points, the numbers `ord` returns and `chr` accepts.
- The error messages of the `Failure` results are the model's own wording of the Python exceptions.
- `Rsa.RunRsa`: bounds each ciphertext entry to [0, n) but does not state it as m^e mod n, since the result does not carry the public exponent; `Rsa.Encrypt` states that.
