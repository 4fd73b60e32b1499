/** The single AES round that `aes_algo` of aesalgorithm.py runs on a
    plaintext block and a key: AddRoundKey, SubBytes, ShiftRows and
    MixColumns to encrypt, then InvMixColumns, InvShiftRows, InvSubBytes
    and AddRoundKey again to decrypt the ciphertext it just produced.

    The program works on numpy matrices. AddRoundKey, SubBytes,
    InvSubBytes, MixColumns and InvMixColumns return new matrices;
    ShiftRows and InvShiftRows change their argument in place. The
    ciphertext is the very matrix MixColumns returned, and decryption
    starts from it: InvMixColumns allocates a new matrix, so the in-place
    InvShiftRows that follows cannot disturb the ciphertext. */
module AesRound {
  import opened Bytes
  import opened AesState
  import opened AesShiftRows
  import opened AesMixColumns
  import opened Results

  /** What one run computes: the ciphertext matrix and the decrypted
      plaintext bytes. */
  datatype RoundTrip = RoundTrip(ciphertext: State, decrypted: seq<Byte>)

  /** The encryption steps on the state value, in the program's order.
      Decryption with the same key gives the state back: every step is
      undone by its inverse, in reverse order. */
  function EncryptRound(state: State, roundKey: State): (ciphertext: State)
    ensures DecryptRound(ciphertext, roundKey) == state
  {
    var added := AddRoundKey(state, roundKey);
    var subbed := SubBytes(added);
    var shifted := ShiftRowsOf(subbed);
    InvMixColumnsUndoesMix(shifted);
    ShiftRowsInverse(subbed);
    SubBytesInverse(added);
    AddRoundKeyInvolution(state, roundKey);
    MixColumnsOf(shifted)
  }

  /** The decryption steps on the state value, in the program's order.
      Running the encryption steps on the result with the same key gives
      the ciphertext back, so the round is a permutation of the states
      for every key. */
  function DecryptRound(ciphertext: State, roundKey: State): (state: State)
    ensures MixColumnsOf(ShiftRowsOf(SubBytes(AddRoundKey(state, roundKey)))) == ciphertext
  {
    var unmixed := InvMixColumnsOf(ciphertext);
    var unshifted := InvShiftRowsOf(unmixed);
    var unsubbed := InvSubBytes(unshifted);
    AddRoundKeyInvolution(unsubbed, roundKey);
    SubBytesInverse(unshifted);
    ShiftRowsInverse(unmixed);
    MixColumnsUndoesInv(ciphertext);
    AddRoundKey(unsubbed, roundKey)
  }

  /** Two plaintexts encrypted under the same key give the same ciphertext
      only if they are equal. */
  lemma EncryptInjective(s: State, t: State, roundKey: State)
    requires EncryptRound(s, roundKey) == EncryptRound(t, roundKey)
    ensures s == t
  {
  }

  /** The body of `aes_algo` (aesalgorithm.py:133-182) from the parsed
      plaintext and key bytes onwards. Reshaping a list that does not hold
      exactly 16 bytes into a 4x4 matrix fails, the plaintext first. */
  method AesAlgo(plaintext: seq<Byte>, key: seq<Byte>) returns (r: Result<RoundTrip>)
    ensures r.Failure? <==> |plaintext| != 16 || |key| != 16
    ensures r.Success? ==>
      r.value.ciphertext == EncryptRound(Build(plaintext), Build(key)) &&
      r.value.decrypted == Flatten(DecryptRound(r.value.ciphertext, Build(key)))
    ensures r.Success? ==> r.value.decrypted == plaintext
  {
    if |plaintext| != 16 {
      return Failure("cannot reshape the plaintext into a 4x4 matrix");
    }
    if |key| != 16 {
      return Failure("cannot reshape the key into a 4x4 matrix");
    }
    var state := NewMatrix(Build(plaintext));
    var roundKey := NewMatrix(Build(key));

    state := NewMatrix(AddRoundKey(Contents(state), Contents(roundKey)));
    state := NewMatrix(SubBytes(Contents(state)));
    ShiftRows(state);
    state := MixColumns(state);
    var ciphertext := state;

    state := ciphertext;
    state := InvMixColumns(state);
    InvShiftRows(state);
    state := NewMatrix(InvSubBytes(Contents(state)));
    state := NewMatrix(AddRoundKey(Contents(state), Contents(roundKey)));
    var decrypted := Flatten(Contents(state));

    FlattenBuild(plaintext);
    return Success(RoundTrip(Contents(ciphertext), decrypted));
  }
}
