/** The AES state of aesalgorithm.py and the round steps that compute a
    new matrix from old ones: building the state from 16 bytes, reading it
    back, AddRoundKey, SubBytes and InvSubBytes.

    The program keeps the state in a 4x4 numpy matrix. Here its value is
    the sequence of its 16 cells row by row, cell (r, c) at index
    4 * r + c, and `Contents` reads that value off a 4x4 array. */
module AesState {
  import opened Polynomials
  import opened Bytes
  import opened SBox

  /** The cells of a 4x4 state matrix, row by row. */
  type State = s: seq<Byte> | |s| == 16
    witness [0, 0, 0, 0, 0, 0, 0, 0, 0, 0, 0, 0, 0, 0, 0, 0]

  /** A 4x4 array of bytes, the shape of every matrix in the program. */
  predicate IsMatrix(a: array2<Byte>)
  {
    a.Length0 == 4 && a.Length1 == 4
  }

  /** The value held by a 4x4 array. */
  function Contents(a: array2<Byte>): State
    requires IsMatrix(a)
    reads a
  {
    seq(16, k requires 0 <= k < 16 reads a => a[k / 4, k % 4])
  }

  /** A new 4x4 array holding s: every numpy operation that is not done in
      place returns such a fresh matrix. */
  method NewMatrix(s: State) returns (a: array2<Byte>)
    ensures fresh(a) && IsMatrix(a)
    ensures Contents(a) == s
  {
    a := new Byte[4, 4]((r, c) requires 0 <= r < 4 && 0 <= c < 4 => s[4 * r + c]);
  }

  /** Column c of the array, as cells of its contents. */
  lemma ColumnOfContents(a: array2<Byte>, c: int)
    requires IsMatrix(a) && 0 <= c < 4
    ensures Contents(a)[c] == a[0, c] && Contents(a)[4 + c] == a[1, c]
    ensures Contents(a)[8 + c] == a[2, c] && Contents(a)[12 + c] == a[3, c]
  {
    assert (4 + c) / 4 == 1 && (8 + c) / 4 == 2 && (12 + c) / 4 == 3;
  }

  /** States that agree cell by cell are equal; the cells are listed one by
      one so that each can be checked at its own fixed position. */
  lemma EqualByCells(a: State, b: State)
    requires a[0] == b[0] && a[1] == b[1] && a[2] == b[2] && a[3] == b[3]
    requires a[4] == b[4] && a[5] == b[5] && a[6] == b[6] && a[7] == b[7]
    requires a[8] == b[8] && a[9] == b[9] && a[10] == b[10] && a[11] == b[11]
    requires a[12] == b[12] && a[13] == b[13] && a[14] == b[14] && a[15] == b[15]
    ensures a == b
  {
    forall k | 0 <= k < 16
      ensures a[k] == b[k]
    {
      if k < 8 {
      } else {
      }
    }
  }

  // ---------------------------------------------------------------------------
  // From bytes to state and back

  /** Column c of a state, top to bottom. */
  function Column(s: State, c: int): seq<Byte>
    requires 0 <= c < 4
  {
    [s[c], s[4 + c], s[8 + c], s[12 + c]]
  }

  /** `np.array(bytes).reshape(4, 4).T` (aesalgorithm.py:133-134): the
      bytes fill the matrix column by column, so column c holds bytes
      4 * c to 4 * c + 3. */
  function Build(bytes: seq<Byte>): (s: State)
    requires |bytes| == 16
    ensures forall c :: 0 <= c < 4 ==> Column(s, c) == bytes[4 * c .. 4 * c + 4]
  {
    seq(16, k requires 0 <= k < 16 => bytes[4 * (k % 4) + k / 4])
  }

  /** `state.T.flatten().tolist()` (aesalgorithm.py:180): the cells read
      column by column, which Build puts back where they were. */
  function Flatten(s: State): (bytes: seq<Byte>)
    ensures |bytes| == 16
    ensures Build(bytes) == s
  {
    var bytes := seq(16, i requires 0 <= i < 16 => s[4 * (i % 4) + i / 4]);
    ReadByColumns(s, bytes);
    bytes
  }

  /** Sixteen bytes that hold the cells of s column by column build s. */
  lemma ReadByColumns(s: State, bytes: seq<Byte>)
    requires |bytes| == 16
    requires forall i :: 0 <= i < 16 ==> bytes[i] == s[4 * (i % 4) + i / 4]
    ensures Build(bytes) == s
  {
    var t := Build(bytes);
    forall k | 0 <= k < 16
      ensures t[k] == s[k]
    {
      var i := 4 * (k % 4) + k / 4;
      assert i / 4 == k % 4 && i % 4 == k / 4;
      assert t[k] == bytes[i];
    }
  }

  /** Reading the state back column by column gives the input bytes in
      their original order. */
  lemma FlattenBuild(bytes: seq<Byte>)
    requires |bytes| == 16
    ensures Flatten(Build(bytes)) == bytes
  {
    var s := Build(bytes);
    forall i | 0 <= i < 16
      ensures Flatten(s)[i] == bytes[i]
    {
      var k := 4 * (i % 4) + i / 4;
      assert k / 4 == i % 4 && k % 4 == i / 4;
    }
  }

  // ---------------------------------------------------------------------------
  // AddRoundKey

  /** `state ^ round_key` (aesalgorithm.py:66-67): the cells XORed with the
      cells of the key, position by position, which adds them as elements
      of GF(2^8). */
  function AddRoundKey(state: State, roundKey: State): (sum: State)
    ensures forall k :: 0 <= k < 16 ==>
      ToPoly(sum[k]) == Add(ToPoly(state[k]), ToPoly(roundKey[k]))
  {
    var sum: State := seq(16, k requires 0 <= k < 16 => Xor(state[k], roundKey[k]));
    CellwiseSum(state, roundKey, sum);
    sum
  }

  /** Cells that are the XOR of two states' cells are their sums. */
  lemma CellwiseSum(a: State, b: State, sum: State)
    requires forall k :: 0 <= k < 16 ==> sum[k] == Xor(a[k], b[k])
    ensures forall k :: 0 <= k < 16 ==> ToPoly(sum[k]) == Add(ToPoly(a[k]), ToPoly(b[k]))
  {
    forall k | 0 <= k < 16
      ensures ToPoly(sum[k]) == Add(ToPoly(a[k]), ToPoly(b[k]))
    {
      XorIsAdd(a[k], b[k]);
    }
  }

  /** The all-zero key. */
  const ZeroKey: State := [0, 0, 0, 0, 0, 0, 0, 0, 0, 0, 0, 0, 0, 0, 0, 0]

  /** Adding the same round key twice restores the state: AddRoundKey is
      its own inverse, which is why decryption applies it again. */
  lemma AddRoundKeyInvolution(state: State, roundKey: State)
    ensures AddRoundKey(AddRoundKey(state, roundKey), roundKey) == state
  {
    forall k | 0 <= k < 16
      ensures AddRoundKey(AddRoundKey(state, roundKey), roundKey)[k] == state[k]
    {
      XorCancel(state[k], roundKey[k]);
    }
  }

  /** The all-zero key leaves the state unchanged. */
  lemma AddRoundKeyZero(state: State)
    ensures AddRoundKey(state, ZeroKey) == state
  {
    forall k | 0 <= k < 16
      ensures AddRoundKey(state, ZeroKey)[k] == state[k]
    {
      XorLaws(state[k], 0, 0);
    }
  }

  /** The order of state and key does not matter. */
  lemma AddRoundKeyCommutes(state: State, roundKey: State)
    ensures AddRoundKey(state, roundKey) == AddRoundKey(roundKey, state)
  {
    forall k | 0 <= k < 16
      ensures AddRoundKey(state, roundKey)[k] == AddRoundKey(roundKey, state)[k]
    {
      XorLaws(state[k], roundKey[k], 0);
    }
  }

  // ---------------------------------------------------------------------------
  // SubBytes and InvSubBytes

  /** `np.vectorize(lambda x: SBOX[x])(state)` (aesalgorithm.py:72-73):
      every cell replaced by its S-box image, which INV_SBOX maps back. */
  function SubBytes(state: State): (out: State)
    ensures forall k :: 0 <= k < 16 ==>
      out[k] == Sbox()[state[k]] && InvSbox()[out[k]] == state[k]
  {
    SboxTablesInvert();
    var table := Sbox();
    seq(16, k requires 0 <= k < 16 => table[state[k]])
  }

  /** `np.vectorize(lambda x: INV_SBOX[x])(state)` (aesalgorithm.py:112-113):
      every cell replaced by its INV_SBOX image, which SBOX maps back. */
  function InvSubBytes(state: State): (out: State)
    ensures forall k :: 0 <= k < 16 ==>
      out[k] == InvSbox()[state[k]] && Sbox()[out[k]] == state[k]
  {
    SboxTablesInvert();
    var table := InvSbox();
    seq(16, k requires 0 <= k < 16 => table[state[k]])
  }

  /** InvSubBytes undoes SubBytes, and SubBytes undoes InvSubBytes. */
  lemma SubBytesInverse(state: State)
    ensures InvSubBytes(SubBytes(state)) == state
    ensures SubBytes(InvSubBytes(state)) == state
  {
    forall k | 0 <= k < 16
      ensures InvSubBytes(SubBytes(state))[k] == state[k]
      ensures SubBytes(InvSubBytes(state))[k] == state[k]
    {
      InvSboxInverts(state[k]);
    }
  }

  /** Each cell is substituted on its own: changing one cell of the input
      changes only that cell of the output, to the S-box image of the new
      value. */
  lemma SubBytesCellwise(state: State, k: int, b: Byte)
    requires 0 <= k < 16
    ensures SubBytes(state[k := b]) == SubBytes(state)[k := Sbox()[b]]
    ensures InvSubBytes(state[k := b]) == InvSubBytes(state)[k := InvSbox()[b]]
  {
  }

  /** SubBytes never maps two different states to the same one. */
  lemma SubBytesInjective(s: State, t: State)
    requires SubBytes(s) == SubBytes(t)
    ensures s == t
  {
    SubBytesInverse(s);
    SubBytesInverse(t);
  }
}
