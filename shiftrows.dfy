/** ShiftRows and InvShiftRows of aesalgorithm.py. Both change the state
    matrix in place, one row at a time, with `state[r] = np.roll(state[r],
    shift)`. Here they are methods on a 4x4 array, specified by functions
    on the state value: ShiftRows rotates row r left by r places and
    InvShiftRows rotates it right by r places. */
module AesShiftRows {
  import opened Bytes
  import opened AesState

  /** `np.roll(row, shift)` on a row of four: entry i of the result is
      entry (i - shift) mod 4 of the row, so the last shift mod 4 entries
      come round to the front. Python's `%` and Dafny's agree here, since
      the modulus is positive. */
  function Roll(row: seq<Byte>, shift: int): (rolled: seq<Byte>)
    requires |row| == 4
    ensures rolled == row[4 - shift % 4..] + row[..4 - shift % 4]
  {
    var rolled := seq(4, i requires 0 <= i < 4 => row[(i - shift) % 4]);
    RollRotates(row, shift, rolled);
    rolled
  }

  /** Taking entry (j - shift) mod 4 into every position j rotates the
      row right by shift mod 4. */
  lemma RollRotates(row: seq<Byte>, shift: int, rolled: seq<Byte>)
    requires |row| == 4 && |rolled| == 4
    requires forall j :: 0 <= j < 4 ==> rolled[j] == row[(j - shift) % 4]
    ensures rolled == row[4 - shift % 4..] + row[..4 - shift % 4]
  {
    var m, q := shift % 4, shift / 4;
    var rotated := row[4 - m..] + row[..4 - m];
    forall j | 0 <= j < 4
      ensures rolled[j] == rotated[j]
    {
      var x, d := (j - shift) % 4, (j - shift) / 4;
      assert j - m - x == 4 * (d + q);
      if j < m {
        assert x == j - m + 4;
      } else {
        assert x == j - m;
      }
    }
  }

  /** Rolling by -n moves the first n entries to the end: a rotation to the
      left by n places. */
  lemma RollLeft(row: seq<Byte>, n: int)
    requires |row| == 4 && 0 <= n < 4
    ensures Roll(row, -n) == row[n..] + row[..n]
  {
  }

  /** Rolling by n moves the last n entries to the front: a rotation to the
      right by n places. */
  lemma RollRight(row: seq<Byte>, n: int)
    requires |row| == 4 && 0 <= n < 4
    ensures Roll(row, n) == row[4 - n..] + row[..4 - n]
  {
  }

  /** Rolling back by the same amount restores the row. */
  lemma RollRoundTrip(row: seq<Byte>, shift: int)
    requires |row| == 4
    ensures Roll(Roll(row, shift), -shift) == row
  {
    forall i | 0 <= i < 4
      ensures Roll(Roll(row, shift), -shift)[i] == row[i]
    {
      var j := (i + shift) % 4;
      var q := (i + shift) / 4;
      assert j - shift == i - 4 * q;
      LessMultipleOfFour(i, q);
    }
  }

  /** Taking away a multiple of 4 does not change a remainder modulo 4. */
  lemma LessMultipleOfFour(x: int, q: int)
    requires 0 <= x < 4
    ensures (x - 4 * q) % 4 == x
  {
    var m, d := (x - 4 * q) % 4, (x - 4 * q) / 4;
    assert x - 4 * q == 4 * d + m;
    assert x - m == 4 * (d + q);
  }

  /** Row r of a state. */
  function Row(s: State, r: int): (row: seq<Byte>)
    requires 0 <= r < 4
    ensures |row| == 4
  {
    s[4 * r .. 4 * r + 4]
  }

  /** s with row r replaced by the given row. */
  function WithRow(s: State, r: int, row: seq<Byte>): State
    requires 0 <= r < 4 && |row| == 4
  {
    seq(16, k requires 0 <= k < 16 => if k / 4 == r then row[k % 4] else s[k])
  }

  /** ShiftRows on the state value: cell (r, c) receives cell
      (r, (c + r) mod 4). */
  function ShiftRowsOf(s: State): State
  {
    seq(16, k requires 0 <= k < 16 =>
      var r, c := k / 4, k % 4;
      s[4 * r + (if c + r < 4 then c + r else c + r - 4)])
  }

  /** InvShiftRows on the state value: cell (r, c) receives cell
      (r, (c - r) mod 4). */
  function InvShiftRowsOf(s: State): State
  {
    seq(16, k requires 0 <= k < 16 =>
      var r, c := k / 4, k % 4;
      s[4 * r + (if c >= r then c - r else c - r + 4)])
  }

  /** `state[r] = np.roll(state[r], shift)`: row r of the array replaced by
      its roll, the other rows untouched. */
  method RollRow(state: array2<Byte>, r: int, shift: int)
    requires IsMatrix(state) && 0 <= r < 4
    modifies state
    ensures Contents(state) == WithRow(old(Contents(state)), r, Roll(Row(old(Contents(state)), r), shift))
  {
    var rolled := Roll(Row(Contents(state), r), shift);
    forall c | 0 <= c < 4 {
      state[r, c] := rolled[c];
    }
  }

  /** `shift_rows` (aesalgorithm.py:86-90): rows 1, 2 and 3 rolled by -1,
      -2 and -3 in place. The Python function also returns the same
      matrix, which its caller binds to the same name. */
  method ShiftRows(state: array2<Byte>)
    requires IsMatrix(state)
    modifies state
    ensures Contents(state) == ShiftRowsOf(old(Contents(state)))
  {
    ghost var s := Contents(state);
    RollRow(state, 1, -1);
    RollRow(state, 2, -2);
    RollRow(state, 3, -3);
    ShiftRowsByRows(s);
  }

  /** `inv_shift_rows` (aesalgorithm.py:105-109): rows 1, 2 and 3 rolled by
      1, 2 and 3 in place. */
  method InvShiftRows(state: array2<Byte>)
    requires IsMatrix(state)
    modifies state
    ensures Contents(state) == InvShiftRowsOf(old(Contents(state)))
  {
    ghost var s := Contents(state);
    RollRow(state, 1, 1);
    RollRow(state, 2, 2);
    RollRow(state, 3, 3);
    InvShiftRowsByRows(s);
  }

  /** Replacing rows 1, 2 and 3 by their rolls by -1, -2 and -3, one after
      the other, is ShiftRows. */
  lemma ShiftRowsByRows(s: State)
    ensures
      var s1 := WithRow(s, 1, Roll(Row(s, 1), -1));
      var s2 := WithRow(s1, 2, Roll(Row(s1, 2), -2));
      WithRow(s2, 3, Roll(Row(s2, 3), -3)) == ShiftRowsOf(s)
  {
    var s1 := WithRow(s, 1, Roll(Row(s, 1), -1));
    var s2 := WithRow(s1, 2, Roll(Row(s1, 2), -2));
    var s3 := WithRow(s2, 3, Roll(Row(s2, 3), -3));
    var t := ShiftRowsOf(s);
    assert s3[0] == t[0];
    assert s3[1] == t[1];
    assert s3[2] == t[2];
    assert s3[3] == t[3];
    assert s3[4] == t[4];
    assert s3[5] == t[5];
    assert s3[6] == t[6];
    assert s3[7] == t[7];
    assert s3[8] == t[8];
    assert s3[9] == t[9];
    assert s3[10] == t[10];
    assert s3[11] == t[11];
    assert s3[12] == t[12];
    assert s3[13] == t[13];
    assert s3[14] == t[14];
    assert s3[15] == t[15];
    EqualByCells(s3, t);
  }

  /** Replacing rows 1, 2 and 3 by their rolls by 1, 2 and 3 is
      InvShiftRows. */
  lemma InvShiftRowsByRows(s: State)
    ensures
      var s1 := WithRow(s, 1, Roll(Row(s, 1), 1));
      var s2 := WithRow(s1, 2, Roll(Row(s1, 2), 2));
      WithRow(s2, 3, Roll(Row(s2, 3), 3)) == InvShiftRowsOf(s)
  {
    var s1 := WithRow(s, 1, Roll(Row(s, 1), 1));
    var s2 := WithRow(s1, 2, Roll(Row(s1, 2), 2));
    var s3 := WithRow(s2, 3, Roll(Row(s2, 3), 3));
    var t := InvShiftRowsOf(s);
    assert s3[0] == t[0];
    assert s3[1] == t[1];
    assert s3[2] == t[2];
    assert s3[3] == t[3];
    assert s3[4] == t[4];
    assert s3[5] == t[5];
    assert s3[6] == t[6];
    assert s3[7] == t[7];
    assert s3[8] == t[8];
    assert s3[9] == t[9];
    assert s3[10] == t[10];
    assert s3[11] == t[11];
    assert s3[12] == t[12];
    assert s3[13] == t[13];
    assert s3[14] == t[14];
    assert s3[15] == t[15];
    EqualByCells(s3, t);
  }

  /** ShiftRows rotates row r to the left by r places; row 0 stays as it
      is. */
  lemma ShiftRowsRotates(s: State, r: int)
    requires 0 <= r < 4
    ensures Row(ShiftRowsOf(s), r) == Row(s, r)[r..] + Row(s, r)[..r]
  {
    var t := ShiftRowsOf(s);
    RowCells(s, r);
    RowCells(t, r);
    if r == 0 {
      assert t[0] == s[0] && t[1] == s[1] && t[2] == s[2] && t[3] == s[3];
    } else if r == 1 {
      assert t[4] == s[5] && t[5] == s[6] && t[6] == s[7] && t[7] == s[4];
    } else if r == 2 {
      assert t[8] == s[10] && t[9] == s[11] && t[10] == s[8] && t[11] == s[9];
    } else {
      assert t[12] == s[15] && t[13] == s[12] && t[14] == s[13] && t[15] == s[14];
    }
  }

  /** InvShiftRows rotates row r to the right by r places. */
  lemma InvShiftRowsRotates(s: State, r: int)
    requires 0 <= r < 4
    ensures Row(InvShiftRowsOf(s), r) == Row(s, r)[4 - r..] + Row(s, r)[..4 - r]
  {
    var t := InvShiftRowsOf(s);
    RowCells(s, r);
    RowCells(t, r);
    if r == 0 {
      assert t[0] == s[0] && t[1] == s[1] && t[2] == s[2] && t[3] == s[3];
    } else if r == 1 {
      assert t[4] == s[7] && t[5] == s[4] && t[6] == s[5] && t[7] == s[6];
    } else if r == 2 {
      assert t[8] == s[10] && t[9] == s[11] && t[10] == s[8] && t[11] == s[9];
    } else {
      assert t[12] == s[13] && t[13] == s[14] && t[14] == s[15] && t[15] == s[12];
    }
  }

  /** The four cells of row r. */
  lemma RowCells(s: State, r: int)
    requires 0 <= r < 4
    ensures Row(s, r) == [s[4 * r], s[4 * r + 1], s[4 * r + 2], s[4 * r + 3]]
  {
  }

  /** InvShiftRows undoes ShiftRows, and ShiftRows undoes InvShiftRows. */
  lemma ShiftRowsInverse(s: State)
    ensures InvShiftRowsOf(ShiftRowsOf(s)) == s
    ensures ShiftRowsOf(InvShiftRowsOf(s)) == s
  {
    forall k | 0 <= k < 16
      ensures InvShiftRowsOf(ShiftRowsOf(s))[k] == s[k]
      ensures ShiftRowsOf(InvShiftRowsOf(s))[k] == s[k]
    {
      var r, c := k / 4, k % 4;
      var left := if c >= r then c - r else c - r + 4;
      var right := if c + r < 4 then c + r else c + r - 4;
      assert (4 * r + left) / 4 == r && (4 * r + left) % 4 == left;
      assert (4 * r + right) / 4 == r && (4 * r + right) % 4 == right;
    }
  }
}
