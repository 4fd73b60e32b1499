/** The substitution tables of aesalgorithm.py: `SBOX`, written out as a
    list of 256 bytes, and `INV_SBOX`, built from it with `SBOX.index`.

    `SboxEntry(x)` is entry x of the list, found by its row (the high hex
    digit of x) and column (the low hex digit), as the list is laid out in
    sixteen lines of sixteen. `InverseTableEntry` is the published inverse
    S-box of FIPS 197 (figure 14), laid out the same way; it serves as the
    reference against which `INV_SBOX` is checked. The two tables are
    proved inverse to each other entry by entry, which makes `SBOX` a
    permutation of the bytes, `SBOX.index` defined on every byte, and
    `INV_SBOX` equal to the published table. */
module SBox {
  import opened Bytes

  /** Entry x of SBOX (aesalgorithm.py:25-42). */
  function SboxEntry(x: Byte): Byte
  {
    match x / 16
    case 0 => SboxRow0(x % 16)
    case 1 => SboxRow1(x % 16)
    case 2 => SboxRow2(x % 16)
    case 3 => SboxRow3(x % 16)
    case 4 => SboxRow4(x % 16)
    case 5 => SboxRow5(x % 16)
    case 6 => SboxRow6(x % 16)
    case 7 => SboxRow7(x % 16)
    case 8 => SboxRow8(x % 16)
    case 9 => SboxRow9(x % 16)
    case 10 => SboxRowA(x % 16)
    case 11 => SboxRowB(x % 16)
    case 12 => SboxRowC(x % 16)
    case 13 => SboxRowD(x % 16)
    case 14 => SboxRowE(x % 16)
    case _ => SboxRowF(x % 16)
  }

  /** `SBOX` as a list of 256 bytes. */
  function Sbox(): (table: seq<Byte>)
    ensures |table| == 256
  {
    seq(256, x requires 0 <= x < 256 => SboxEntry(x))
  }

  /** Python's `list.index`: the first position of s that holds x. The
      program asks only for bytes that occur in the list. */
  function IndexOf(s: seq<Byte>, x: Byte): (i: nat)
    requires x in s
    ensures i < |s| && s[i] == x
    ensures forall j :: 0 <= j < i ==> s[j] != x
  {
    if s[0] == x then 0 else 1 + IndexOf(s[1..], x)
  }

  /** Entry x of `INV_SBOX = [SBOX.index(x) for x in range(256)]`
      (aesalgorithm.py:45). */
  function InvSboxEntry(x: Byte): Byte
  {
    InverseTableInverts(x);
    assert Sbox()[InverseTableEntry(x)] == x;
    IndexOf(Sbox(), x)
  }

  /** `INV_SBOX` as a list of 256 bytes. */
  function InvSbox(): (table: seq<Byte>)
    ensures |table| == 256
  {
    seq(256, x requires 0 <= x < 256 => InvSboxEntry(x))
  }

  /** SBOX is a permutation of the bytes: every byte occurs in it, and no
      byte occurs twice. */
  lemma SboxPermutation()
    ensures |Sbox()| == 256
    ensures forall x: Byte :: x in Sbox()
    ensures forall i, j :: 0 <= i < j < 256 ==> Sbox()[i] != Sbox()[j]
  {
    forall x: Byte
      ensures x in Sbox()
    {
      InverseTableInverts(x);
      assert Sbox()[InverseTableEntry(x)] == x;
    }
    forall i, j | 0 <= i < j < 256
      ensures Sbox()[i] != Sbox()[j]
    {
      InverseTableInverts(i);
      InverseTableInverts(j);
    }
  }

  /** `SBOX.index` finds every byte at the position the published inverse
      table gives, so INV_SBOX is that table. */
  lemma InvSboxIsInverseTable(x: Byte)
    ensures InvSbox()[x] == InverseTableEntry(x)
  {
    var i := InvSboxEntry(x);
    InverseTableInverts(i);
  }

  /** INV_SBOX undoes SBOX and SBOX undoes INV_SBOX. */
  lemma InvSboxInverts(x: Byte)
    ensures InvSbox()[Sbox()[x]] == x
    ensures Sbox()[InvSbox()[x]] == x
  {
    InvSboxIsInverseTable(Sbox()[x]);
    InvSboxIsInverseTable(x);
    InverseTableInverts(x);
  }

  /** InvSboxInverts for every byte at once. */
  lemma SboxTablesInvert()
    ensures forall x: Byte :: InvSbox()[Sbox()[x]] == x && Sbox()[InvSbox()[x]] == x
  {
    forall x: Byte
      ensures InvSbox()[Sbox()[x]] == x && Sbox()[InvSbox()[x]] == x
    {
      InvSboxInverts(x);
    }
  }

  /** The published inverse table undoes SBOX and SBOX undoes it, checked
      row by row. */
  lemma InverseTableInverts(x: Byte)
    ensures InverseTableEntry(SboxEntry(x)) == x
    ensures SboxEntry(InverseTableEntry(x)) == x
  {
    match x / 16
    case 0 => InvertsRow0(x); SboxInvertsRow0(x);
    case 1 => InvertsRow1(x); SboxInvertsRow1(x);
    case 2 => InvertsRow2(x); SboxInvertsRow2(x);
    case 3 => InvertsRow3(x); SboxInvertsRow3(x);
    case 4 => InvertsRow4(x); SboxInvertsRow4(x);
    case 5 => InvertsRow5(x); SboxInvertsRow5(x);
    case 6 => InvertsRow6(x); SboxInvertsRow6(x);
    case 7 => InvertsRow7(x); SboxInvertsRow7(x);
    case 8 => InvertsRow8(x); SboxInvertsRow8(x);
    case 9 => InvertsRow9(x); SboxInvertsRow9(x);
    case 10 => InvertsRowA(x); SboxInvertsRowA(x);
    case 11 => InvertsRowB(x); SboxInvertsRowB(x);
    case 12 => InvertsRowC(x); SboxInvertsRowC(x);
    case 13 => InvertsRowD(x); SboxInvertsRowD(x);
    case 14 => InvertsRowE(x); SboxInvertsRowE(x);
    case _ => InvertsRowF(x); SboxInvertsRowF(x);
  }

  /** Entry x of the inverse S-box of FIPS 197, figure 14. */
  function InverseTableEntry(x: Byte): Byte
  {
    match x / 16
    case 0 => InverseRow0(x % 16)
    case 1 => InverseRow1(x % 16)
    case 2 => InverseRow2(x % 16)
    case 3 => InverseRow3(x % 16)
    case 4 => InverseRow4(x % 16)
    case 5 => InverseRow5(x % 16)
    case 6 => InverseRow6(x % 16)
    case 7 => InverseRow7(x % 16)
    case 8 => InverseRow8(x % 16)
    case 9 => InverseRow9(x % 16)
    case 10 => InverseRowA(x % 16)
    case 11 => InverseRowB(x % 16)
    case 12 => InverseRowC(x % 16)
    case 13 => InverseRowD(x % 16)
    case 14 => InverseRowE(x % 16)
    case _ => InverseRowF(x % 16)
  }

  /** Row 0 of SBOX. */
  function SboxRow0(c: nat): Byte
  {
    match c
    case 0 => 0x63 case 1 => 0x7c case 2 => 0x77 case 3 => 0x7b case 4 => 0xf2 case 5 => 0x6b case 6 => 0x6f case 7 => 0xc5
    case 8 => 0x30 case 9 => 0x01 case 10 => 0x67 case 11 => 0x2b case 12 => 0xfe case 13 => 0xd7 case 14 => 0xab case _ => 0x76
  }

  /** Row 1 of SBOX. */
  function SboxRow1(c: nat): Byte
  {
    match c
    case 0 => 0xca case 1 => 0x82 case 2 => 0xc9 case 3 => 0x7d case 4 => 0xfa case 5 => 0x59 case 6 => 0x47 case 7 => 0xf0
    case 8 => 0xad case 9 => 0xd4 case 10 => 0xa2 case 11 => 0xaf case 12 => 0x9c case 13 => 0xa4 case 14 => 0x72 case _ => 0xc0
  }

  /** Row 2 of SBOX. */
  function SboxRow2(c: nat): Byte
  {
    match c
    case 0 => 0xb7 case 1 => 0xfd case 2 => 0x93 case 3 => 0x26 case 4 => 0x36 case 5 => 0x3f case 6 => 0xf7 case 7 => 0xcc
    case 8 => 0x34 case 9 => 0xa5 case 10 => 0xe5 case 11 => 0xf1 case 12 => 0x71 case 13 => 0xd8 case 14 => 0x31 case _ => 0x15
  }

  /** Row 3 of SBOX. */
  function SboxRow3(c: nat): Byte
  {
    match c
    case 0 => 0x04 case 1 => 0xc7 case 2 => 0x23 case 3 => 0xc3 case 4 => 0x18 case 5 => 0x96 case 6 => 0x05 case 7 => 0x9a
    case 8 => 0x07 case 9 => 0x12 case 10 => 0x80 case 11 => 0xe2 case 12 => 0xeb case 13 => 0x27 case 14 => 0xb2 case _ => 0x75
  }

  /** Row 4 of SBOX. */
  function SboxRow4(c: nat): Byte
  {
    match c
    case 0 => 0x09 case 1 => 0x83 case 2 => 0x2c case 3 => 0x1a case 4 => 0x1b case 5 => 0x6e case 6 => 0x5a case 7 => 0xa0
    case 8 => 0x52 case 9 => 0x3b case 10 => 0xd6 case 11 => 0xb3 case 12 => 0x29 case 13 => 0xe3 case 14 => 0x2f case _ => 0x84
  }

  /** Row 5 of SBOX. */
  function SboxRow5(c: nat): Byte
  {
    match c
    case 0 => 0x53 case 1 => 0xd1 case 2 => 0x00 case 3 => 0xed case 4 => 0x20 case 5 => 0xfc case 6 => 0xb1 case 7 => 0x5b
    case 8 => 0x6a case 9 => 0xcb case 10 => 0xbe case 11 => 0x39 case 12 => 0x4a case 13 => 0x4c case 14 => 0x58 case _ => 0xcf
  }

  /** Row 6 of SBOX. */
  function SboxRow6(c: nat): Byte
  {
    match c
    case 0 => 0xd0 case 1 => 0xef case 2 => 0xaa case 3 => 0xfb case 4 => 0x43 case 5 => 0x4d case 6 => 0x33 case 7 => 0x85
    case 8 => 0x45 case 9 => 0xf9 case 10 => 0x02 case 11 => 0x7f case 12 => 0x50 case 13 => 0x3c case 14 => 0x9f case _ => 0xa8
  }

  /** Row 7 of SBOX. */
  function SboxRow7(c: nat): Byte
  {
    match c
    case 0 => 0x51 case 1 => 0xa3 case 2 => 0x40 case 3 => 0x8f case 4 => 0x92 case 5 => 0x9d case 6 => 0x38 case 7 => 0xf5
    case 8 => 0xbc case 9 => 0xb6 case 10 => 0xda case 11 => 0x21 case 12 => 0x10 case 13 => 0xff case 14 => 0xf3 case _ => 0xd2
  }

  /** Row 8 of SBOX. */
  function SboxRow8(c: nat): Byte
  {
    match c
    case 0 => 0xcd case 1 => 0x0c case 2 => 0x13 case 3 => 0xec case 4 => 0x5f case 5 => 0x97 case 6 => 0x44 case 7 => 0x17
    case 8 => 0xc4 case 9 => 0xa7 case 10 => 0x7e case 11 => 0x3d case 12 => 0x64 case 13 => 0x5d case 14 => 0x19 case _ => 0x73
  }

  /** Row 9 of SBOX. */
  function SboxRow9(c: nat): Byte
  {
    match c
    case 0 => 0x60 case 1 => 0x81 case 2 => 0x4f case 3 => 0xdc case 4 => 0x22 case 5 => 0x2a case 6 => 0x90 case 7 => 0x88
    case 8 => 0x46 case 9 => 0xee case 10 => 0xb8 case 11 => 0x14 case 12 => 0xde case 13 => 0x5e case 14 => 0x0b case _ => 0xdb
  }

  /** Row A of SBOX. */
  function SboxRowA(c: nat): Byte
  {
    match c
    case 0 => 0xe0 case 1 => 0x32 case 2 => 0x3a case 3 => 0x0a case 4 => 0x49 case 5 => 0x06 case 6 => 0x24 case 7 => 0x5c
    case 8 => 0xc2 case 9 => 0xd3 case 10 => 0xac case 11 => 0x62 case 12 => 0x91 case 13 => 0x95 case 14 => 0xe4 case _ => 0x79
  }

  /** Row B of SBOX. */
  function SboxRowB(c: nat): Byte
  {
    match c
    case 0 => 0xe7 case 1 => 0xc8 case 2 => 0x37 case 3 => 0x6d case 4 => 0x8d case 5 => 0xd5 case 6 => 0x4e case 7 => 0xa9
    case 8 => 0x6c case 9 => 0x56 case 10 => 0xf4 case 11 => 0xea case 12 => 0x65 case 13 => 0x7a case 14 => 0xae case _ => 0x08
  }

  /** Row C of SBOX. */
  function SboxRowC(c: nat): Byte
  {
    match c
    case 0 => 0xba case 1 => 0x78 case 2 => 0x25 case 3 => 0x2e case 4 => 0x1c case 5 => 0xa6 case 6 => 0xb4 case 7 => 0xc6
    case 8 => 0xe8 case 9 => 0xdd case 10 => 0x74 case 11 => 0x1f case 12 => 0x4b case 13 => 0xbd case 14 => 0x8b case _ => 0x8a
  }

  /** Row D of SBOX. */
  function SboxRowD(c: nat): Byte
  {
    match c
    case 0 => 0x70 case 1 => 0x3e case 2 => 0xb5 case 3 => 0x66 case 4 => 0x48 case 5 => 0x03 case 6 => 0xf6 case 7 => 0x0e
    case 8 => 0x61 case 9 => 0x35 case 10 => 0x57 case 11 => 0xb9 case 12 => 0x86 case 13 => 0xc1 case 14 => 0x1d case _ => 0x9e
  }

  /** Row E of SBOX. */
  function SboxRowE(c: nat): Byte
  {
    match c
    case 0 => 0xe1 case 1 => 0xf8 case 2 => 0x98 case 3 => 0x11 case 4 => 0x69 case 5 => 0xd9 case 6 => 0x8e case 7 => 0x94
    case 8 => 0x9b case 9 => 0x1e case 10 => 0x87 case 11 => 0xe9 case 12 => 0xce case 13 => 0x55 case 14 => 0x28 case _ => 0xdf
  }

  /** Row F of SBOX. */
  function SboxRowF(c: nat): Byte
  {
    match c
    case 0 => 0x8c case 1 => 0xa1 case 2 => 0x89 case 3 => 0x0d case 4 => 0xbf case 5 => 0xe6 case 6 => 0x42 case 7 => 0x68
    case 8 => 0x41 case 9 => 0x99 case 10 => 0x2d case 11 => 0x0f case 12 => 0xb0 case 13 => 0x54 case 14 => 0xbb case _ => 0x16
  }

  /** Row 0 of the inverse S-box. */
  function InverseRow0(c: nat): Byte
  {
    match c
    case 0 => 0x52 case 1 => 0x09 case 2 => 0x6a case 3 => 0xd5 case 4 => 0x30 case 5 => 0x36 case 6 => 0xa5 case 7 => 0x38
    case 8 => 0xbf case 9 => 0x40 case 10 => 0xa3 case 11 => 0x9e case 12 => 0x81 case 13 => 0xf3 case 14 => 0xd7 case _ => 0xfb
  }

  /** Row 1 of the inverse S-box. */
  function InverseRow1(c: nat): Byte
  {
    match c
    case 0 => 0x7c case 1 => 0xe3 case 2 => 0x39 case 3 => 0x82 case 4 => 0x9b case 5 => 0x2f case 6 => 0xff case 7 => 0x87
    case 8 => 0x34 case 9 => 0x8e case 10 => 0x43 case 11 => 0x44 case 12 => 0xc4 case 13 => 0xde case 14 => 0xe9 case _ => 0xcb
  }

  /** Row 2 of the inverse S-box. */
  function InverseRow2(c: nat): Byte
  {
    match c
    case 0 => 0x54 case 1 => 0x7b case 2 => 0x94 case 3 => 0x32 case 4 => 0xa6 case 5 => 0xc2 case 6 => 0x23 case 7 => 0x3d
    case 8 => 0xee case 9 => 0x4c case 10 => 0x95 case 11 => 0x0b case 12 => 0x42 case 13 => 0xfa case 14 => 0xc3 case _ => 0x4e
  }

  /** Row 3 of the inverse S-box. */
  function InverseRow3(c: nat): Byte
  {
    match c
    case 0 => 0x08 case 1 => 0x2e case 2 => 0xa1 case 3 => 0x66 case 4 => 0x28 case 5 => 0xd9 case 6 => 0x24 case 7 => 0xb2
    case 8 => 0x76 case 9 => 0x5b case 10 => 0xa2 case 11 => 0x49 case 12 => 0x6d case 13 => 0x8b case 14 => 0xd1 case _ => 0x25
  }

  /** Row 4 of the inverse S-box. */
  function InverseRow4(c: nat): Byte
  {
    match c
    case 0 => 0x72 case 1 => 0xf8 case 2 => 0xf6 case 3 => 0x64 case 4 => 0x86 case 5 => 0x68 case 6 => 0x98 case 7 => 0x16
    case 8 => 0xd4 case 9 => 0xa4 case 10 => 0x5c case 11 => 0xcc case 12 => 0x5d case 13 => 0x65 case 14 => 0xb6 case _ => 0x92
  }

  /** Row 5 of the inverse S-box. */
  function InverseRow5(c: nat): Byte
  {
    match c
    case 0 => 0x6c case 1 => 0x70 case 2 => 0x48 case 3 => 0x50 case 4 => 0xfd case 5 => 0xed case 6 => 0xb9 case 7 => 0xda
    case 8 => 0x5e case 9 => 0x15 case 10 => 0x46 case 11 => 0x57 case 12 => 0xa7 case 13 => 0x8d case 14 => 0x9d case _ => 0x84
  }

  /** Row 6 of the inverse S-box. */
  function InverseRow6(c: nat): Byte
  {
    match c
    case 0 => 0x90 case 1 => 0xd8 case 2 => 0xab case 3 => 0x00 case 4 => 0x8c case 5 => 0xbc case 6 => 0xd3 case 7 => 0x0a
    case 8 => 0xf7 case 9 => 0xe4 case 10 => 0x58 case 11 => 0x05 case 12 => 0xb8 case 13 => 0xb3 case 14 => 0x45 case _ => 0x06
  }

  /** Row 7 of the inverse S-box. */
  function InverseRow7(c: nat): Byte
  {
    match c
    case 0 => 0xd0 case 1 => 0x2c case 2 => 0x1e case 3 => 0x8f case 4 => 0xca case 5 => 0x3f case 6 => 0x0f case 7 => 0x02
    case 8 => 0xc1 case 9 => 0xaf case 10 => 0xbd case 11 => 0x03 case 12 => 0x01 case 13 => 0x13 case 14 => 0x8a case _ => 0x6b
  }

  /** Row 8 of the inverse S-box. */
  function InverseRow8(c: nat): Byte
  {
    match c
    case 0 => 0x3a case 1 => 0x91 case 2 => 0x11 case 3 => 0x41 case 4 => 0x4f case 5 => 0x67 case 6 => 0xdc case 7 => 0xea
    case 8 => 0x97 case 9 => 0xf2 case 10 => 0xcf case 11 => 0xce case 12 => 0xf0 case 13 => 0xb4 case 14 => 0xe6 case _ => 0x73
  }

  /** Row 9 of the inverse S-box. */
  function InverseRow9(c: nat): Byte
  {
    match c
    case 0 => 0x96 case 1 => 0xac case 2 => 0x74 case 3 => 0x22 case 4 => 0xe7 case 5 => 0xad case 6 => 0x35 case 7 => 0x85
    case 8 => 0xe2 case 9 => 0xf9 case 10 => 0x37 case 11 => 0xe8 case 12 => 0x1c case 13 => 0x75 case 14 => 0xdf case _ => 0x6e
  }

  /** Row A of the inverse S-box. */
  function InverseRowA(c: nat): Byte
  {
    match c
    case 0 => 0x47 case 1 => 0xf1 case 2 => 0x1a case 3 => 0x71 case 4 => 0x1d case 5 => 0x29 case 6 => 0xc5 case 7 => 0x89
    case 8 => 0x6f case 9 => 0xb7 case 10 => 0x62 case 11 => 0x0e case 12 => 0xaa case 13 => 0x18 case 14 => 0xbe case _ => 0x1b
  }

  /** Row B of the inverse S-box. */
  function InverseRowB(c: nat): Byte
  {
    match c
    case 0 => 0xfc case 1 => 0x56 case 2 => 0x3e case 3 => 0x4b case 4 => 0xc6 case 5 => 0xd2 case 6 => 0x79 case 7 => 0x20
    case 8 => 0x9a case 9 => 0xdb case 10 => 0xc0 case 11 => 0xfe case 12 => 0x78 case 13 => 0xcd case 14 => 0x5a case _ => 0xf4
  }

  /** Row C of the inverse S-box. */
  function InverseRowC(c: nat): Byte
  {
    match c
    case 0 => 0x1f case 1 => 0xdd case 2 => 0xa8 case 3 => 0x33 case 4 => 0x88 case 5 => 0x07 case 6 => 0xc7 case 7 => 0x31
    case 8 => 0xb1 case 9 => 0x12 case 10 => 0x10 case 11 => 0x59 case 12 => 0x27 case 13 => 0x80 case 14 => 0xec case _ => 0x5f
  }

  /** Row D of the inverse S-box. */
  function InverseRowD(c: nat): Byte
  {
    match c
    case 0 => 0x60 case 1 => 0x51 case 2 => 0x7f case 3 => 0xa9 case 4 => 0x19 case 5 => 0xb5 case 6 => 0x4a case 7 => 0x0d
    case 8 => 0x2d case 9 => 0xe5 case 10 => 0x7a case 11 => 0x9f case 12 => 0x93 case 13 => 0xc9 case 14 => 0x9c case _ => 0xef
  }

  /** Row E of the inverse S-box. */
  function InverseRowE(c: nat): Byte
  {
    match c
    case 0 => 0xa0 case 1 => 0xe0 case 2 => 0x3b case 3 => 0x4d case 4 => 0xae case 5 => 0x2a case 6 => 0xf5 case 7 => 0xb0
    case 8 => 0xc8 case 9 => 0xeb case 10 => 0xbb case 11 => 0x3c case 12 => 0x83 case 13 => 0x53 case 14 => 0x99 case _ => 0x61
  }

  /** Row F of the inverse S-box. */
  function InverseRowF(c: nat): Byte
  {
    match c
    case 0 => 0x17 case 1 => 0x2b case 2 => 0x04 case 3 => 0x7e case 4 => 0xba case 5 => 0x77 case 6 => 0xd6 case 7 => 0x26
    case 8 => 0xe1 case 9 => 0x69 case 10 => 0x14 case 11 => 0x63 case 12 => 0x55 case 13 => 0x21 case 14 => 0x0c case _ => 0x7d
  }

  /** The inverse table undoes row 0 of SBOX. */
  lemma InvertsRow0(x: Byte)
    requires x / 16 == 0
    ensures InverseTableEntry(SboxEntry(x)) == x
  {
    if x == 0x00 { assert SboxEntry(0x00) == 0x63; assert InverseTableEntry(0x63) == 0x00; }
    else if x == 0x01 { assert SboxEntry(0x01) == 0x7c; assert InverseTableEntry(0x7c) == 0x01; }
    else if x == 0x02 { assert SboxEntry(0x02) == 0x77; assert InverseTableEntry(0x77) == 0x02; }
    else if x == 0x03 { assert SboxEntry(0x03) == 0x7b; assert InverseTableEntry(0x7b) == 0x03; }
    else if x == 0x04 { assert SboxEntry(0x04) == 0xf2; assert InverseTableEntry(0xf2) == 0x04; }
    else if x == 0x05 { assert SboxEntry(0x05) == 0x6b; assert InverseTableEntry(0x6b) == 0x05; }
    else if x == 0x06 { assert SboxEntry(0x06) == 0x6f; assert InverseTableEntry(0x6f) == 0x06; }
    else if x == 0x07 { assert SboxEntry(0x07) == 0xc5; assert InverseTableEntry(0xc5) == 0x07; }
    else if x == 0x08 { assert SboxEntry(0x08) == 0x30; assert InverseTableEntry(0x30) == 0x08; }
    else if x == 0x09 { assert SboxEntry(0x09) == 0x01; assert InverseTableEntry(0x01) == 0x09; }
    else if x == 0x0a { assert SboxEntry(0x0a) == 0x67; assert InverseTableEntry(0x67) == 0x0a; }
    else if x == 0x0b { assert SboxEntry(0x0b) == 0x2b; assert InverseTableEntry(0x2b) == 0x0b; }
    else if x == 0x0c { assert SboxEntry(0x0c) == 0xfe; assert InverseTableEntry(0xfe) == 0x0c; }
    else if x == 0x0d { assert SboxEntry(0x0d) == 0xd7; assert InverseTableEntry(0xd7) == 0x0d; }
    else if x == 0x0e { assert SboxEntry(0x0e) == 0xab; assert InverseTableEntry(0xab) == 0x0e; }
    else if x == 0x0f { assert SboxEntry(0x0f) == 0x76; assert InverseTableEntry(0x76) == 0x0f; }
  }

  /** The inverse table undoes row 1 of SBOX. */
  lemma InvertsRow1(x: Byte)
    requires x / 16 == 1
    ensures InverseTableEntry(SboxEntry(x)) == x
  {
    if x == 0x10 { assert SboxEntry(0x10) == 0xca; assert InverseTableEntry(0xca) == 0x10; }
    else if x == 0x11 { assert SboxEntry(0x11) == 0x82; assert InverseTableEntry(0x82) == 0x11; }
    else if x == 0x12 { assert SboxEntry(0x12) == 0xc9; assert InverseTableEntry(0xc9) == 0x12; }
    else if x == 0x13 { assert SboxEntry(0x13) == 0x7d; assert InverseTableEntry(0x7d) == 0x13; }
    else if x == 0x14 { assert SboxEntry(0x14) == 0xfa; assert InverseTableEntry(0xfa) == 0x14; }
    else if x == 0x15 { assert SboxEntry(0x15) == 0x59; assert InverseTableEntry(0x59) == 0x15; }
    else if x == 0x16 { assert SboxEntry(0x16) == 0x47; assert InverseTableEntry(0x47) == 0x16; }
    else if x == 0x17 { assert SboxEntry(0x17) == 0xf0; assert InverseTableEntry(0xf0) == 0x17; }
    else if x == 0x18 { assert SboxEntry(0x18) == 0xad; assert InverseTableEntry(0xad) == 0x18; }
    else if x == 0x19 { assert SboxEntry(0x19) == 0xd4; assert InverseTableEntry(0xd4) == 0x19; }
    else if x == 0x1a { assert SboxEntry(0x1a) == 0xa2; assert InverseTableEntry(0xa2) == 0x1a; }
    else if x == 0x1b { assert SboxEntry(0x1b) == 0xaf; assert InverseTableEntry(0xaf) == 0x1b; }
    else if x == 0x1c { assert SboxEntry(0x1c) == 0x9c; assert InverseTableEntry(0x9c) == 0x1c; }
    else if x == 0x1d { assert SboxEntry(0x1d) == 0xa4; assert InverseTableEntry(0xa4) == 0x1d; }
    else if x == 0x1e { assert SboxEntry(0x1e) == 0x72; assert InverseTableEntry(0x72) == 0x1e; }
    else if x == 0x1f { assert SboxEntry(0x1f) == 0xc0; assert InverseTableEntry(0xc0) == 0x1f; }
  }

  /** The inverse table undoes row 2 of SBOX. */
  lemma InvertsRow2(x: Byte)
    requires x / 16 == 2
    ensures InverseTableEntry(SboxEntry(x)) == x
  {
    if x == 0x20 { assert SboxEntry(0x20) == 0xb7; assert InverseTableEntry(0xb7) == 0x20; }
    else if x == 0x21 { assert SboxEntry(0x21) == 0xfd; assert InverseTableEntry(0xfd) == 0x21; }
    else if x == 0x22 { assert SboxEntry(0x22) == 0x93; assert InverseTableEntry(0x93) == 0x22; }
    else if x == 0x23 { assert SboxEntry(0x23) == 0x26; assert InverseTableEntry(0x26) == 0x23; }
    else if x == 0x24 { assert SboxEntry(0x24) == 0x36; assert InverseTableEntry(0x36) == 0x24; }
    else if x == 0x25 { assert SboxEntry(0x25) == 0x3f; assert InverseTableEntry(0x3f) == 0x25; }
    else if x == 0x26 { assert SboxEntry(0x26) == 0xf7; assert InverseTableEntry(0xf7) == 0x26; }
    else if x == 0x27 { assert SboxEntry(0x27) == 0xcc; assert InverseTableEntry(0xcc) == 0x27; }
    else if x == 0x28 { assert SboxEntry(0x28) == 0x34; assert InverseTableEntry(0x34) == 0x28; }
    else if x == 0x29 { assert SboxEntry(0x29) == 0xa5; assert InverseTableEntry(0xa5) == 0x29; }
    else if x == 0x2a { assert SboxEntry(0x2a) == 0xe5; assert InverseTableEntry(0xe5) == 0x2a; }
    else if x == 0x2b { assert SboxEntry(0x2b) == 0xf1; assert InverseTableEntry(0xf1) == 0x2b; }
    else if x == 0x2c { assert SboxEntry(0x2c) == 0x71; assert InverseTableEntry(0x71) == 0x2c; }
    else if x == 0x2d { assert SboxEntry(0x2d) == 0xd8; assert InverseTableEntry(0xd8) == 0x2d; }
    else if x == 0x2e { assert SboxEntry(0x2e) == 0x31; assert InverseTableEntry(0x31) == 0x2e; }
    else if x == 0x2f { assert SboxEntry(0x2f) == 0x15; assert InverseTableEntry(0x15) == 0x2f; }
  }

  /** The inverse table undoes row 3 of SBOX. */
  lemma InvertsRow3(x: Byte)
    requires x / 16 == 3
    ensures InverseTableEntry(SboxEntry(x)) == x
  {
    if x == 0x30 { assert SboxEntry(0x30) == 0x04; assert InverseTableEntry(0x04) == 0x30; }
    else if x == 0x31 { assert SboxEntry(0x31) == 0xc7; assert InverseTableEntry(0xc7) == 0x31; }
    else if x == 0x32 { assert SboxEntry(0x32) == 0x23; assert InverseTableEntry(0x23) == 0x32; }
    else if x == 0x33 { assert SboxEntry(0x33) == 0xc3; assert InverseTableEntry(0xc3) == 0x33; }
    else if x == 0x34 { assert SboxEntry(0x34) == 0x18; assert InverseTableEntry(0x18) == 0x34; }
    else if x == 0x35 { assert SboxEntry(0x35) == 0x96; assert InverseTableEntry(0x96) == 0x35; }
    else if x == 0x36 { assert SboxEntry(0x36) == 0x05; assert InverseTableEntry(0x05) == 0x36; }
    else if x == 0x37 { assert SboxEntry(0x37) == 0x9a; assert InverseTableEntry(0x9a) == 0x37; }
    else if x == 0x38 { assert SboxEntry(0x38) == 0x07; assert InverseTableEntry(0x07) == 0x38; }
    else if x == 0x39 { assert SboxEntry(0x39) == 0x12; assert InverseTableEntry(0x12) == 0x39; }
    else if x == 0x3a { assert SboxEntry(0x3a) == 0x80; assert InverseTableEntry(0x80) == 0x3a; }
    else if x == 0x3b { assert SboxEntry(0x3b) == 0xe2; assert InverseTableEntry(0xe2) == 0x3b; }
    else if x == 0x3c { assert SboxEntry(0x3c) == 0xeb; assert InverseTableEntry(0xeb) == 0x3c; }
    else if x == 0x3d { assert SboxEntry(0x3d) == 0x27; assert InverseTableEntry(0x27) == 0x3d; }
    else if x == 0x3e { assert SboxEntry(0x3e) == 0xb2; assert InverseTableEntry(0xb2) == 0x3e; }
    else if x == 0x3f { assert SboxEntry(0x3f) == 0x75; assert InverseTableEntry(0x75) == 0x3f; }
  }

  /** The inverse table undoes row 4 of SBOX. */
  lemma InvertsRow4(x: Byte)
    requires x / 16 == 4
    ensures InverseTableEntry(SboxEntry(x)) == x
  {
    if x == 0x40 { assert SboxEntry(0x40) == 0x09; assert InverseTableEntry(0x09) == 0x40; }
    else if x == 0x41 { assert SboxEntry(0x41) == 0x83; assert InverseTableEntry(0x83) == 0x41; }
    else if x == 0x42 { assert SboxEntry(0x42) == 0x2c; assert InverseTableEntry(0x2c) == 0x42; }
    else if x == 0x43 { assert SboxEntry(0x43) == 0x1a; assert InverseTableEntry(0x1a) == 0x43; }
    else if x == 0x44 { assert SboxEntry(0x44) == 0x1b; assert InverseTableEntry(0x1b) == 0x44; }
    else if x == 0x45 { assert SboxEntry(0x45) == 0x6e; assert InverseTableEntry(0x6e) == 0x45; }
    else if x == 0x46 { assert SboxEntry(0x46) == 0x5a; assert InverseTableEntry(0x5a) == 0x46; }
    else if x == 0x47 { assert SboxEntry(0x47) == 0xa0; assert InverseTableEntry(0xa0) == 0x47; }
    else if x == 0x48 { assert SboxEntry(0x48) == 0x52; assert InverseTableEntry(0x52) == 0x48; }
    else if x == 0x49 { assert SboxEntry(0x49) == 0x3b; assert InverseTableEntry(0x3b) == 0x49; }
    else if x == 0x4a { assert SboxEntry(0x4a) == 0xd6; assert InverseTableEntry(0xd6) == 0x4a; }
    else if x == 0x4b { assert SboxEntry(0x4b) == 0xb3; assert InverseTableEntry(0xb3) == 0x4b; }
    else if x == 0x4c { assert SboxEntry(0x4c) == 0x29; assert InverseTableEntry(0x29) == 0x4c; }
    else if x == 0x4d { assert SboxEntry(0x4d) == 0xe3; assert InverseTableEntry(0xe3) == 0x4d; }
    else if x == 0x4e { assert SboxEntry(0x4e) == 0x2f; assert InverseTableEntry(0x2f) == 0x4e; }
    else if x == 0x4f { assert SboxEntry(0x4f) == 0x84; assert InverseTableEntry(0x84) == 0x4f; }
  }

  /** The inverse table undoes row 5 of SBOX. */
  lemma InvertsRow5(x: Byte)
    requires x / 16 == 5
    ensures InverseTableEntry(SboxEntry(x)) == x
  {
    if x == 0x50 { assert SboxEntry(0x50) == 0x53; assert InverseTableEntry(0x53) == 0x50; }
    else if x == 0x51 { assert SboxEntry(0x51) == 0xd1; assert InverseTableEntry(0xd1) == 0x51; }
    else if x == 0x52 { assert SboxEntry(0x52) == 0x00; assert InverseTableEntry(0x00) == 0x52; }
    else if x == 0x53 { assert SboxEntry(0x53) == 0xed; assert InverseTableEntry(0xed) == 0x53; }
    else if x == 0x54 { assert SboxEntry(0x54) == 0x20; assert InverseTableEntry(0x20) == 0x54; }
    else if x == 0x55 { assert SboxEntry(0x55) == 0xfc; assert InverseTableEntry(0xfc) == 0x55; }
    else if x == 0x56 { assert SboxEntry(0x56) == 0xb1; assert InverseTableEntry(0xb1) == 0x56; }
    else if x == 0x57 { assert SboxEntry(0x57) == 0x5b; assert InverseTableEntry(0x5b) == 0x57; }
    else if x == 0x58 { assert SboxEntry(0x58) == 0x6a; assert InverseTableEntry(0x6a) == 0x58; }
    else if x == 0x59 { assert SboxEntry(0x59) == 0xcb; assert InverseTableEntry(0xcb) == 0x59; }
    else if x == 0x5a { assert SboxEntry(0x5a) == 0xbe; assert InverseTableEntry(0xbe) == 0x5a; }
    else if x == 0x5b { assert SboxEntry(0x5b) == 0x39; assert InverseTableEntry(0x39) == 0x5b; }
    else if x == 0x5c { assert SboxEntry(0x5c) == 0x4a; assert InverseTableEntry(0x4a) == 0x5c; }
    else if x == 0x5d { assert SboxEntry(0x5d) == 0x4c; assert InverseTableEntry(0x4c) == 0x5d; }
    else if x == 0x5e { assert SboxEntry(0x5e) == 0x58; assert InverseTableEntry(0x58) == 0x5e; }
    else if x == 0x5f { assert SboxEntry(0x5f) == 0xcf; assert InverseTableEntry(0xcf) == 0x5f; }
  }

  /** The inverse table undoes row 6 of SBOX. */
  lemma InvertsRow6(x: Byte)
    requires x / 16 == 6
    ensures InverseTableEntry(SboxEntry(x)) == x
  {
    if x == 0x60 { assert SboxEntry(0x60) == 0xd0; assert InverseTableEntry(0xd0) == 0x60; }
    else if x == 0x61 { assert SboxEntry(0x61) == 0xef; assert InverseTableEntry(0xef) == 0x61; }
    else if x == 0x62 { assert SboxEntry(0x62) == 0xaa; assert InverseTableEntry(0xaa) == 0x62; }
    else if x == 0x63 { assert SboxEntry(0x63) == 0xfb; assert InverseTableEntry(0xfb) == 0x63; }
    else if x == 0x64 { assert SboxEntry(0x64) == 0x43; assert InverseTableEntry(0x43) == 0x64; }
    else if x == 0x65 { assert SboxEntry(0x65) == 0x4d; assert InverseTableEntry(0x4d) == 0x65; }
    else if x == 0x66 { assert SboxEntry(0x66) == 0x33; assert InverseTableEntry(0x33) == 0x66; }
    else if x == 0x67 { assert SboxEntry(0x67) == 0x85; assert InverseTableEntry(0x85) == 0x67; }
    else if x == 0x68 { assert SboxEntry(0x68) == 0x45; assert InverseTableEntry(0x45) == 0x68; }
    else if x == 0x69 { assert SboxEntry(0x69) == 0xf9; assert InverseTableEntry(0xf9) == 0x69; }
    else if x == 0x6a { assert SboxEntry(0x6a) == 0x02; assert InverseTableEntry(0x02) == 0x6a; }
    else if x == 0x6b { assert SboxEntry(0x6b) == 0x7f; assert InverseTableEntry(0x7f) == 0x6b; }
    else if x == 0x6c { assert SboxEntry(0x6c) == 0x50; assert InverseTableEntry(0x50) == 0x6c; }
    else if x == 0x6d { assert SboxEntry(0x6d) == 0x3c; assert InverseTableEntry(0x3c) == 0x6d; }
    else if x == 0x6e { assert SboxEntry(0x6e) == 0x9f; assert InverseTableEntry(0x9f) == 0x6e; }
    else if x == 0x6f { assert SboxEntry(0x6f) == 0xa8; assert InverseTableEntry(0xa8) == 0x6f; }
  }

  /** The inverse table undoes row 7 of SBOX. */
  lemma InvertsRow7(x: Byte)
    requires x / 16 == 7
    ensures InverseTableEntry(SboxEntry(x)) == x
  {
    if x == 0x70 { assert SboxEntry(0x70) == 0x51; assert InverseTableEntry(0x51) == 0x70; }
    else if x == 0x71 { assert SboxEntry(0x71) == 0xa3; assert InverseTableEntry(0xa3) == 0x71; }
    else if x == 0x72 { assert SboxEntry(0x72) == 0x40; assert InverseTableEntry(0x40) == 0x72; }
    else if x == 0x73 { assert SboxEntry(0x73) == 0x8f; assert InverseTableEntry(0x8f) == 0x73; }
    else if x == 0x74 { assert SboxEntry(0x74) == 0x92; assert InverseTableEntry(0x92) == 0x74; }
    else if x == 0x75 { assert SboxEntry(0x75) == 0x9d; assert InverseTableEntry(0x9d) == 0x75; }
    else if x == 0x76 { assert SboxEntry(0x76) == 0x38; assert InverseTableEntry(0x38) == 0x76; }
    else if x == 0x77 { assert SboxEntry(0x77) == 0xf5; assert InverseTableEntry(0xf5) == 0x77; }
    else if x == 0x78 { assert SboxEntry(0x78) == 0xbc; assert InverseTableEntry(0xbc) == 0x78; }
    else if x == 0x79 { assert SboxEntry(0x79) == 0xb6; assert InverseTableEntry(0xb6) == 0x79; }
    else if x == 0x7a { assert SboxEntry(0x7a) == 0xda; assert InverseTableEntry(0xda) == 0x7a; }
    else if x == 0x7b { assert SboxEntry(0x7b) == 0x21; assert InverseTableEntry(0x21) == 0x7b; }
    else if x == 0x7c { assert SboxEntry(0x7c) == 0x10; assert InverseTableEntry(0x10) == 0x7c; }
    else if x == 0x7d { assert SboxEntry(0x7d) == 0xff; assert InverseTableEntry(0xff) == 0x7d; }
    else if x == 0x7e { assert SboxEntry(0x7e) == 0xf3; assert InverseTableEntry(0xf3) == 0x7e; }
    else if x == 0x7f { assert SboxEntry(0x7f) == 0xd2; assert InverseTableEntry(0xd2) == 0x7f; }
  }

  /** The inverse table undoes row 8 of SBOX. */
  lemma InvertsRow8(x: Byte)
    requires x / 16 == 8
    ensures InverseTableEntry(SboxEntry(x)) == x
  {
    if x == 0x80 { assert SboxEntry(0x80) == 0xcd; assert InverseTableEntry(0xcd) == 0x80; }
    else if x == 0x81 { assert SboxEntry(0x81) == 0x0c; assert InverseTableEntry(0x0c) == 0x81; }
    else if x == 0x82 { assert SboxEntry(0x82) == 0x13; assert InverseTableEntry(0x13) == 0x82; }
    else if x == 0x83 { assert SboxEntry(0x83) == 0xec; assert InverseTableEntry(0xec) == 0x83; }
    else if x == 0x84 { assert SboxEntry(0x84) == 0x5f; assert InverseTableEntry(0x5f) == 0x84; }
    else if x == 0x85 { assert SboxEntry(0x85) == 0x97; assert InverseTableEntry(0x97) == 0x85; }
    else if x == 0x86 { assert SboxEntry(0x86) == 0x44; assert InverseTableEntry(0x44) == 0x86; }
    else if x == 0x87 { assert SboxEntry(0x87) == 0x17; assert InverseTableEntry(0x17) == 0x87; }
    else if x == 0x88 { assert SboxEntry(0x88) == 0xc4; assert InverseTableEntry(0xc4) == 0x88; }
    else if x == 0x89 { assert SboxEntry(0x89) == 0xa7; assert InverseTableEntry(0xa7) == 0x89; }
    else if x == 0x8a { assert SboxEntry(0x8a) == 0x7e; assert InverseTableEntry(0x7e) == 0x8a; }
    else if x == 0x8b { assert SboxEntry(0x8b) == 0x3d; assert InverseTableEntry(0x3d) == 0x8b; }
    else if x == 0x8c { assert SboxEntry(0x8c) == 0x64; assert InverseTableEntry(0x64) == 0x8c; }
    else if x == 0x8d { assert SboxEntry(0x8d) == 0x5d; assert InverseTableEntry(0x5d) == 0x8d; }
    else if x == 0x8e { assert SboxEntry(0x8e) == 0x19; assert InverseTableEntry(0x19) == 0x8e; }
    else if x == 0x8f { assert SboxEntry(0x8f) == 0x73; assert InverseTableEntry(0x73) == 0x8f; }
  }

  /** The inverse table undoes row 9 of SBOX. */
  lemma InvertsRow9(x: Byte)
    requires x / 16 == 9
    ensures InverseTableEntry(SboxEntry(x)) == x
  {
    if x == 0x90 { assert SboxEntry(0x90) == 0x60; assert InverseTableEntry(0x60) == 0x90; }
    else if x == 0x91 { assert SboxEntry(0x91) == 0x81; assert InverseTableEntry(0x81) == 0x91; }
    else if x == 0x92 { assert SboxEntry(0x92) == 0x4f; assert InverseTableEntry(0x4f) == 0x92; }
    else if x == 0x93 { assert SboxEntry(0x93) == 0xdc; assert InverseTableEntry(0xdc) == 0x93; }
    else if x == 0x94 { assert SboxEntry(0x94) == 0x22; assert InverseTableEntry(0x22) == 0x94; }
    else if x == 0x95 { assert SboxEntry(0x95) == 0x2a; assert InverseTableEntry(0x2a) == 0x95; }
    else if x == 0x96 { assert SboxEntry(0x96) == 0x90; assert InverseTableEntry(0x90) == 0x96; }
    else if x == 0x97 { assert SboxEntry(0x97) == 0x88; assert InverseTableEntry(0x88) == 0x97; }
    else if x == 0x98 { assert SboxEntry(0x98) == 0x46; assert InverseTableEntry(0x46) == 0x98; }
    else if x == 0x99 { assert SboxEntry(0x99) == 0xee; assert InverseTableEntry(0xee) == 0x99; }
    else if x == 0x9a { assert SboxEntry(0x9a) == 0xb8; assert InverseTableEntry(0xb8) == 0x9a; }
    else if x == 0x9b { assert SboxEntry(0x9b) == 0x14; assert InverseTableEntry(0x14) == 0x9b; }
    else if x == 0x9c { assert SboxEntry(0x9c) == 0xde; assert InverseTableEntry(0xde) == 0x9c; }
    else if x == 0x9d { assert SboxEntry(0x9d) == 0x5e; assert InverseTableEntry(0x5e) == 0x9d; }
    else if x == 0x9e { assert SboxEntry(0x9e) == 0x0b; assert InverseTableEntry(0x0b) == 0x9e; }
    else if x == 0x9f { assert SboxEntry(0x9f) == 0xdb; assert InverseTableEntry(0xdb) == 0x9f; }
  }

  /** The inverse table undoes row A of SBOX. */
  lemma InvertsRowA(x: Byte)
    requires x / 16 == 10
    ensures InverseTableEntry(SboxEntry(x)) == x
  {
    if x == 0xa0 { assert SboxEntry(0xa0) == 0xe0; assert InverseTableEntry(0xe0) == 0xa0; }
    else if x == 0xa1 { assert SboxEntry(0xa1) == 0x32; assert InverseTableEntry(0x32) == 0xa1; }
    else if x == 0xa2 { assert SboxEntry(0xa2) == 0x3a; assert InverseTableEntry(0x3a) == 0xa2; }
    else if x == 0xa3 { assert SboxEntry(0xa3) == 0x0a; assert InverseTableEntry(0x0a) == 0xa3; }
    else if x == 0xa4 { assert SboxEntry(0xa4) == 0x49; assert InverseTableEntry(0x49) == 0xa4; }
    else if x == 0xa5 { assert SboxEntry(0xa5) == 0x06; assert InverseTableEntry(0x06) == 0xa5; }
    else if x == 0xa6 { assert SboxEntry(0xa6) == 0x24; assert InverseTableEntry(0x24) == 0xa6; }
    else if x == 0xa7 { assert SboxEntry(0xa7) == 0x5c; assert InverseTableEntry(0x5c) == 0xa7; }
    else if x == 0xa8 { assert SboxEntry(0xa8) == 0xc2; assert InverseTableEntry(0xc2) == 0xa8; }
    else if x == 0xa9 { assert SboxEntry(0xa9) == 0xd3; assert InverseTableEntry(0xd3) == 0xa9; }
    else if x == 0xaa { assert SboxEntry(0xaa) == 0xac; assert InverseTableEntry(0xac) == 0xaa; }
    else if x == 0xab { assert SboxEntry(0xab) == 0x62; assert InverseTableEntry(0x62) == 0xab; }
    else if x == 0xac { assert SboxEntry(0xac) == 0x91; assert InverseTableEntry(0x91) == 0xac; }
    else if x == 0xad { assert SboxEntry(0xad) == 0x95; assert InverseTableEntry(0x95) == 0xad; }
    else if x == 0xae { assert SboxEntry(0xae) == 0xe4; assert InverseTableEntry(0xe4) == 0xae; }
    else if x == 0xaf { assert SboxEntry(0xaf) == 0x79; assert InverseTableEntry(0x79) == 0xaf; }
  }

  /** The inverse table undoes row B of SBOX. */
  lemma InvertsRowB(x: Byte)
    requires x / 16 == 11
    ensures InverseTableEntry(SboxEntry(x)) == x
  {
    if x == 0xb0 { assert SboxEntry(0xb0) == 0xe7; assert InverseTableEntry(0xe7) == 0xb0; }
    else if x == 0xb1 { assert SboxEntry(0xb1) == 0xc8; assert InverseTableEntry(0xc8) == 0xb1; }
    else if x == 0xb2 { assert SboxEntry(0xb2) == 0x37; assert InverseTableEntry(0x37) == 0xb2; }
    else if x == 0xb3 { assert SboxEntry(0xb3) == 0x6d; assert InverseTableEntry(0x6d) == 0xb3; }
    else if x == 0xb4 { assert SboxEntry(0xb4) == 0x8d; assert InverseTableEntry(0x8d) == 0xb4; }
    else if x == 0xb5 { assert SboxEntry(0xb5) == 0xd5; assert InverseTableEntry(0xd5) == 0xb5; }
    else if x == 0xb6 { assert SboxEntry(0xb6) == 0x4e; assert InverseTableEntry(0x4e) == 0xb6; }
    else if x == 0xb7 { assert SboxEntry(0xb7) == 0xa9; assert InverseTableEntry(0xa9) == 0xb7; }
    else if x == 0xb8 { assert SboxEntry(0xb8) == 0x6c; assert InverseTableEntry(0x6c) == 0xb8; }
    else if x == 0xb9 { assert SboxEntry(0xb9) == 0x56; assert InverseTableEntry(0x56) == 0xb9; }
    else if x == 0xba { assert SboxEntry(0xba) == 0xf4; assert InverseTableEntry(0xf4) == 0xba; }
    else if x == 0xbb { assert SboxEntry(0xbb) == 0xea; assert InverseTableEntry(0xea) == 0xbb; }
    else if x == 0xbc { assert SboxEntry(0xbc) == 0x65; assert InverseTableEntry(0x65) == 0xbc; }
    else if x == 0xbd { assert SboxEntry(0xbd) == 0x7a; assert InverseTableEntry(0x7a) == 0xbd; }
    else if x == 0xbe { assert SboxEntry(0xbe) == 0xae; assert InverseTableEntry(0xae) == 0xbe; }
    else if x == 0xbf { assert SboxEntry(0xbf) == 0x08; assert InverseTableEntry(0x08) == 0xbf; }
  }

  /** The inverse table undoes row C of SBOX. */
  lemma InvertsRowC(x: Byte)
    requires x / 16 == 12
    ensures InverseTableEntry(SboxEntry(x)) == x
  {
    if x == 0xc0 { assert SboxEntry(0xc0) == 0xba; assert InverseTableEntry(0xba) == 0xc0; }
    else if x == 0xc1 { assert SboxEntry(0xc1) == 0x78; assert InverseTableEntry(0x78) == 0xc1; }
    else if x == 0xc2 { assert SboxEntry(0xc2) == 0x25; assert InverseTableEntry(0x25) == 0xc2; }
    else if x == 0xc3 { assert SboxEntry(0xc3) == 0x2e; assert InverseTableEntry(0x2e) == 0xc3; }
    else if x == 0xc4 { assert SboxEntry(0xc4) == 0x1c; assert InverseTableEntry(0x1c) == 0xc4; }
    else if x == 0xc5 { assert SboxEntry(0xc5) == 0xa6; assert InverseTableEntry(0xa6) == 0xc5; }
    else if x == 0xc6 { assert SboxEntry(0xc6) == 0xb4; assert InverseTableEntry(0xb4) == 0xc6; }
    else if x == 0xc7 { assert SboxEntry(0xc7) == 0xc6; assert InverseTableEntry(0xc6) == 0xc7; }
    else if x == 0xc8 { assert SboxEntry(0xc8) == 0xe8; assert InverseTableEntry(0xe8) == 0xc8; }
    else if x == 0xc9 { assert SboxEntry(0xc9) == 0xdd; assert InverseTableEntry(0xdd) == 0xc9; }
    else if x == 0xca { assert SboxEntry(0xca) == 0x74; assert InverseTableEntry(0x74) == 0xca; }
    else if x == 0xcb { assert SboxEntry(0xcb) == 0x1f; assert InverseTableEntry(0x1f) == 0xcb; }
    else if x == 0xcc { assert SboxEntry(0xcc) == 0x4b; assert InverseTableEntry(0x4b) == 0xcc; }
    else if x == 0xcd { assert SboxEntry(0xcd) == 0xbd; assert InverseTableEntry(0xbd) == 0xcd; }
    else if x == 0xce { assert SboxEntry(0xce) == 0x8b; assert InverseTableEntry(0x8b) == 0xce; }
    else if x == 0xcf { assert SboxEntry(0xcf) == 0x8a; assert InverseTableEntry(0x8a) == 0xcf; }
  }

  /** The inverse table undoes row D of SBOX. */
  lemma InvertsRowD(x: Byte)
    requires x / 16 == 13
    ensures InverseTableEntry(SboxEntry(x)) == x
  {
    if x == 0xd0 { assert SboxEntry(0xd0) == 0x70; assert InverseTableEntry(0x70) == 0xd0; }
    else if x == 0xd1 { assert SboxEntry(0xd1) == 0x3e; assert InverseTableEntry(0x3e) == 0xd1; }
    else if x == 0xd2 { assert SboxEntry(0xd2) == 0xb5; assert InverseTableEntry(0xb5) == 0xd2; }
    else if x == 0xd3 { assert SboxEntry(0xd3) == 0x66; assert InverseTableEntry(0x66) == 0xd3; }
    else if x == 0xd4 { assert SboxEntry(0xd4) == 0x48; assert InverseTableEntry(0x48) == 0xd4; }
    else if x == 0xd5 { assert SboxEntry(0xd5) == 0x03; assert InverseTableEntry(0x03) == 0xd5; }
    else if x == 0xd6 { assert SboxEntry(0xd6) == 0xf6; assert InverseTableEntry(0xf6) == 0xd6; }
    else if x == 0xd7 { assert SboxEntry(0xd7) == 0x0e; assert InverseTableEntry(0x0e) == 0xd7; }
    else if x == 0xd8 { assert SboxEntry(0xd8) == 0x61; assert InverseTableEntry(0x61) == 0xd8; }
    else if x == 0xd9 { assert SboxEntry(0xd9) == 0x35; assert InverseTableEntry(0x35) == 0xd9; }
    else if x == 0xda { assert SboxEntry(0xda) == 0x57; assert InverseTableEntry(0x57) == 0xda; }
    else if x == 0xdb { assert SboxEntry(0xdb) == 0xb9; assert InverseTableEntry(0xb9) == 0xdb; }
    else if x == 0xdc { assert SboxEntry(0xdc) == 0x86; assert InverseTableEntry(0x86) == 0xdc; }
    else if x == 0xdd { assert SboxEntry(0xdd) == 0xc1; assert InverseTableEntry(0xc1) == 0xdd; }
    else if x == 0xde { assert SboxEntry(0xde) == 0x1d; assert InverseTableEntry(0x1d) == 0xde; }
    else if x == 0xdf { assert SboxEntry(0xdf) == 0x9e; assert InverseTableEntry(0x9e) == 0xdf; }
  }

  /** The inverse table undoes row E of SBOX. */
  lemma InvertsRowE(x: Byte)
    requires x / 16 == 14
    ensures InverseTableEntry(SboxEntry(x)) == x
  {
    if x == 0xe0 { assert SboxEntry(0xe0) == 0xe1; assert InverseTableEntry(0xe1) == 0xe0; }
    else if x == 0xe1 { assert SboxEntry(0xe1) == 0xf8; assert InverseTableEntry(0xf8) == 0xe1; }
    else if x == 0xe2 { assert SboxEntry(0xe2) == 0x98; assert InverseTableEntry(0x98) == 0xe2; }
    else if x == 0xe3 { assert SboxEntry(0xe3) == 0x11; assert InverseTableEntry(0x11) == 0xe3; }
    else if x == 0xe4 { assert SboxEntry(0xe4) == 0x69; assert InverseTableEntry(0x69) == 0xe4; }
    else if x == 0xe5 { assert SboxEntry(0xe5) == 0xd9; assert InverseTableEntry(0xd9) == 0xe5; }
    else if x == 0xe6 { assert SboxEntry(0xe6) == 0x8e; assert InverseTableEntry(0x8e) == 0xe6; }
    else if x == 0xe7 { assert SboxEntry(0xe7) == 0x94; assert InverseTableEntry(0x94) == 0xe7; }
    else if x == 0xe8 { assert SboxEntry(0xe8) == 0x9b; assert InverseTableEntry(0x9b) == 0xe8; }
    else if x == 0xe9 { assert SboxEntry(0xe9) == 0x1e; assert InverseTableEntry(0x1e) == 0xe9; }
    else if x == 0xea { assert SboxEntry(0xea) == 0x87; assert InverseTableEntry(0x87) == 0xea; }
    else if x == 0xeb { assert SboxEntry(0xeb) == 0xe9; assert InverseTableEntry(0xe9) == 0xeb; }
    else if x == 0xec { assert SboxEntry(0xec) == 0xce; assert InverseTableEntry(0xce) == 0xec; }
    else if x == 0xed { assert SboxEntry(0xed) == 0x55; assert InverseTableEntry(0x55) == 0xed; }
    else if x == 0xee { assert SboxEntry(0xee) == 0x28; assert InverseTableEntry(0x28) == 0xee; }
    else if x == 0xef { assert SboxEntry(0xef) == 0xdf; assert InverseTableEntry(0xdf) == 0xef; }
  }

  /** The inverse table undoes row F of SBOX. */
  lemma InvertsRowF(x: Byte)
    requires x / 16 == 15
    ensures InverseTableEntry(SboxEntry(x)) == x
  {
    if x == 0xf0 { assert SboxEntry(0xf0) == 0x8c; assert InverseTableEntry(0x8c) == 0xf0; }
    else if x == 0xf1 { assert SboxEntry(0xf1) == 0xa1; assert InverseTableEntry(0xa1) == 0xf1; }
    else if x == 0xf2 { assert SboxEntry(0xf2) == 0x89; assert InverseTableEntry(0x89) == 0xf2; }
    else if x == 0xf3 { assert SboxEntry(0xf3) == 0x0d; assert InverseTableEntry(0x0d) == 0xf3; }
    else if x == 0xf4 { assert SboxEntry(0xf4) == 0xbf; assert InverseTableEntry(0xbf) == 0xf4; }
    else if x == 0xf5 { assert SboxEntry(0xf5) == 0xe6; assert InverseTableEntry(0xe6) == 0xf5; }
    else if x == 0xf6 { assert SboxEntry(0xf6) == 0x42; assert InverseTableEntry(0x42) == 0xf6; }
    else if x == 0xf7 { assert SboxEntry(0xf7) == 0x68; assert InverseTableEntry(0x68) == 0xf7; }
    else if x == 0xf8 { assert SboxEntry(0xf8) == 0x41; assert InverseTableEntry(0x41) == 0xf8; }
    else if x == 0xf9 { assert SboxEntry(0xf9) == 0x99; assert InverseTableEntry(0x99) == 0xf9; }
    else if x == 0xfa { assert SboxEntry(0xfa) == 0x2d; assert InverseTableEntry(0x2d) == 0xfa; }
    else if x == 0xfb { assert SboxEntry(0xfb) == 0x0f; assert InverseTableEntry(0x0f) == 0xfb; }
    else if x == 0xfc { assert SboxEntry(0xfc) == 0xb0; assert InverseTableEntry(0xb0) == 0xfc; }
    else if x == 0xfd { assert SboxEntry(0xfd) == 0x54; assert InverseTableEntry(0x54) == 0xfd; }
    else if x == 0xfe { assert SboxEntry(0xfe) == 0xbb; assert InverseTableEntry(0xbb) == 0xfe; }
    else if x == 0xff { assert SboxEntry(0xff) == 0x16; assert InverseTableEntry(0x16) == 0xff; }
  }

  /** SBOX undoes row 0 of the inverse table. */
  lemma SboxInvertsRow0(x: Byte)
    requires x / 16 == 0
    ensures SboxEntry(InverseTableEntry(x)) == x
  {
    if x == 0x00 { assert InverseTableEntry(0x00) == 0x52; assert SboxEntry(0x52) == 0x00; }
    else if x == 0x01 { assert InverseTableEntry(0x01) == 0x09; assert SboxEntry(0x09) == 0x01; }
    else if x == 0x02 { assert InverseTableEntry(0x02) == 0x6a; assert SboxEntry(0x6a) == 0x02; }
    else if x == 0x03 { assert InverseTableEntry(0x03) == 0xd5; assert SboxEntry(0xd5) == 0x03; }
    else if x == 0x04 { assert InverseTableEntry(0x04) == 0x30; assert SboxEntry(0x30) == 0x04; }
    else if x == 0x05 { assert InverseTableEntry(0x05) == 0x36; assert SboxEntry(0x36) == 0x05; }
    else if x == 0x06 { assert InverseTableEntry(0x06) == 0xa5; assert SboxEntry(0xa5) == 0x06; }
    else if x == 0x07 { assert InverseTableEntry(0x07) == 0x38; assert SboxEntry(0x38) == 0x07; }
    else if x == 0x08 { assert InverseTableEntry(0x08) == 0xbf; assert SboxEntry(0xbf) == 0x08; }
    else if x == 0x09 { assert InverseTableEntry(0x09) == 0x40; assert SboxEntry(0x40) == 0x09; }
    else if x == 0x0a { assert InverseTableEntry(0x0a) == 0xa3; assert SboxEntry(0xa3) == 0x0a; }
    else if x == 0x0b { assert InverseTableEntry(0x0b) == 0x9e; assert SboxEntry(0x9e) == 0x0b; }
    else if x == 0x0c { assert InverseTableEntry(0x0c) == 0x81; assert SboxEntry(0x81) == 0x0c; }
    else if x == 0x0d { assert InverseTableEntry(0x0d) == 0xf3; assert SboxEntry(0xf3) == 0x0d; }
    else if x == 0x0e { assert InverseTableEntry(0x0e) == 0xd7; assert SboxEntry(0xd7) == 0x0e; }
    else if x == 0x0f { assert InverseTableEntry(0x0f) == 0xfb; assert SboxEntry(0xfb) == 0x0f; }
  }

  /** SBOX undoes row 1 of the inverse table. */
  lemma SboxInvertsRow1(x: Byte)
    requires x / 16 == 1
    ensures SboxEntry(InverseTableEntry(x)) == x
  {
    if x == 0x10 { assert InverseTableEntry(0x10) == 0x7c; assert SboxEntry(0x7c) == 0x10; }
    else if x == 0x11 { assert InverseTableEntry(0x11) == 0xe3; assert SboxEntry(0xe3) == 0x11; }
    else if x == 0x12 { assert InverseTableEntry(0x12) == 0x39; assert SboxEntry(0x39) == 0x12; }
    else if x == 0x13 { assert InverseTableEntry(0x13) == 0x82; assert SboxEntry(0x82) == 0x13; }
    else if x == 0x14 { assert InverseTableEntry(0x14) == 0x9b; assert SboxEntry(0x9b) == 0x14; }
    else if x == 0x15 { assert InverseTableEntry(0x15) == 0x2f; assert SboxEntry(0x2f) == 0x15; }
    else if x == 0x16 { assert InverseTableEntry(0x16) == 0xff; assert SboxEntry(0xff) == 0x16; }
    else if x == 0x17 { assert InverseTableEntry(0x17) == 0x87; assert SboxEntry(0x87) == 0x17; }
    else if x == 0x18 { assert InverseTableEntry(0x18) == 0x34; assert SboxEntry(0x34) == 0x18; }
    else if x == 0x19 { assert InverseTableEntry(0x19) == 0x8e; assert SboxEntry(0x8e) == 0x19; }
    else if x == 0x1a { assert InverseTableEntry(0x1a) == 0x43; assert SboxEntry(0x43) == 0x1a; }
    else if x == 0x1b { assert InverseTableEntry(0x1b) == 0x44; assert SboxEntry(0x44) == 0x1b; }
    else if x == 0x1c { assert InverseTableEntry(0x1c) == 0xc4; assert SboxEntry(0xc4) == 0x1c; }
    else if x == 0x1d { assert InverseTableEntry(0x1d) == 0xde; assert SboxEntry(0xde) == 0x1d; }
    else if x == 0x1e { assert InverseTableEntry(0x1e) == 0xe9; assert SboxEntry(0xe9) == 0x1e; }
    else if x == 0x1f { assert InverseTableEntry(0x1f) == 0xcb; assert SboxEntry(0xcb) == 0x1f; }
  }

  /** SBOX undoes row 2 of the inverse table. */
  lemma SboxInvertsRow2(x: Byte)
    requires x / 16 == 2
    ensures SboxEntry(InverseTableEntry(x)) == x
  {
    if x == 0x20 { assert InverseTableEntry(0x20) == 0x54; assert SboxEntry(0x54) == 0x20; }
    else if x == 0x21 { assert InverseTableEntry(0x21) == 0x7b; assert SboxEntry(0x7b) == 0x21; }
    else if x == 0x22 { assert InverseTableEntry(0x22) == 0x94; assert SboxEntry(0x94) == 0x22; }
    else if x == 0x23 { assert InverseTableEntry(0x23) == 0x32; assert SboxEntry(0x32) == 0x23; }
    else if x == 0x24 { assert InverseTableEntry(0x24) == 0xa6; assert SboxEntry(0xa6) == 0x24; }
    else if x == 0x25 { assert InverseTableEntry(0x25) == 0xc2; assert SboxEntry(0xc2) == 0x25; }
    else if x == 0x26 { assert InverseTableEntry(0x26) == 0x23; assert SboxEntry(0x23) == 0x26; }
    else if x == 0x27 { assert InverseTableEntry(0x27) == 0x3d; assert SboxEntry(0x3d) == 0x27; }
    else if x == 0x28 { assert InverseTableEntry(0x28) == 0xee; assert SboxEntry(0xee) == 0x28; }
    else if x == 0x29 { assert InverseTableEntry(0x29) == 0x4c; assert SboxEntry(0x4c) == 0x29; }
    else if x == 0x2a { assert InverseTableEntry(0x2a) == 0x95; assert SboxEntry(0x95) == 0x2a; }
    else if x == 0x2b { assert InverseTableEntry(0x2b) == 0x0b; assert SboxEntry(0x0b) == 0x2b; }
    else if x == 0x2c { assert InverseTableEntry(0x2c) == 0x42; assert SboxEntry(0x42) == 0x2c; }
    else if x == 0x2d { assert InverseTableEntry(0x2d) == 0xfa; assert SboxEntry(0xfa) == 0x2d; }
    else if x == 0x2e { assert InverseTableEntry(0x2e) == 0xc3; assert SboxEntry(0xc3) == 0x2e; }
    else if x == 0x2f { assert InverseTableEntry(0x2f) == 0x4e; assert SboxEntry(0x4e) == 0x2f; }
  }

  /** SBOX undoes row 3 of the inverse table. */
  lemma SboxInvertsRow3(x: Byte)
    requires x / 16 == 3
    ensures SboxEntry(InverseTableEntry(x)) == x
  {
    if x == 0x30 { assert InverseTableEntry(0x30) == 0x08; assert SboxEntry(0x08) == 0x30; }
    else if x == 0x31 { assert InverseTableEntry(0x31) == 0x2e; assert SboxEntry(0x2e) == 0x31; }
    else if x == 0x32 { assert InverseTableEntry(0x32) == 0xa1; assert SboxEntry(0xa1) == 0x32; }
    else if x == 0x33 { assert InverseTableEntry(0x33) == 0x66; assert SboxEntry(0x66) == 0x33; }
    else if x == 0x34 { assert InverseTableEntry(0x34) == 0x28; assert SboxEntry(0x28) == 0x34; }
    else if x == 0x35 { assert InverseTableEntry(0x35) == 0xd9; assert SboxEntry(0xd9) == 0x35; }
    else if x == 0x36 { assert InverseTableEntry(0x36) == 0x24; assert SboxEntry(0x24) == 0x36; }
    else if x == 0x37 { assert InverseTableEntry(0x37) == 0xb2; assert SboxEntry(0xb2) == 0x37; }
    else if x == 0x38 { assert InverseTableEntry(0x38) == 0x76; assert SboxEntry(0x76) == 0x38; }
    else if x == 0x39 { assert InverseTableEntry(0x39) == 0x5b; assert SboxEntry(0x5b) == 0x39; }
    else if x == 0x3a { assert InverseTableEntry(0x3a) == 0xa2; assert SboxEntry(0xa2) == 0x3a; }
    else if x == 0x3b { assert InverseTableEntry(0x3b) == 0x49; assert SboxEntry(0x49) == 0x3b; }
    else if x == 0x3c { assert InverseTableEntry(0x3c) == 0x6d; assert SboxEntry(0x6d) == 0x3c; }
    else if x == 0x3d { assert InverseTableEntry(0x3d) == 0x8b; assert SboxEntry(0x8b) == 0x3d; }
    else if x == 0x3e { assert InverseTableEntry(0x3e) == 0xd1; assert SboxEntry(0xd1) == 0x3e; }
    else if x == 0x3f { assert InverseTableEntry(0x3f) == 0x25; assert SboxEntry(0x25) == 0x3f; }
  }

  /** SBOX undoes row 4 of the inverse table. */
  lemma SboxInvertsRow4(x: Byte)
    requires x / 16 == 4
    ensures SboxEntry(InverseTableEntry(x)) == x
  {
    if x == 0x40 { assert InverseTableEntry(0x40) == 0x72; assert SboxEntry(0x72) == 0x40; }
    else if x == 0x41 { assert InverseTableEntry(0x41) == 0xf8; assert SboxEntry(0xf8) == 0x41; }
    else if x == 0x42 { assert InverseTableEntry(0x42) == 0xf6; assert SboxEntry(0xf6) == 0x42; }
    else if x == 0x43 { assert InverseTableEntry(0x43) == 0x64; assert SboxEntry(0x64) == 0x43; }
    else if x == 0x44 { assert InverseTableEntry(0x44) == 0x86; assert SboxEntry(0x86) == 0x44; }
    else if x == 0x45 { assert InverseTableEntry(0x45) == 0x68; assert SboxEntry(0x68) == 0x45; }
    else if x == 0x46 { assert InverseTableEntry(0x46) == 0x98; assert SboxEntry(0x98) == 0x46; }
    else if x == 0x47 { assert InverseTableEntry(0x47) == 0x16; assert SboxEntry(0x16) == 0x47; }
    else if x == 0x48 { assert InverseTableEntry(0x48) == 0xd4; assert SboxEntry(0xd4) == 0x48; }
    else if x == 0x49 { assert InverseTableEntry(0x49) == 0xa4; assert SboxEntry(0xa4) == 0x49; }
    else if x == 0x4a { assert InverseTableEntry(0x4a) == 0x5c; assert SboxEntry(0x5c) == 0x4a; }
    else if x == 0x4b { assert InverseTableEntry(0x4b) == 0xcc; assert SboxEntry(0xcc) == 0x4b; }
    else if x == 0x4c { assert InverseTableEntry(0x4c) == 0x5d; assert SboxEntry(0x5d) == 0x4c; }
    else if x == 0x4d { assert InverseTableEntry(0x4d) == 0x65; assert SboxEntry(0x65) == 0x4d; }
    else if x == 0x4e { assert InverseTableEntry(0x4e) == 0xb6; assert SboxEntry(0xb6) == 0x4e; }
    else if x == 0x4f { assert InverseTableEntry(0x4f) == 0x92; assert SboxEntry(0x92) == 0x4f; }
  }

  /** SBOX undoes row 5 of the inverse table. */
  lemma SboxInvertsRow5(x: Byte)
    requires x / 16 == 5
    ensures SboxEntry(InverseTableEntry(x)) == x
  {
    if x == 0x50 { assert InverseTableEntry(0x50) == 0x6c; assert SboxEntry(0x6c) == 0x50; }
    else if x == 0x51 { assert InverseTableEntry(0x51) == 0x70; assert SboxEntry(0x70) == 0x51; }
    else if x == 0x52 { assert InverseTableEntry(0x52) == 0x48; assert SboxEntry(0x48) == 0x52; }
    else if x == 0x53 { assert InverseTableEntry(0x53) == 0x50; assert SboxEntry(0x50) == 0x53; }
    else if x == 0x54 { assert InverseTableEntry(0x54) == 0xfd; assert SboxEntry(0xfd) == 0x54; }
    else if x == 0x55 { assert InverseTableEntry(0x55) == 0xed; assert SboxEntry(0xed) == 0x55; }
    else if x == 0x56 { assert InverseTableEntry(0x56) == 0xb9; assert SboxEntry(0xb9) == 0x56; }
    else if x == 0x57 { assert InverseTableEntry(0x57) == 0xda; assert SboxEntry(0xda) == 0x57; }
    else if x == 0x58 { assert InverseTableEntry(0x58) == 0x5e; assert SboxEntry(0x5e) == 0x58; }
    else if x == 0x59 { assert InverseTableEntry(0x59) == 0x15; assert SboxEntry(0x15) == 0x59; }
    else if x == 0x5a { assert InverseTableEntry(0x5a) == 0x46; assert SboxEntry(0x46) == 0x5a; }
    else if x == 0x5b { assert InverseTableEntry(0x5b) == 0x57; assert SboxEntry(0x57) == 0x5b; }
    else if x == 0x5c { assert InverseTableEntry(0x5c) == 0xa7; assert SboxEntry(0xa7) == 0x5c; }
    else if x == 0x5d { assert InverseTableEntry(0x5d) == 0x8d; assert SboxEntry(0x8d) == 0x5d; }
    else if x == 0x5e { assert InverseTableEntry(0x5e) == 0x9d; assert SboxEntry(0x9d) == 0x5e; }
    else if x == 0x5f { assert InverseTableEntry(0x5f) == 0x84; assert SboxEntry(0x84) == 0x5f; }
  }

  /** SBOX undoes row 6 of the inverse table. */
  lemma SboxInvertsRow6(x: Byte)
    requires x / 16 == 6
    ensures SboxEntry(InverseTableEntry(x)) == x
  {
    if x == 0x60 { assert InverseTableEntry(0x60) == 0x90; assert SboxEntry(0x90) == 0x60; }
    else if x == 0x61 { assert InverseTableEntry(0x61) == 0xd8; assert SboxEntry(0xd8) == 0x61; }
    else if x == 0x62 { assert InverseTableEntry(0x62) == 0xab; assert SboxEntry(0xab) == 0x62; }
    else if x == 0x63 { assert InverseTableEntry(0x63) == 0x00; assert SboxEntry(0x00) == 0x63; }
    else if x == 0x64 { assert InverseTableEntry(0x64) == 0x8c; assert SboxEntry(0x8c) == 0x64; }
    else if x == 0x65 { assert InverseTableEntry(0x65) == 0xbc; assert SboxEntry(0xbc) == 0x65; }
    else if x == 0x66 { assert InverseTableEntry(0x66) == 0xd3; assert SboxEntry(0xd3) == 0x66; }
    else if x == 0x67 { assert InverseTableEntry(0x67) == 0x0a; assert SboxEntry(0x0a) == 0x67; }
    else if x == 0x68 { assert InverseTableEntry(0x68) == 0xf7; assert SboxEntry(0xf7) == 0x68; }
    else if x == 0x69 { assert InverseTableEntry(0x69) == 0xe4; assert SboxEntry(0xe4) == 0x69; }
    else if x == 0x6a { assert InverseTableEntry(0x6a) == 0x58; assert SboxEntry(0x58) == 0x6a; }
    else if x == 0x6b { assert InverseTableEntry(0x6b) == 0x05; assert SboxEntry(0x05) == 0x6b; }
    else if x == 0x6c { assert InverseTableEntry(0x6c) == 0xb8; assert SboxEntry(0xb8) == 0x6c; }
    else if x == 0x6d { assert InverseTableEntry(0x6d) == 0xb3; assert SboxEntry(0xb3) == 0x6d; }
    else if x == 0x6e { assert InverseTableEntry(0x6e) == 0x45; assert SboxEntry(0x45) == 0x6e; }
    else if x == 0x6f { assert InverseTableEntry(0x6f) == 0x06; assert SboxEntry(0x06) == 0x6f; }
  }

  /** SBOX undoes row 7 of the inverse table. */
  lemma SboxInvertsRow7(x: Byte)
    requires x / 16 == 7
    ensures SboxEntry(InverseTableEntry(x)) == x
  {
    if x == 0x70 { assert InverseTableEntry(0x70) == 0xd0; assert SboxEntry(0xd0) == 0x70; }
    else if x == 0x71 { assert InverseTableEntry(0x71) == 0x2c; assert SboxEntry(0x2c) == 0x71; }
    else if x == 0x72 { assert InverseTableEntry(0x72) == 0x1e; assert SboxEntry(0x1e) == 0x72; }
    else if x == 0x73 { assert InverseTableEntry(0x73) == 0x8f; assert SboxEntry(0x8f) == 0x73; }
    else if x == 0x74 { assert InverseTableEntry(0x74) == 0xca; assert SboxEntry(0xca) == 0x74; }
    else if x == 0x75 { assert InverseTableEntry(0x75) == 0x3f; assert SboxEntry(0x3f) == 0x75; }
    else if x == 0x76 { assert InverseTableEntry(0x76) == 0x0f; assert SboxEntry(0x0f) == 0x76; }
    else if x == 0x77 { assert InverseTableEntry(0x77) == 0x02; assert SboxEntry(0x02) == 0x77; }
    else if x == 0x78 { assert InverseTableEntry(0x78) == 0xc1; assert SboxEntry(0xc1) == 0x78; }
    else if x == 0x79 { assert InverseTableEntry(0x79) == 0xaf; assert SboxEntry(0xaf) == 0x79; }
    else if x == 0x7a { assert InverseTableEntry(0x7a) == 0xbd; assert SboxEntry(0xbd) == 0x7a; }
    else if x == 0x7b { assert InverseTableEntry(0x7b) == 0x03; assert SboxEntry(0x03) == 0x7b; }
    else if x == 0x7c { assert InverseTableEntry(0x7c) == 0x01; assert SboxEntry(0x01) == 0x7c; }
    else if x == 0x7d { assert InverseTableEntry(0x7d) == 0x13; assert SboxEntry(0x13) == 0x7d; }
    else if x == 0x7e { assert InverseTableEntry(0x7e) == 0x8a; assert SboxEntry(0x8a) == 0x7e; }
    else if x == 0x7f { assert InverseTableEntry(0x7f) == 0x6b; assert SboxEntry(0x6b) == 0x7f; }
  }

  /** SBOX undoes row 8 of the inverse table. */
  lemma SboxInvertsRow8(x: Byte)
    requires x / 16 == 8
    ensures SboxEntry(InverseTableEntry(x)) == x
  {
    if x == 0x80 { assert InverseTableEntry(0x80) == 0x3a; assert SboxEntry(0x3a) == 0x80; }
    else if x == 0x81 { assert InverseTableEntry(0x81) == 0x91; assert SboxEntry(0x91) == 0x81; }
    else if x == 0x82 { assert InverseTableEntry(0x82) == 0x11; assert SboxEntry(0x11) == 0x82; }
    else if x == 0x83 { assert InverseTableEntry(0x83) == 0x41; assert SboxEntry(0x41) == 0x83; }
    else if x == 0x84 { assert InverseTableEntry(0x84) == 0x4f; assert SboxEntry(0x4f) == 0x84; }
    else if x == 0x85 { assert InverseTableEntry(0x85) == 0x67; assert SboxEntry(0x67) == 0x85; }
    else if x == 0x86 { assert InverseTableEntry(0x86) == 0xdc; assert SboxEntry(0xdc) == 0x86; }
    else if x == 0x87 { assert InverseTableEntry(0x87) == 0xea; assert SboxEntry(0xea) == 0x87; }
    else if x == 0x88 { assert InverseTableEntry(0x88) == 0x97; assert SboxEntry(0x97) == 0x88; }
    else if x == 0x89 { assert InverseTableEntry(0x89) == 0xf2; assert SboxEntry(0xf2) == 0x89; }
    else if x == 0x8a { assert InverseTableEntry(0x8a) == 0xcf; assert SboxEntry(0xcf) == 0x8a; }
    else if x == 0x8b { assert InverseTableEntry(0x8b) == 0xce; assert SboxEntry(0xce) == 0x8b; }
    else if x == 0x8c { assert InverseTableEntry(0x8c) == 0xf0; assert SboxEntry(0xf0) == 0x8c; }
    else if x == 0x8d { assert InverseTableEntry(0x8d) == 0xb4; assert SboxEntry(0xb4) == 0x8d; }
    else if x == 0x8e { assert InverseTableEntry(0x8e) == 0xe6; assert SboxEntry(0xe6) == 0x8e; }
    else if x == 0x8f { assert InverseTableEntry(0x8f) == 0x73; assert SboxEntry(0x73) == 0x8f; }
  }

  /** SBOX undoes row 9 of the inverse table. */
  lemma SboxInvertsRow9(x: Byte)
    requires x / 16 == 9
    ensures SboxEntry(InverseTableEntry(x)) == x
  {
    if x == 0x90 { assert InverseTableEntry(0x90) == 0x96; assert SboxEntry(0x96) == 0x90; }
    else if x == 0x91 { assert InverseTableEntry(0x91) == 0xac; assert SboxEntry(0xac) == 0x91; }
    else if x == 0x92 { assert InverseTableEntry(0x92) == 0x74; assert SboxEntry(0x74) == 0x92; }
    else if x == 0x93 { assert InverseTableEntry(0x93) == 0x22; assert SboxEntry(0x22) == 0x93; }
    else if x == 0x94 { assert InverseTableEntry(0x94) == 0xe7; assert SboxEntry(0xe7) == 0x94; }
    else if x == 0x95 { assert InverseTableEntry(0x95) == 0xad; assert SboxEntry(0xad) == 0x95; }
    else if x == 0x96 { assert InverseTableEntry(0x96) == 0x35; assert SboxEntry(0x35) == 0x96; }
    else if x == 0x97 { assert InverseTableEntry(0x97) == 0x85; assert SboxEntry(0x85) == 0x97; }
    else if x == 0x98 { assert InverseTableEntry(0x98) == 0xe2; assert SboxEntry(0xe2) == 0x98; }
    else if x == 0x99 { assert InverseTableEntry(0x99) == 0xf9; assert SboxEntry(0xf9) == 0x99; }
    else if x == 0x9a { assert InverseTableEntry(0x9a) == 0x37; assert SboxEntry(0x37) == 0x9a; }
    else if x == 0x9b { assert InverseTableEntry(0x9b) == 0xe8; assert SboxEntry(0xe8) == 0x9b; }
    else if x == 0x9c { assert InverseTableEntry(0x9c) == 0x1c; assert SboxEntry(0x1c) == 0x9c; }
    else if x == 0x9d { assert InverseTableEntry(0x9d) == 0x75; assert SboxEntry(0x75) == 0x9d; }
    else if x == 0x9e { assert InverseTableEntry(0x9e) == 0xdf; assert SboxEntry(0xdf) == 0x9e; }
    else if x == 0x9f { assert InverseTableEntry(0x9f) == 0x6e; assert SboxEntry(0x6e) == 0x9f; }
  }

  /** SBOX undoes row A of the inverse table. */
  lemma SboxInvertsRowA(x: Byte)
    requires x / 16 == 10
    ensures SboxEntry(InverseTableEntry(x)) == x
  {
    if x == 0xa0 { assert InverseTableEntry(0xa0) == 0x47; assert SboxEntry(0x47) == 0xa0; }
    else if x == 0xa1 { assert InverseTableEntry(0xa1) == 0xf1; assert SboxEntry(0xf1) == 0xa1; }
    else if x == 0xa2 { assert InverseTableEntry(0xa2) == 0x1a; assert SboxEntry(0x1a) == 0xa2; }
    else if x == 0xa3 { assert InverseTableEntry(0xa3) == 0x71; assert SboxEntry(0x71) == 0xa3; }
    else if x == 0xa4 { assert InverseTableEntry(0xa4) == 0x1d; assert SboxEntry(0x1d) == 0xa4; }
    else if x == 0xa5 { assert InverseTableEntry(0xa5) == 0x29; assert SboxEntry(0x29) == 0xa5; }
    else if x == 0xa6 { assert InverseTableEntry(0xa6) == 0xc5; assert SboxEntry(0xc5) == 0xa6; }
    else if x == 0xa7 { assert InverseTableEntry(0xa7) == 0x89; assert SboxEntry(0x89) == 0xa7; }
    else if x == 0xa8 { assert InverseTableEntry(0xa8) == 0x6f; assert SboxEntry(0x6f) == 0xa8; }
    else if x == 0xa9 { assert InverseTableEntry(0xa9) == 0xb7; assert SboxEntry(0xb7) == 0xa9; }
    else if x == 0xaa { assert InverseTableEntry(0xaa) == 0x62; assert SboxEntry(0x62) == 0xaa; }
    else if x == 0xab { assert InverseTableEntry(0xab) == 0x0e; assert SboxEntry(0x0e) == 0xab; }
    else if x == 0xac { assert InverseTableEntry(0xac) == 0xaa; assert SboxEntry(0xaa) == 0xac; }
    else if x == 0xad { assert InverseTableEntry(0xad) == 0x18; assert SboxEntry(0x18) == 0xad; }
    else if x == 0xae { assert InverseTableEntry(0xae) == 0xbe; assert SboxEntry(0xbe) == 0xae; }
    else if x == 0xaf { assert InverseTableEntry(0xaf) == 0x1b; assert SboxEntry(0x1b) == 0xaf; }
  }

  /** SBOX undoes row B of the inverse table. */
  lemma SboxInvertsRowB(x: Byte)
    requires x / 16 == 11
    ensures SboxEntry(InverseTableEntry(x)) == x
  {
    if x == 0xb0 { assert InverseTableEntry(0xb0) == 0xfc; assert SboxEntry(0xfc) == 0xb0; }
    else if x == 0xb1 { assert InverseTableEntry(0xb1) == 0x56; assert SboxEntry(0x56) == 0xb1; }
    else if x == 0xb2 { assert InverseTableEntry(0xb2) == 0x3e; assert SboxEntry(0x3e) == 0xb2; }
    else if x == 0xb3 { assert InverseTableEntry(0xb3) == 0x4b; assert SboxEntry(0x4b) == 0xb3; }
    else if x == 0xb4 { assert InverseTableEntry(0xb4) == 0xc6; assert SboxEntry(0xc6) == 0xb4; }
    else if x == 0xb5 { assert InverseTableEntry(0xb5) == 0xd2; assert SboxEntry(0xd2) == 0xb5; }
    else if x == 0xb6 { assert InverseTableEntry(0xb6) == 0x79; assert SboxEntry(0x79) == 0xb6; }
    else if x == 0xb7 { assert InverseTableEntry(0xb7) == 0x20; assert SboxEntry(0x20) == 0xb7; }
    else if x == 0xb8 { assert InverseTableEntry(0xb8) == 0x9a; assert SboxEntry(0x9a) == 0xb8; }
    else if x == 0xb9 { assert InverseTableEntry(0xb9) == 0xdb; assert SboxEntry(0xdb) == 0xb9; }
    else if x == 0xba { assert InverseTableEntry(0xba) == 0xc0; assert SboxEntry(0xc0) == 0xba; }
    else if x == 0xbb { assert InverseTableEntry(0xbb) == 0xfe; assert SboxEntry(0xfe) == 0xbb; }
    else if x == 0xbc { assert InverseTableEntry(0xbc) == 0x78; assert SboxEntry(0x78) == 0xbc; }
    else if x == 0xbd { assert InverseTableEntry(0xbd) == 0xcd; assert SboxEntry(0xcd) == 0xbd; }
    else if x == 0xbe { assert InverseTableEntry(0xbe) == 0x5a; assert SboxEntry(0x5a) == 0xbe; }
    else if x == 0xbf { assert InverseTableEntry(0xbf) == 0xf4; assert SboxEntry(0xf4) == 0xbf; }
  }

  /** SBOX undoes row C of the inverse table. */
  lemma SboxInvertsRowC(x: Byte)
    requires x / 16 == 12
    ensures SboxEntry(InverseTableEntry(x)) == x
  {
    if x == 0xc0 { assert InverseTableEntry(0xc0) == 0x1f; assert SboxEntry(0x1f) == 0xc0; }
    else if x == 0xc1 { assert InverseTableEntry(0xc1) == 0xdd; assert SboxEntry(0xdd) == 0xc1; }
    else if x == 0xc2 { assert InverseTableEntry(0xc2) == 0xa8; assert SboxEntry(0xa8) == 0xc2; }
    else if x == 0xc3 { assert InverseTableEntry(0xc3) == 0x33; assert SboxEntry(0x33) == 0xc3; }
    else if x == 0xc4 { assert InverseTableEntry(0xc4) == 0x88; assert SboxEntry(0x88) == 0xc4; }
    else if x == 0xc5 { assert InverseTableEntry(0xc5) == 0x07; assert SboxEntry(0x07) == 0xc5; }
    else if x == 0xc6 { assert InverseTableEntry(0xc6) == 0xc7; assert SboxEntry(0xc7) == 0xc6; }
    else if x == 0xc7 { assert InverseTableEntry(0xc7) == 0x31; assert SboxEntry(0x31) == 0xc7; }
    else if x == 0xc8 { assert InverseTableEntry(0xc8) == 0xb1; assert SboxEntry(0xb1) == 0xc8; }
    else if x == 0xc9 { assert InverseTableEntry(0xc9) == 0x12; assert SboxEntry(0x12) == 0xc9; }
    else if x == 0xca { assert InverseTableEntry(0xca) == 0x10; assert SboxEntry(0x10) == 0xca; }
    else if x == 0xcb { assert InverseTableEntry(0xcb) == 0x59; assert SboxEntry(0x59) == 0xcb; }
    else if x == 0xcc { assert InverseTableEntry(0xcc) == 0x27; assert SboxEntry(0x27) == 0xcc; }
    else if x == 0xcd { assert InverseTableEntry(0xcd) == 0x80; assert SboxEntry(0x80) == 0xcd; }
    else if x == 0xce { assert InverseTableEntry(0xce) == 0xec; assert SboxEntry(0xec) == 0xce; }
    else if x == 0xcf { assert InverseTableEntry(0xcf) == 0x5f; assert SboxEntry(0x5f) == 0xcf; }
  }

  /** SBOX undoes row D of the inverse table. */
  lemma SboxInvertsRowD(x: Byte)
    requires x / 16 == 13
    ensures SboxEntry(InverseTableEntry(x)) == x
  {
    if x == 0xd0 { assert InverseTableEntry(0xd0) == 0x60; assert SboxEntry(0x60) == 0xd0; }
    else if x == 0xd1 { assert InverseTableEntry(0xd1) == 0x51; assert SboxEntry(0x51) == 0xd1; }
    else if x == 0xd2 { assert InverseTableEntry(0xd2) == 0x7f; assert SboxEntry(0x7f) == 0xd2; }
    else if x == 0xd3 { assert InverseTableEntry(0xd3) == 0xa9; assert SboxEntry(0xa9) == 0xd3; }
    else if x == 0xd4 { assert InverseTableEntry(0xd4) == 0x19; assert SboxEntry(0x19) == 0xd4; }
    else if x == 0xd5 { assert InverseTableEntry(0xd5) == 0xb5; assert SboxEntry(0xb5) == 0xd5; }
    else if x == 0xd6 { assert InverseTableEntry(0xd6) == 0x4a; assert SboxEntry(0x4a) == 0xd6; }
    else if x == 0xd7 { assert InverseTableEntry(0xd7) == 0x0d; assert SboxEntry(0x0d) == 0xd7; }
    else if x == 0xd8 { assert InverseTableEntry(0xd8) == 0x2d; assert SboxEntry(0x2d) == 0xd8; }
    else if x == 0xd9 { assert InverseTableEntry(0xd9) == 0xe5; assert SboxEntry(0xe5) == 0xd9; }
    else if x == 0xda { assert InverseTableEntry(0xda) == 0x7a; assert SboxEntry(0x7a) == 0xda; }
    else if x == 0xdb { assert InverseTableEntry(0xdb) == 0x9f; assert SboxEntry(0x9f) == 0xdb; }
    else if x == 0xdc { assert InverseTableEntry(0xdc) == 0x93; assert SboxEntry(0x93) == 0xdc; }
    else if x == 0xdd { assert InverseTableEntry(0xdd) == 0xc9; assert SboxEntry(0xc9) == 0xdd; }
    else if x == 0xde { assert InverseTableEntry(0xde) == 0x9c; assert SboxEntry(0x9c) == 0xde; }
    else if x == 0xdf { assert InverseTableEntry(0xdf) == 0xef; assert SboxEntry(0xef) == 0xdf; }
  }

  /** SBOX undoes row E of the inverse table. */
  lemma SboxInvertsRowE(x: Byte)
    requires x / 16 == 14
    ensures SboxEntry(InverseTableEntry(x)) == x
  {
    if x == 0xe0 { assert InverseTableEntry(0xe0) == 0xa0; assert SboxEntry(0xa0) == 0xe0; }
    else if x == 0xe1 { assert InverseTableEntry(0xe1) == 0xe0; assert SboxEntry(0xe0) == 0xe1; }
    else if x == 0xe2 { assert InverseTableEntry(0xe2) == 0x3b; assert SboxEntry(0x3b) == 0xe2; }
    else if x == 0xe3 { assert InverseTableEntry(0xe3) == 0x4d; assert SboxEntry(0x4d) == 0xe3; }
    else if x == 0xe4 { assert InverseTableEntry(0xe4) == 0xae; assert SboxEntry(0xae) == 0xe4; }
    else if x == 0xe5 { assert InverseTableEntry(0xe5) == 0x2a; assert SboxEntry(0x2a) == 0xe5; }
    else if x == 0xe6 { assert InverseTableEntry(0xe6) == 0xf5; assert SboxEntry(0xf5) == 0xe6; }
    else if x == 0xe7 { assert InverseTableEntry(0xe7) == 0xb0; assert SboxEntry(0xb0) == 0xe7; }
    else if x == 0xe8 { assert InverseTableEntry(0xe8) == 0xc8; assert SboxEntry(0xc8) == 0xe8; }
    else if x == 0xe9 { assert InverseTableEntry(0xe9) == 0xeb; assert SboxEntry(0xeb) == 0xe9; }
    else if x == 0xea { assert InverseTableEntry(0xea) == 0xbb; assert SboxEntry(0xbb) == 0xea; }
    else if x == 0xeb { assert InverseTableEntry(0xeb) == 0x3c; assert SboxEntry(0x3c) == 0xeb; }
    else if x == 0xec { assert InverseTableEntry(0xec) == 0x83; assert SboxEntry(0x83) == 0xec; }
    else if x == 0xed { assert InverseTableEntry(0xed) == 0x53; assert SboxEntry(0x53) == 0xed; }
    else if x == 0xee { assert InverseTableEntry(0xee) == 0x99; assert SboxEntry(0x99) == 0xee; }
    else if x == 0xef { assert InverseTableEntry(0xef) == 0x61; assert SboxEntry(0x61) == 0xef; }
  }

  /** SBOX undoes row F of the inverse table. */
  lemma SboxInvertsRowF(x: Byte)
    requires x / 16 == 15
    ensures SboxEntry(InverseTableEntry(x)) == x
  {
    if x == 0xf0 { assert InverseTableEntry(0xf0) == 0x17; assert SboxEntry(0x17) == 0xf0; }
    else if x == 0xf1 { assert InverseTableEntry(0xf1) == 0x2b; assert SboxEntry(0x2b) == 0xf1; }
    else if x == 0xf2 { assert InverseTableEntry(0xf2) == 0x04; assert SboxEntry(0x04) == 0xf2; }
    else if x == 0xf3 { assert InverseTableEntry(0xf3) == 0x7e; assert SboxEntry(0x7e) == 0xf3; }
    else if x == 0xf4 { assert InverseTableEntry(0xf4) == 0xba; assert SboxEntry(0xba) == 0xf4; }
    else if x == 0xf5 { assert InverseTableEntry(0xf5) == 0x77; assert SboxEntry(0x77) == 0xf5; }
    else if x == 0xf6 { assert InverseTableEntry(0xf6) == 0xd6; assert SboxEntry(0xd6) == 0xf6; }
    else if x == 0xf7 { assert InverseTableEntry(0xf7) == 0x26; assert SboxEntry(0x26) == 0xf7; }
    else if x == 0xf8 { assert InverseTableEntry(0xf8) == 0xe1; assert SboxEntry(0xe1) == 0xf8; }
    else if x == 0xf9 { assert InverseTableEntry(0xf9) == 0x69; assert SboxEntry(0x69) == 0xf9; }
    else if x == 0xfa { assert InverseTableEntry(0xfa) == 0x14; assert SboxEntry(0x14) == 0xfa; }
    else if x == 0xfb { assert InverseTableEntry(0xfb) == 0x63; assert SboxEntry(0x63) == 0xfb; }
    else if x == 0xfc { assert InverseTableEntry(0xfc) == 0x55; assert SboxEntry(0x55) == 0xfc; }
    else if x == 0xfd { assert InverseTableEntry(0xfd) == 0x21; assert SboxEntry(0x21) == 0xfd; }
    else if x == 0xfe { assert InverseTableEntry(0xfe) == 0x0c; assert SboxEntry(0x0c) == 0xfe; }
    else if x == 0xff { assert InverseTableEntry(0xff) == 0x7d; assert SboxEntry(0x7d) == 0xff; }
  }
}
