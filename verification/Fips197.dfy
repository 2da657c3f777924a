// The AES-128 block cipher as FIPS-197 defines it, and its inverse: the reference that the
// in-place code of Aes.dfy is proved against.

module Fips197 {
  import opened SubstitutionBox
  import opened GaloisField
  import opened MixColumn

  const ZERO_BYTES: seq<bv8> := [0, 0, 0, 0, 0, 0, 0, 0, 0, 0, 0, 0, 0, 0, 0, 0]

  // Sixteen bytes in column-major order: the byte of row r and column c is at 4 * c + r.
  type Block = s: seq<bv8> | |s| == 16 witness ZERO_BYTES

  function AddRoundKey(s: Block, k: Block): Block {
    seq(16, i requires 0 <= i < 16 => Xor(s[i], k[i]))
  }

  function SubBytes(s: Block): Block {
    seq(16, i requires 0 <= i < 16 => SBox(s[i]))
  }

  function InvSubBytes(s: Block): Block {
    seq(16, i requires 0 <= i < 16 => InvSBox(s[i]))
  }

  // Row r moves r columns to the left.
  function ShiftRows(s: Block): Block {
    seq(16, i requires 0 <= i < 16 => s[(i + 4 * (i % 4)) % 16])
  }

  // Row r moves r columns to the right.
  function InvShiftRows(s: Block): Block {
    seq(16, i requires 0 <= i < 16 => s[(i - 4 * (i % 4)) % 16])
  }

  // Every column is multiplied by the matrix `m`.
  function TimesMatrix(m: Circulant, s: Block): Block {
    seq(16, i requires 0 <= i < 16 => MixedByte(m, s, i))
  }

  function MixedByte(m: Circulant, s: Block, i: nat): bv8
    requires i < 16
  {
    RowTimes(m, s[i], s[InColumn(i, 1)], s[InColumn(i, 2)], s[InColumn(i, 3)])
  }

  function MixColumns(s: Block): Block {
    TimesMatrix(FORWARD, s)
  }

  function InvMixColumns(s: Block): Block {
    TimesMatrix(BACKWARD, s)
  }

  // Section 5.2: the key schedule as 44 words.

  type Word = s: seq<bv8> | |s| == 4 witness [0, 0, 0, 0]

  function XorWord(a: Word, b: Word): Word {
    [Xor(a[0], b[0]), Xor(a[1], b[1]), Xor(a[2], b[2]), Xor(a[3], b[3])]
  }

  function SubWord(a: Word): Word {
    [SBox(a[0]), SBox(a[1]), SBox(a[2]), SBox(a[3])]
  }

  function RotWord(a: Word): Word {
    [a[1], a[2], a[3], a[0]]
  }

  // x to the power i - 1.
  function RoundConstant(i: nat): bv8
    requires i > 0
  {
    if i == 1 then 1 else XTime(RoundConstant(i - 1))
  }

  function KeyWord(key: Block, i: nat): Word {
    if i < 4 then
      key[4 * i..4 * i + 4]
    else
      var before := KeyWord(key, i - 1);
      var temp := if i % 4 == 0 then XorWord(SubWord(RotWord(before)), [RoundConstant(i / 4), 0, 0, 0]) else before;
      XorWord(KeyWord(key, i - 4), temp)
  }

  function RoundKey(key: Block, r: nat): Block {
    KeyWord(key, 4 * r) + KeyWord(key, 4 * r + 1) + KeyWord(key, 4 * r + 2) + KeyWord(key, 4 * r + 3)
  }

  type KeySchedule = w: seq<Block> | |w| == 11 witness seq(11, r => ZERO_BYTES)

  function KeyExpansion(key: Block): KeySchedule {
    seq(11, r requires 0 <= r < 11 => RoundKey(key, r))
  }

  // Section 5.1: the state after round `r`, for r < 10.
  function Rounds(w: KeySchedule, s: Block, r: nat): Block
    requires r < 10
  {
    if r == 0 then AddRoundKey(s, w[0])
    else AddRoundKey(MixColumns(ShiftRows(SubBytes(Rounds(w, s, r - 1)))), w[r])
  }

  function Cipher(w: KeySchedule, s: Block): Block {
    AddRoundKey(ShiftRows(SubBytes(Rounds(w, s, 9))), w[10])
  }

  // Section 5.3: the state after the `n`th round of decryption, for n < 10.
  function InvRounds(w: KeySchedule, s: Block, n: nat): Block
    requires n < 10
  {
    if n == 0 then AddRoundKey(s, w[10])
    else InvMixColumns(AddRoundKey(InvSubBytes(InvShiftRows(InvRounds(w, s, n - 1))), w[10 - n]))
  }

  function InvCipher(w: KeySchedule, s: Block): Block {
    AddRoundKey(InvSubBytes(InvShiftRows(InvRounds(w, s, 9))), w[0])
  }

  lemma AddRoundKeyTwice(s: Block, k: Block)
    ensures AddRoundKey(AddRoundKey(s, k), k) == s
  {
    hide Xor;
    forall i | 0 <= i < 16
      ensures AddRoundKey(AddRoundKey(s, k), k)[i] == s[i]
    {
      XorTwice(s[i], k[i]);
    }
  }

  lemma SubBytesInverse(s: Block)
    ensures InvSubBytes(SubBytes(s)) == s
    ensures SubBytes(InvSubBytes(s)) == s
  {
    hide SBox, InvSBox;
    forall i | 0 <= i < 16
      ensures InvSubBytes(SubBytes(s))[i] == s[i] && SubBytes(InvSubBytes(s))[i] == s[i]
    {
      LeftInverse(s[i]);
      RightInverse(s[i]);
    }
  }

  lemma LeftThenRight(i: nat)
    requires i < 16
    ensures var j := (i - 4 * (i % 4)) % 16; (j + 4 * (j % 4)) % 16 == i
  {
    var q, r := i / 4, i % 4;
    var p := if q < r then q - r + 4 else q - r;
    Modulo(4 * p + r, i - 4 * r);
    Modulo(i, 4 * p + 5 * r);
    RowOf(p, r);
  }

  lemma Modulo(x: nat, y: int)
    requires x < 16 && (y == x - 16 || y == x || y == x + 16)
    ensures y % 16 == x
  {
  }

  lemma RowOf(p: nat, r: nat)
    requires r < 4
    ensures (4 * p + r) % 4 == r
  {
  }

  lemma RightThenLeft(i: nat)
    requires i < 16
    ensures var j := (i + 4 * (i % 4)) % 16; (j - 4 * (j % 4)) % 16 == i
  {
    var q, r := i / 4, i % 4;
    var p := if q + r < 4 then q + r else q + r - 4;
    Modulo(4 * p + r, i + 4 * r);
    Modulo(i, 4 * p - 3 * r);
    RowOf(p, r);
  }

  lemma ShiftRowsInverse(s: Block)
    ensures InvShiftRows(ShiftRows(s)) == s
    ensures ShiftRows(InvShiftRows(s)) == s
  {
    forall i | 0 <= i < 16
      ensures InvShiftRows(ShiftRows(s))[i] == s[i] && ShiftRows(InvShiftRows(s))[i] == s[i]
    {
      LeftThenRight(i);
      RightThenLeft(i);
    }
  }

  // The entry of i's column that is k rows further down, wrapping around.
  function InColumn(i: nat, k: nat): (j: nat)
    requires i < 16
    ensures j < 16
  {
    i - i % 4 + (i + k) % 4
  }

  lemma InColumnAdds(i: nat, k: nat, l: nat)
    requires i < 16
    ensures InColumn(InColumn(i, k), l) == InColumn(i, k + l)
    ensures InColumn(i, 0) == i
    ensures InColumn(i, k + 4) == InColumn(i, k)
  {
    var j := InColumn(i, k);
    assert i - i % 4 == 4 * (i / 4);
    assert j == 4 * (i / 4) + (i + k) % 4;
    assert j % 4 == (i + k) % 4;
    assert (j + l) % 4 == (i + k + l) % 4;
    assert j - j % 4 == i - i % 4;
  }

  lemma Neighbours(i: nat)
    requires i < 16
    ensures var j := InColumn(i, 1); InColumn(j, 1) == InColumn(i, 2) && InColumn(j, 2) == InColumn(i, 3) && InColumn(j, 3) == i
    ensures var j := InColumn(i, 2); InColumn(j, 1) == InColumn(i, 3) && InColumn(j, 2) == i && InColumn(j, 3) == InColumn(i, 1)
    ensures var j := InColumn(i, 3); InColumn(j, 1) == i && InColumn(j, 2) == InColumn(i, 1) && InColumn(j, 3) == InColumn(i, 2)
  {
    hide InColumn;
    InColumnAdds(i, 0, 0);
    InColumnAdds(i, 1, 0);
    InColumnAdds(i, 2, 0);
    forall k, l | 1 <= k <= 3 && 1 <= l <= 3
      ensures InColumn(InColumn(i, k), l) == InColumn(i, k + l)
    {
      InColumnAdds(i, k, l);
    }
  }

  lemma TimesMatrixAt(m: Circulant, s: Block, i: nat)
    requires i < 16
    ensures TimesMatrix(m, s)[i] == RowTimes(m, s[i], s[InColumn(i, 1)], s[InColumn(i, 2)], s[InColumn(i, 3)])
  {
    hide RowTimes, InColumn;
  }

  lemma TimesMatrixTwice(n: Circulant, m: Circulant, s: Block, i: nat)
    requires i < 16
    ensures var a, b, c, d := s[i], s[InColumn(i, 1)], s[InColumn(i, 2)], s[InColumn(i, 3)];
      TimesMatrix(n, TimesMatrix(m, s))[i]
      == RowTimes(n, RowTimes(m, a, b, c, d), RowTimes(m, b, c, d, a), RowTimes(m, c, d, a, b), RowTimes(m, d, a, b, c))
  {
    hide *;
    Neighbours(i);
    TimesMatrixAt(m, s, i);
    TimesMatrixAt(m, s, InColumn(i, 1));
    TimesMatrixAt(m, s, InColumn(i, 2));
    TimesMatrixAt(m, s, InColumn(i, 3));
    TimesMatrixAt(n, TimesMatrix(m, s), i);
  }

  lemma MixColumnsInverse(s: Block)
    ensures InvMixColumns(MixColumns(s)) == s
    ensures MixColumns(InvMixColumns(s)) == s
  {
    hide RowTimes, InColumn, TimesMatrix;
    forall i | 0 <= i < 16
      ensures InvMixColumns(MixColumns(s))[i] == s[i] && MixColumns(InvMixColumns(s))[i] == s[i]
    {
      TimesMatrixTwice(BACKWARD, FORWARD, s, i);
      TimesMatrixTwice(FORWARD, BACKWARD, s, i);
      BackwardUndoesForward(s[i], s[InColumn(i, 1)], s[InColumn(i, 2)], s[InColumn(i, 3)]);
      ForwardUndoesBackward(s[i], s[InColumn(i, 1)], s[InColumn(i, 2)], s[InColumn(i, 3)]);
    }
  }

  // Decryption's nth round takes encryption back to just before its key and column steps.
  lemma {:induction false} InvRoundsUnwindCipher(w: KeySchedule, s: Block, n: nat)
    requires n < 10
    ensures InvRounds(w, Cipher(w, s), n) == ShiftRows(SubBytes(Rounds(w, s, 9 - n)))
  {
    hide AddRoundKey, SubBytes, InvSubBytes, ShiftRows, InvShiftRows, MixColumns, InvMixColumns;
    if n == 0 {
      AddRoundKeyTwice(ShiftRows(SubBytes(Rounds(w, s, 9))), w[10]);
    } else {
      InvRoundsUnwindCipher(w, s, n - 1);
      var r := 10 - n;
      var shifted := ShiftRows(SubBytes(Rounds(w, s, r - 1)));
      ShiftRowsInverse(SubBytes(Rounds(w, s, r)));
      SubBytesInverse(Rounds(w, s, r));
      AddRoundKeyTwice(MixColumns(shifted), w[r]);
      MixColumnsInverse(shifted);
    }
  }

  // Decryption undoes encryption under every key schedule.
  lemma InvCipherUndoesCipher(w: KeySchedule, s: Block)
    ensures InvCipher(w, Cipher(w, s)) == s
  {
    hide AddRoundKey, SubBytes, InvSubBytes, ShiftRows, InvShiftRows, MixColumns, InvMixColumns, Cipher;
    InvRoundsUnwindCipher(w, s, 9);
    ShiftRowsInverse(SubBytes(Rounds(w, s, 0)));
    SubBytesInverse(Rounds(w, s, 0));
    AddRoundKeyTwice(s, w[0]);
  }

  lemma {:induction false} RoundsUnwindInvCipher(w: KeySchedule, s: Block, r: nat)
    requires r < 10
    ensures ShiftRows(SubBytes(Rounds(w, InvCipher(w, s), r))) == InvRounds(w, s, 9 - r)
  {
    hide AddRoundKey, SubBytes, InvSubBytes, ShiftRows, InvShiftRows, MixColumns, InvMixColumns;
    var before := InvSubBytes(InvShiftRows(InvRounds(w, s, 9 - r)));
    ShiftRowsInverse(InvRounds(w, s, 9 - r));
    SubBytesInverse(InvShiftRows(InvRounds(w, s, 9 - r)));
    AddRoundKeyTwice(before, w[r]);
    if r > 0 {
      RoundsUnwindInvCipher(w, s, r - 1);
      MixColumnsInverse(AddRoundKey(before, w[r]));
    }
  }

  // Encryption undoes decryption under every key schedule.
  lemma CipherUndoesInvCipher(w: KeySchedule, s: Block)
    ensures Cipher(w, InvCipher(w, s)) == s
  {
    hide AddRoundKey, SubBytes, InvSubBytes, ShiftRows, InvShiftRows, MixColumns, InvMixColumns, InvCipher;
    RoundsUnwindInvCipher(w, s, 9);
    AddRoundKeyTwice(s, w[10]);
  }

  // ---- A round in bytes ----

  // Each byte comes from four bytes of the state before it, one of each row, and from the columns
  // matrix and the round key.
  lemma RoundBytes(w: KeySchedule, s: Block, r: nat, c: nat)
    requires 0 < r < 10 && c < 4
    ensures var x, y, k := Rounds(w, s, r - 1), Rounds(w, s, r), w[r];
      var p, q, u, v := SBox(x[4 * c]), SBox(x[(4 * c + 5) % 16]), SBox(x[(4 * c + 10) % 16]), SBox(x[(4 * c + 15) % 16]);
      && y[4 * c] == Xor(Xor4(Mul(p, 2), Mul(q, 3), u, v), k[4 * c])
      && y[4 * c + 1] == Xor(Xor4(p, Mul(q, 2), Mul(u, 3), v), k[4 * c + 1])
      && y[4 * c + 2] == Xor(Xor4(p, q, Mul(u, 2), Mul(v, 3)), k[4 * c + 2])
      && y[4 * c + 3] == Xor(Xor4(Mul(p, 3), q, u, Mul(v, 2)), k[4 * c + 3])
  {
    var x := Rounds(w, s, r - 1);
    var b := ShiftRows(SubBytes(x));
    var m := MixColumns(b);
    ShiftedBytes(x, c);
    MixedBytes(b, c);
    assert Rounds(w, s, r) == AddRoundKey(m, w[r]);
    hide *;
    AddedByte(m, w[r], 4 * c);
    AddedByte(m, w[r], 4 * c + 1);
    AddedByte(m, w[r], 4 * c + 2);
    AddedByte(m, w[r], 4 * c + 3);
  }

  lemma AddedByte(s: Block, k: Block, i: nat)
    requires i < 16
    ensures AddRoundKey(s, k)[i] == Xor(s[i], k[i])
  {
    hide Xor;
  }

  lemma ShiftedBytes(x: Block, c: nat)
    requires c < 4
    ensures var b := ShiftRows(SubBytes(x));
      && b[4 * c] == SBox(x[4 * c]) && b[4 * c + 1] == SBox(x[(4 * c + 5) % 16])
      && b[4 * c + 2] == SBox(x[(4 * c + 10) % 16]) && b[4 * c + 3] == SBox(x[(4 * c + 15) % 16])
  {
    hide SBox;
  }

  lemma ColumnBytes(c: nat, i: nat)
    requires c < 4 && i < 4
    ensures InColumn(4 * c + i, 1) == 4 * c + (i + 1) % 4
    ensures InColumn(4 * c + i, 2) == 4 * c + (i + 2) % 4
    ensures InColumn(4 * c + i, 3) == 4 * c + (i + 3) % 4
  {
    assert (4 * c + i) % 4 == i;
  }

  lemma MixedBytes(b: Block, c: nat)
    requires c < 4
    ensures var m, p, q, u, v := MixColumns(b), b[4 * c], b[4 * c + 1], b[4 * c + 2], b[4 * c + 3];
      && m[4 * c] == Xor4(Mul(p, 2), Mul(q, 3), u, v)
      && m[4 * c + 1] == Xor4(p, Mul(q, 2), Mul(u, 3), v)
      && m[4 * c + 2] == Xor4(p, q, Mul(u, 2), Mul(v, 3))
      && m[4 * c + 3] == Xor4(Mul(p, 3), q, u, Mul(v, 2))
  {
    var p, q, u, v := b[4 * c], b[4 * c + 1], b[4 * c + 2], b[4 * c + 3];
    hide *;
    RowsOfColumn(FORWARD, b, c);
    RowBytes(p, q, u, v);
    RowBytes(q, u, v, p);
    RowBytes(u, v, p, q);
    RowBytes(v, p, q, u);
    Turns(p, q, u, v);
    MixColumnsIs(b);
  }

  lemma MixColumnsIs(b: Block)
    ensures MixColumns(b) == TimesMatrix(FORWARD, b)
  {
  }

  lemma RowsOfColumn(m: Circulant, b: Block, c: nat)
    requires c < 4
    ensures var t, p, q, u, v := TimesMatrix(m, b), b[4 * c], b[4 * c + 1], b[4 * c + 2], b[4 * c + 3];
      && t[4 * c] == RowTimes(m, p, q, u, v) && t[4 * c + 1] == RowTimes(m, q, u, v, p)
      && t[4 * c + 2] == RowTimes(m, u, v, p, q) && t[4 * c + 3] == RowTimes(m, v, p, q, u)
  {
    hide *;
    ColumnBytes(c, 0);
    ColumnBytes(c, 1);
    ColumnBytes(c, 2);
    ColumnBytes(c, 3);
    TimesMatrixAt(m, b, 4 * c);
    TimesMatrixAt(m, b, 4 * c + 1);
    TimesMatrixAt(m, b, 4 * c + 2);
    TimesMatrixAt(m, b, 4 * c + 3);
  }

  // The rows of the matrix, each written from its first column on.
  lemma Turns(p: bv8, q: bv8, u: bv8, v: bv8)
    ensures Xor4(Mul(q, 2), Mul(u, 3), v, p) == Xor4(p, Mul(q, 2), Mul(u, 3), v)
    ensures Xor4(Mul(u, 2), Mul(v, 3), p, q) == Xor4(p, q, Mul(u, 2), Mul(v, 3))
    ensures Xor4(Mul(v, 2), Mul(p, 3), q, u) == Xor4(Mul(p, 3), q, u, Mul(v, 2))
  {
    hide *;
    Xor4Rotates(p, Mul(q, 2), Mul(u, 3), v);
    Xor4Rotates(p, q, Mul(u, 2), Mul(v, 3));
    Xor4Rotates(q, Mul(u, 2), Mul(v, 3), p);
    Xor4Rotates(Mul(v, 2), Mul(p, 3), q, u);
  }

  lemma RowBytes(p: bv8, q: bv8, u: bv8, v: bv8)
    ensures RowTimes(FORWARD, p, q, u, v) == Xor4(Mul(p, 2), Mul(q, 3), u, v)
  {
    TimesOne(u);
    TimesOne(v);
    hide Mul, Xor4;
  }

  lemma TimesOne(a: bv8)
    ensures Mul(a, 1) == a
  {
  }

  // The first round only adds the first round key; the last one mixes no columns.
  lemma FirstAndLastBytes(w: KeySchedule, s: Block, c: nat)
    requires c < 4
    ensures forall i :: 0 <= i < 16 ==> Rounds(w, s, 0)[i] == Xor(s[i], w[0][i])
    ensures var x, y, k := Rounds(w, s, 9), Cipher(w, s), w[10];
      && y[4 * c] == Xor(SBox(x[4 * c]), k[4 * c])
      && y[4 * c + 1] == Xor(SBox(x[(4 * c + 5) % 16]), k[4 * c + 1])
      && y[4 * c + 2] == Xor(SBox(x[(4 * c + 10) % 16]), k[4 * c + 2])
      && y[4 * c + 3] == Xor(SBox(x[(4 * c + 15) % 16]), k[4 * c + 3])
  {
    var b := ShiftRows(SubBytes(Rounds(w, s, 9)));
    ShiftedBytes(Rounds(w, s, 9), c);
    assert Rounds(w, s, 0) == AddRoundKey(s, w[0]) && Cipher(w, s) == AddRoundKey(b, w[10]);
    hide *;
    AddedByte(b, w[10], 4 * c);
    AddedByte(b, w[10], 4 * c + 1);
    AddedByte(b, w[10], 4 * c + 2);
    AddedByte(b, w[10], 4 * c + 3);
    forall i | 0 <= i < 16
      ensures AddRoundKey(s, w[0])[i] == Xor(s[i], w[0][i])
    {
      AddedByte(s, w[0], i);
    }
  }
}
