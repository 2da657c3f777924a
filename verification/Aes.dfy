// AES-128 and its CBC mode as decompiler/src/aes.c computes them: 16-byte states and a table
// of round keys rewritten in place, each step proved against Fips197.

module Aes {
  import opened SubstitutionBox
  import opened GaloisField
  import opened MixColumn
  import opened Fips197

  function Rcon(r: nat): bv8
    requires r <= 10
  {
    [0x00, 0x01, 0x02, 0x04, 0x08, 0x10, 0x20, 0x40, 0x80, 0x1b, 0x36][r]
  }

  lemma RconIsPowerOfX(r: nat)
    requires 0 < r <= 10
    ensures Rcon(r) == RoundConstant(r)
  {
    if r > 1 {
      RconIsPowerOfX(r - 1);
    }
  }

  // Byte `b` of what the code adds to the first word of round key `r`.
  function CoreByte(prev: Block, r: nat, b: nat): bv8
    requires r <= 10 && b < 4
  {
    match b
    case 0 => Xor(SBox(prev[13]), Rcon(r))
    case 1 => SBox(prev[14])
    case 2 => SBox(prev[15])
    case _ => SBox(prev[12])
  }

  // Byte `i` of round key `r`, from the round key before it.
  function NextKeyByte(prev: Block, r: nat, i: nat): bv8
    requires r <= 10 && i < 16
  {
    if i < 4 then Xor(prev[i], CoreByte(prev, r, i)) else Xor(NextKeyByte(prev, r, i - 4), prev[i])
  }

  lemma RoundKeyAt(key: Block, r: nat, j: nat, b: nat)
    requires j < 4 && b < 4
    ensures RoundKey(key, r)[4 * j + b] == KeyWord(key, 4 * r + j)[b]
  {
    hide KeyWord;
    match j
    case 0 =>
    case 1 =>
    case 2 =>
    case _ => assert j == 3;
  }

  lemma CoreWordAt(prev: Block, last: Word, r: nat, b: nat)
    requires 0 < r <= 10 && b < 4
    requires last == prev[12..16]
    ensures XorWord(SubWord(RotWord(last)), [RoundConstant(r), 0, 0, 0])[b] == CoreByte(prev, r, b)
  {
    RconIsPowerOfX(r);
    hide Xor, SBox, RoundConstant, Rcon;
    assert last[0] == prev[12] && last[1] == prev[13] && last[2] == prev[14] && last[3] == prev[15];
    XorZero(SBox(last[0]));
    XorZero(SBox(last[2]));
    XorZero(SBox(last[3]));
    match b
    case 0 =>
    case 1 =>
    case 2 =>
    case _ =>
  }

  lemma XorWordAt(a: Word, c: Word, b: nat)
    requires b < 4
    ensures XorWord(a, c)[b] == Xor(a[b], c[b])
  {
    hide Xor;
  }

  lemma FirstWord(key: Block, r: nat)
    requires 0 < r <= 10
    ensures KeyWord(key, 4 * r)
         == XorWord(KeyWord(key, 4 * r - 4), XorWord(SubWord(RotWord(KeyWord(key, 4 * r - 1))), [RoundConstant(r), 0, 0, 0]))
  {
    hide SubWord, RotWord, RoundConstant, XorWord;
    assert (4 * r) % 4 == 0 && (4 * r) / 4 == r;
  }

  lemma LastWord(key: Block, r: nat)
    requires 0 < r <= 10
    ensures RoundKey(key, r - 1)[12..16] == KeyWord(key, 4 * r - 1)
  {
    hide KeyWord;
  }

  lemma FirstWordAt(key: Block, r: nat, b: nat)
    requires 0 < r <= 10 && b < 4
    ensures KeyWord(key, 4 * r)[b] == Xor(KeyWord(key, 4 * r - 4)[b], CoreByte(RoundKey(key, r - 1), r, b))
  {
    hide *;
    var last := KeyWord(key, 4 * r - 1);
    var core := XorWord(SubWord(RotWord(last)), [RoundConstant(r), 0, 0, 0]);
    FirstWord(key, r);
    LastWord(key, r);
    XorWordAt(KeyWord(key, 4 * r - 4), core, b);
    CoreWordAt(RoundKey(key, r - 1), last, r, b);
  }

  lemma NextWordAt(key: Block, r: nat, j: nat, b: nat)
    requires 0 < r <= 10 && 0 < j < 4 && b < 4
    ensures KeyWord(key, 4 * r + j)[b] == Xor(KeyWord(key, 4 * r + j - 1)[b], KeyWord(key, 4 * r + j - 4)[b])
  {
    hide Xor, SubWord, RotWord, RoundConstant, XorWord;
    var i := 4 * r + j;
    assert i % 4 == j;
    XorWordAt(KeyWord(key, i - 4), KeyWord(key, i - 1), b);
    XorCommutes(KeyWord(key, i - 4)[b], KeyWord(key, i - 1)[b]);
  }

  // The byte recurrence of the code is the word recurrence of the key schedule.
  lemma {:induction false} RoundKeyFollows(key: Block, r: nat, j: nat, b: nat)
    requires 0 < r <= 10 && j < 4 && b < 4
    ensures RoundKey(key, r)[4 * j + b] == NextKeyByte(RoundKey(key, r - 1), r, 4 * j + b)
  {
    hide Xor, CoreByte, RoundKey, KeyWord;
    RoundKeyAt(key, r, j, b);
    RoundKeyAt(key, r - 1, j, b);
    if j == 0 {
      FirstWordAt(key, r, b);
    } else {
      RoundKeyFollows(key, r, j - 1, b);
      RoundKeyAt(key, r, j - 1, b);
      NextWordAt(key, r, j, b);
    }
  }

  // The expanded key: eleven round keys of sixteen bytes each.
  class Aes128Ctx {
    const roundKeys: array2<bv8>

    ghost predicate Valid() {
      roundKeys.Length0 == 11 && roundKeys.Length1 == 16
    }

    ghost function Row(r: nat): Block
      requires Valid() && r < 11
      reads roundKeys
    {
      seq(16, i requires 0 <= i < 16 reads roundKeys requires Valid() => roundKeys[r, i])
    }

    ghost function Schedule(): KeySchedule
      requires Valid()
      reads roundKeys
    {
      seq(11, r requires 0 <= r < 11 reads roundKeys requires Valid() => Row(r))
    }

    constructor (key: Block)
      ensures Valid() && fresh(roundKeys)
      ensures Schedule() == KeyExpansion(key)
    {
      roundKeys := new bv8[11, 16];
      new;
      for i := 0 to 16
        invariant forall k :: 0 <= k < i ==> roundKeys[0, k] == key[k]
      {
        roundKeys[0, i] := key[i];
      }
      FirstRoundKey(key);
      hide RoundKey, NextKeyByte;
      for r := 1 to 11
        invariant forall q, k :: 0 <= q < r && 0 <= k < 16 ==> roundKeys[q, k] == RoundKey(key, q)[k]
      {
        ExpandRound(RoundKey(key, r - 1), r);
        RoundKeyIsNext(key, r);
      }
      forall q | 0 <= q < 11
        ensures Row(q) == RoundKey(key, q)
      {
      }
    }

    // RotWord, SubWord and the round constant, on the last word of the round key before `r`.
    method CoreWord(ghost prev: Block, r: nat) returns (t: array<bv8>)
      requires Valid() && 0 < r <= 10
      requires forall k :: 0 <= k < 16 ==> roundKeys[r - 1, k] == prev[k]
      ensures fresh(t) && t.Length == 4
      ensures forall k :: 0 <= k < 4 ==> t[k] == CoreByte(prev, r, k)
    {
      hide Xor, SBox, Rcon;
      t := new bv8[4];
      t[0] := Xor(SBox(roundKeys[r - 1, 13]), Rcon(r));
      t[1] := SBox(roundKeys[r - 1, 14]);
      t[2] := SBox(roundKeys[r - 1, 15]);
      t[3] := SBox(roundKeys[r - 1, 12]);
    }

    // One turn of the key expansion loop.
    method ExpandRound(ghost prev: Block, r: nat)
      requires Valid() && 0 < r <= 10
      requires forall k :: 0 <= k < 16 ==> roundKeys[r - 1, k] == prev[k]
      modifies roundKeys
      ensures forall k :: 0 <= k < 16 ==> roundKeys[r, k] == NextKeyByte(prev, r, k)
      ensures forall q, k :: 0 <= q <= 10 && q != r && 0 <= k < 16 ==> roundKeys[q, k] == old(roundKeys[q, k])
    {
      var t := CoreWord(prev, r);
      hide CoreByte, Xor;
      for i := 0 to 4
        modifies roundKeys
        invariant forall q, k :: 0 <= q <= 10 && q != r && 0 <= k < 16 ==> roundKeys[q, k] == old(roundKeys[q, k])
        invariant forall k :: 0 <= k < i ==> roundKeys[r, k] == NextKeyByte(prev, r, k)
      {
        roundKeys[r, i] := Xor(roundKeys[r - 1, i], t[i]);
      }
      for i := 4 to 16
        invariant forall q, k :: 0 <= q <= 10 && q != r && 0 <= k < 16 ==> roundKeys[q, k] == old(roundKeys[q, k])
        invariant forall k :: 0 <= k < i ==> roundKeys[r, k] == NextKeyByte(prev, r, k)
      {
        roundKeys[r, i] := Xor(roundKeys[r, i - 4], roundKeys[r - 1, i]);
      }
    }
  }

  lemma RoundKeyIsNext(key: Block, r: nat)
    requires 0 < r <= 10
    ensures forall k :: 0 <= k < 16 ==> RoundKey(key, r)[k] == NextKeyByte(RoundKey(key, r - 1), r, k)
  {
    hide RoundKey, NextKeyByte;
    forall k | 0 <= k < 16
      ensures RoundKey(key, r)[k] == NextKeyByte(RoundKey(key, r - 1), r, k)
    {
      RoundKeyFollows(key, r, k / 4, k % 4);
    }
  }

  lemma FirstRoundKey(key: Block)
    ensures RoundKey(key, 0) == key
  {
    assert KeyWord(key, 0) == key[0..4] && KeyWord(key, 1) == key[4..8];
    assert KeyWord(key, 2) == key[8..12] && KeyWord(key, 3) == key[12..16];
  }

  // The key schedule in bytes: each round key from the one before it, by the substituted last four
  // bytes, turned by one, and the round constants 1, x, x^2, ...
  lemma RoundKeyBytes(key: Block, r: nat)
    requires 0 < r <= 10
    ensures RoundKey(key, 0) == key
    ensures var prev, cur := RoundKey(key, r - 1), RoundKey(key, r);
      && cur[0] == Xor(prev[0], Xor(SBox(prev[13]), [0x01, 0x02, 0x04, 0x08, 0x10, 0x20, 0x40, 0x80, 0x1b, 0x36][r - 1]))
      && cur[1] == Xor(prev[1], SBox(prev[14]))
      && cur[2] == Xor(prev[2], SBox(prev[15]))
      && cur[3] == Xor(prev[3], SBox(prev[12]))
      && forall i :: 4 <= i < 16 ==> cur[i] == Xor(cur[i - 4], prev[i])
  {
    hide *;
    FirstRoundKey(key);
    RoundKeyIsNext(key, r);
    NextKeyBytes(RoundKey(key, r - 1), r);
  }

  lemma NextKeyBytes(prev: Block, r: nat)
    requires 0 < r <= 10
    ensures NextKeyByte(prev, r, 0) ==
      Xor(prev[0], Xor(SBox(prev[13]), [0x01, 0x02, 0x04, 0x08, 0x10, 0x20, 0x40, 0x80, 0x1b, 0x36][r - 1]))
    ensures NextKeyByte(prev, r, 1) == Xor(prev[1], SBox(prev[14]))
    ensures NextKeyByte(prev, r, 2) == Xor(prev[2], SBox(prev[15]))
    ensures NextKeyByte(prev, r, 3) == Xor(prev[3], SBox(prev[12]))
    ensures forall i :: 4 <= i < 16 ==> NextKeyByte(prev, r, i) == Xor(NextKeyByte(prev, r, i - 4), prev[i])
  {
    hide Xor, SBox;
    RconIs(r);
  }

  lemma RconIs(r: nat)
    requires 0 < r <= 10
    ensures Rcon(r) == [0x01, 0x02, 0x04, 0x08, 0x10, 0x20, 0x40, 0x80, 0x1b, 0x36][r - 1]
  {
  }

  // So is the table that the constructor fills.
  lemma TableBytes(ctx: Aes128Ctx, key: Block, r: nat)
    requires ctx.Valid() && ctx.Schedule() == KeyExpansion(key) && 0 < r <= 10
    ensures var t := ctx.roundKeys;
      && (forall i :: 0 <= i < 16 ==> t[0, i] == key[i])
      && t[r, 0] == Xor(t[r - 1, 0], Xor(SBox(t[r - 1, 13]), [0x01, 0x02, 0x04, 0x08, 0x10, 0x20, 0x40, 0x80, 0x1b, 0x36][r - 1]))
      && t[r, 1] == Xor(t[r - 1, 1], SBox(t[r - 1, 14]))
      && t[r, 2] == Xor(t[r - 1, 2], SBox(t[r - 1, 15]))
      && t[r, 3] == Xor(t[r - 1, 3], SBox(t[r - 1, 12]))
      && forall i :: 4 <= i < 16 ==> t[r, i] == Xor(t[r, i - 4], t[r - 1, i])
  {
    RoundKeyBytes(key, r);
    TableIs(ctx, key, 0);
    TableIs(ctx, key, r - 1);
    TableIs(ctx, key, r);
    hide RoundKey, KeyExpansion, Xor, SBox;
  }

  lemma TableIs(ctx: Aes128Ctx, key: Block, r: nat)
    requires ctx.Valid() && ctx.Schedule() == KeyExpansion(key) && r <= 10
    ensures forall i :: 0 <= i < 16 ==> ctx.roundKeys[r, i] == RoundKey(key, r)[i]
  {
    hide RoundKey;
    assert ctx.Schedule()[r] == ctx.Row(r) && KeyExpansion(key)[r] == RoundKey(key, r);
  }

  method AddRoundKeyInPlace(s: array<bv8>, ctx: Aes128Ctx, r: nat)
    requires s.Length == 16 && ctx.Valid() && r <= 10
    modifies s
    ensures s[..] == AddRoundKey(old(s[..]), ctx.Row(r))
  {
    hide Xor;
    for i := 0 to 16
      invariant forall k :: 0 <= k < i ==> s[k] == Xor(old(s[k]), ctx.roundKeys[r, k])
      invariant forall k :: i <= k < 16 ==> s[k] == old(s[k])
    {
      s[i] := Xor(s[i], ctx.roundKeys[r, i]);
    }
  }

  method SubBytesInPlace(s: array<bv8>)
    requires s.Length == 16
    modifies s
    ensures s[..] == SubBytes(old(s[..]))
  {
    hide SBox;
    for i := 0 to 16
      invariant forall k :: 0 <= k < i ==> s[k] == SBox(old(s[k]))
      invariant forall k :: i <= k < 16 ==> s[k] == old(s[k])
    {
      s[i] := SBox(s[i]);
    }
  }

  method InvSubBytesInPlace(s: array<bv8>)
    requires s.Length == 16
    modifies s
    ensures s[..] == InvSubBytes(old(s[..]))
  {
    hide InvSBox;
    for i := 0 to 16
      invariant forall k :: 0 <= k < i ==> s[k] == InvSBox(old(s[k]))
      invariant forall k :: i <= k < 16 ==> s[k] == old(s[k])
    {
      s[i] := InvSBox(s[i]);
    }
  }

  lemma IsShiftRows(a: Block, b: Block)
    requires b[0] == a[0] && b[1] == a[5] && b[2] == a[10] && b[3] == a[15]
    requires b[4] == a[4] && b[5] == a[9] && b[6] == a[14] && b[7] == a[3]
    requires b[8] == a[8] && b[9] == a[13] && b[10] == a[2] && b[11] == a[7]
    requires b[12] == a[12] && b[13] == a[1] && b[14] == a[6] && b[15] == a[11]
    ensures b == ShiftRows(a)
  {
  }

  lemma IsInvShiftRows(a: Block, b: Block)
    requires b[0] == a[0] && b[1] == a[13] && b[2] == a[10] && b[3] == a[7]
    requires b[4] == a[4] && b[5] == a[1] && b[6] == a[14] && b[7] == a[11]
    requires b[8] == a[8] && b[9] == a[5] && b[10] == a[2] && b[11] == a[15]
    requires b[12] == a[12] && b[13] == a[9] && b[14] == a[6] && b[15] == a[3]
    ensures b == InvShiftRows(a)
  {
  }

  method ShiftRowsInPlace(s: array<bv8>)
    requires s.Length == 16
    modifies s
    ensures s[..] == ShiftRows(old(s[..]))
  {
    hide *;
    var t := s[1];
    s[1] := s[5]; s[5] := s[9]; s[9] := s[13]; s[13] := t;
    t := s[2]; s[2] := s[10]; s[10] := t;
    t := s[6]; s[6] := s[14]; s[14] := t;
    t := s[3];
    s[3] := s[15]; s[15] := s[11]; s[11] := s[7]; s[7] := t;
    IsShiftRows(old(s[..]), s[..]);
  }

  method InvShiftRowsInPlace(s: array<bv8>)
    requires s.Length == 16
    modifies s
    ensures s[..] == InvShiftRows(old(s[..]))
  {
    hide *;
    var t := s[13];
    s[13] := s[9]; s[9] := s[5]; s[5] := s[1]; s[1] := t;
    t := s[2]; s[2] := s[10]; s[10] := t;
    t := s[6]; s[6] := s[14]; s[14] := t;
    t := s[3];
    s[3] := s[7]; s[7] := s[11]; s[11] := s[15]; s[15] := t;
    IsInvShiftRows(old(s[..]), s[..]);
  }

  // The four bytes of column `c` after multiplication by `m`.
  lemma MixedColumn(m: Circulant, s: Block, c: nat)
    requires c < 4
    ensures var a, b, d, e := s[4 * c], s[4 * c + 1], s[4 * c + 2], s[4 * c + 3];
      && MixedByte(m, s, 4 * c) == RowTimes(m, a, b, d, e)
      && MixedByte(m, s, 4 * c + 1) == RowTimes(m, b, d, e, a)
      && MixedByte(m, s, 4 * c + 2) == RowTimes(m, d, e, a, b)
      && MixedByte(m, s, 4 * c + 3) == RowTimes(m, e, a, b, d)
  {
    hide RowTimes, InColumn;
    InColumnAt(c, 0);
    InColumnAt(c, 1);
    InColumnAt(c, 2);
    InColumnAt(c, 3);
  }

  // The other rows of column `c`, counted from row `j`.
  lemma InColumnAt(c: nat, j: nat)
    requires c < 4 && j < 4
    ensures InColumn(4 * c + j, 1) == 4 * c + (j + 1) % 4
    ensures InColumn(4 * c + j, 2) == 4 * c + (j + 2) % 4
    ensures InColumn(4 * c + j, 3) == 4 * c + (j + 3) % 4
  {
    assert (4 * c + j) % 4 == j;
  }

  // The code's form of a mixed column, given the sum of its bytes.
  lemma MixedByXTime(s: Block, c: nat, t: bv8)
    requires c < 4 && t == Xor(Xor(Xor(s[4 * c], s[4 * c + 1]), s[4 * c + 2]), s[4 * c + 3])
    ensures var a, b, d, e := s[4 * c], s[4 * c + 1], s[4 * c + 2], s[4 * c + 3];
      && MixedByte(FORWARD, s, 4 * c) == Xor(a, Xor(t, XTime(Xor(a, b))))
      && MixedByte(FORWARD, s, 4 * c + 1) == Xor(b, Xor(t, XTime(Xor(b, d))))
      && MixedByte(FORWARD, s, 4 * c + 2) == Xor(d, Xor(t, XTime(Xor(d, e))))
      && MixedByte(FORWARD, s, 4 * c + 3) == Xor(e, Xor(t, XTime(Xor(e, a))))
  {
    hide *;
    var a, b, d, e := s[4 * c], s[4 * c + 1], s[4 * c + 2], s[4 * c + 3];
    MixedColumn(FORWARD, s, c);
    SumOfColumn(a, b, d, e);
    Xor4Rotates(a, b, d, e);
    Xor4Rotates(b, d, e, a);
    Xor4Rotates(d, e, a, b);
    ForwardByXTime(t, a, b, d, e);
    ForwardByXTime(t, b, d, e, a);
    ForwardByXTime(t, d, e, a, b);
    ForwardByXTime(t, e, a, b, d);
  }

  // One turn of the loop of mix_columns.
  method MixOneColumn(s: array<bv8>, c: nat, ghost s0: Block)
    requires s.Length == 16 && c < 4
    requires forall k :: 4 * c <= k < 4 * c + 4 ==> s[k] == s0[k]
    modifies s
    ensures forall k :: 4 * c <= k < 4 * c + 4 ==> s[k] == MixedByte(FORWARD, s0, k)
    ensures forall k :: 0 <= k < 16 && !(4 * c <= k < 4 * c + 4) ==> s[k] == old(s[k])
  {
    hide *;
    var a0, a1, a2, a3 := s[c * 4 + 0], s[c * 4 + 1], s[c * 4 + 2], s[c * 4 + 3];
    var t := Xor(Xor(Xor(a0, a1), a2), a3);
    MixedByXTime(s0, c, t);
    s[c * 4 + 0] := Xor(s[c * 4 + 0], Xor(t, XTime(Xor(a0, a1))));
    s[c * 4 + 1] := Xor(s[c * 4 + 1], Xor(t, XTime(Xor(a1, a2))));
    s[c * 4 + 2] := Xor(s[c * 4 + 2], Xor(t, XTime(Xor(a2, a3))));
    s[c * 4 + 3] := Xor(s[c * 4 + 3], Xor(t, XTime(Xor(a3, a0))));
    forall k | 4 * c <= k < 4 * c + 4
      ensures s[k] == MixedByte(FORWARD, s0, k)
    {
      assert k == 4 * c || k == 4 * c + 1 || k == 4 * c + 2 || k == 4 * c + 3;
    }
  }

  method MixColumnsInPlace(s: array<bv8>)
    requires s.Length == 16
    modifies s
    ensures s[..] == MixColumns(old(s[..]))
  {
    ghost var s0: Block := s[..];
    hide MixedByte;
    for c := 0 to 4
      invariant forall k :: 0 <= k < 4 * c ==> s[k] == MixedByte(FORWARD, s0, k)
      invariant forall k :: 4 * c <= k < 16 ==> s[k] == s0[k]
    {
      MixOneColumn(s, c, s0);
    }
  }

  // One output byte of inv_mix_columns, as four calls of gmul.
  method InvMixedByte(k0: bv8, k1: bv8, k2: bv8, k3: bv8, a0: bv8, a1: bv8, a2: bv8, a3: bv8) returns (p: bv8)
    ensures p == Xor4(Mul(a0, k0), Mul(a1, k1), Mul(a2, k2), Mul(a3, k3))
  {
    hide *;
    var p0 := GMul(a0, k0);
    var p1 := GMul(a1, k1);
    var p2 := GMul(a2, k2);
    var p3 := GMul(a3, k3);
    SumOfColumn(p0, p1, p2, p3);
    p := Xor(Xor(Xor(p0, p1), p2), p3);
  }

  // The rows of the inverse matrix, in the code's column order.
  lemma BackwardRows(a0: bv8, a1: bv8, a2: bv8, a3: bv8)
    ensures RowTimes(BACKWARD, a0, a1, a2, a3) == Xor4(Mul(a0, 0x0e), Mul(a1, 0x0b), Mul(a2, 0x0d), Mul(a3, 0x09))
    ensures RowTimes(BACKWARD, a1, a2, a3, a0) == Xor4(Mul(a0, 0x09), Mul(a1, 0x0e), Mul(a2, 0x0b), Mul(a3, 0x0d))
    ensures RowTimes(BACKWARD, a2, a3, a0, a1) == Xor4(Mul(a0, 0x0d), Mul(a1, 0x09), Mul(a2, 0x0e), Mul(a3, 0x0b))
    ensures RowTimes(BACKWARD, a3, a0, a1, a2) == Xor4(Mul(a0, 0x0b), Mul(a1, 0x0d), Mul(a2, 0x09), Mul(a3, 0x0e))
  {
    hide Mul, Xor4;
    Xor4Rotates(Mul(a0, 0x09), Mul(a1, 0x0e), Mul(a2, 0x0b), Mul(a3, 0x0d));
    Xor4Rotates(Mul(a0, 0x0d), Mul(a1, 0x09), Mul(a2, 0x0e), Mul(a3, 0x0b));
    Xor4Rotates(Mul(a1, 0x09), Mul(a2, 0x0e), Mul(a3, 0x0b), Mul(a0, 0x0d));
    Xor4Rotates(Mul(a3, 0x0e), Mul(a0, 0x0b), Mul(a1, 0x0d), Mul(a2, 0x09));
  }

  // One turn of the loop of inv_mix_columns.
  method InvMixOneColumn(s: array<bv8>, c: nat, ghost s0: Block)
    requires s.Length == 16 && c < 4
    requires forall k :: 4 * c <= k < 4 * c + 4 ==> s[k] == s0[k]
    modifies s
    ensures forall k :: 4 * c <= k < 4 * c + 4 ==> s[k] == MixedByte(BACKWARD, s0, k)
    ensures forall k :: 0 <= k < 16 && !(4 * c <= k < 4 * c + 4) ==> s[k] == old(s[k])
  {
    hide *;
    var a0, a1, a2, a3 := s[c * 4 + 0], s[c * 4 + 1], s[c * 4 + 2], s[c * 4 + 3];
    MixedColumn(BACKWARD, s0, c);
    BackwardRows(a0, a1, a2, a3);
    s[c * 4 + 0] := InvMixedByte(0x0e, 0x0b, 0x0d, 0x09, a0, a1, a2, a3);
    s[c * 4 + 1] := InvMixedByte(0x09, 0x0e, 0x0b, 0x0d, a0, a1, a2, a3);
    s[c * 4 + 2] := InvMixedByte(0x0d, 0x09, 0x0e, 0x0b, a0, a1, a2, a3);
    s[c * 4 + 3] := InvMixedByte(0x0b, 0x0d, 0x09, 0x0e, a0, a1, a2, a3);
    forall k | 4 * c <= k < 4 * c + 4
      ensures s[k] == MixedByte(BACKWARD, s0, k)
    {
      assert k == 4 * c || k == 4 * c + 1 || k == 4 * c + 2 || k == 4 * c + 3;
    }
  }

  method InvMixColumnsInPlace(s: array<bv8>)
    requires s.Length == 16
    modifies s
    ensures s[..] == InvMixColumns(old(s[..]))
  {
    ghost var s0: Block := s[..];
    hide MixedByte;
    for c := 0 to 4
      invariant forall k :: 0 <= k < 4 * c ==> s[k] == MixedByte(BACKWARD, s0, k)
      invariant forall k :: 4 * c <= k < 16 ==> s[k] == s0[k]
    {
      InvMixOneColumn(s, c, s0);
    }
  }

  method EncryptBlock(ctx: Aes128Ctx, src: array<bv8>, srcOff: nat, dst: array<bv8>, dstOff: nat)
    requires ctx.Valid() && srcOff + 16 <= src.Length && dstOff + 16 <= dst.Length
    modifies dst
    ensures dst[dstOff..dstOff + 16] == Cipher(ctx.Schedule(), old(src[srcOff..srcOff + 16]))
    ensures dst[..dstOff] == old(dst[..dstOff]) && dst[dstOff + 16..] == old(dst[dstOff + 16..])
  {
    hide AddRoundKey, SubBytes, ShiftRows, MixColumns;
    ghost var w := ctx.Schedule();
    ghost var block: Block := src[srcOff..srcOff + 16];
    var s := CopyIn(src, srcOff);
    AddRoundKeyInPlace(s, ctx, 0);
    for r := 1 to 10
      modifies s
      invariant s[..] == Rounds(w, block, r - 1)
    {
      SubBytesInPlace(s);
      ShiftRowsInPlace(s);
      MixColumnsInPlace(s);
      AddRoundKeyInPlace(s, ctx, r);
    }
    SubBytesInPlace(s);
    ShiftRowsInPlace(s);
    AddRoundKeyInPlace(s, ctx, 10);
    CopyOut(s, dst, dstOff);
  }

  method DecryptBlock(ctx: Aes128Ctx, src: array<bv8>, srcOff: nat, dst: array<bv8>, dstOff: nat)
    requires ctx.Valid() && srcOff + 16 <= src.Length && dstOff + 16 <= dst.Length
    modifies dst
    ensures dst[dstOff..dstOff + 16] == InvCipher(ctx.Schedule(), old(src[srcOff..srcOff + 16]))
    ensures dst[..dstOff] == old(dst[..dstOff]) && dst[dstOff + 16..] == old(dst[dstOff + 16..])
  {
    hide AddRoundKey, InvSubBytes, InvShiftRows, InvMixColumns;
    ghost var w := ctx.Schedule();
    ghost var block: Block := src[srcOff..srcOff + 16];
    var s := CopyIn(src, srcOff);
    AddRoundKeyInPlace(s, ctx, 10);
    for r := 10 downto 1
      modifies s
      invariant s[..] == InvRounds(w, block, 10 - r)
    {
      InvShiftRowsInPlace(s);
      InvSubBytesInPlace(s);
      AddRoundKeyInPlace(s, ctx, r);
      InvMixColumnsInPlace(s);
    }
    InvShiftRowsInPlace(s);
    InvSubBytesInPlace(s);
    AddRoundKeyInPlace(s, ctx, 0);
    CopyOut(s, dst, dstOff);
  }

  // memcpy of one block into a local state.
  method CopyIn(src: array<bv8>, off: nat) returns (s: array<bv8>)
    requires off + 16 <= src.Length
    ensures fresh(s) && s.Length == 16
    ensures s[..] == src[off..off + 16]
  {
    s := new bv8[16];
    for i := 0 to 16
      invariant s[..i] == src[off..off + i]
    {
      s[i] := src[off + i];
    }
  }

  // memcpy of a local state to its destination.
  method CopyOut(s: array<bv8>, dst: array<bv8>, off: nat)
    requires s.Length == 16 && off + 16 <= dst.Length && s != dst
    modifies dst
    ensures dst[off..off + 16] == s[..]
    ensures dst[..off] == old(dst[..off]) && dst[off + 16..] == old(dst[off + 16..])
  {
    for i := 0 to 16
      invariant dst[off..off + i] == s[..i]
      invariant dst[..off] == old(dst[..off]) && dst[off + 16..] == old(dst[off + 16..])
    {
      dst[off + i] := s[i];
    }
  }
}
