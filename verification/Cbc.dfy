// CBC mode over AES-128 (section 6.2 of NIST SP 800-38A; decompiler/src/aes.c:154-178).

module Cbc {
  import opened GaloisField
  import opened Fips197
  import opened Aes

  type Blocks = s: seq<bv8> | |s| % 16 == 0 witness []

  // Each plaintext block is added to the ciphertext block before it, then enciphered.
  function Encrypted(w: KeySchedule, prev: Block, p: Blocks): (c: Blocks)
    ensures |c| == |p|
    decreases |p|
  {
    if p == [] then [] else
      var first := Cipher(w, AddRoundKey(p[..16], prev));
      first + Encrypted(w, first, p[16..])
  }

  // Each ciphertext block is deciphered, then added to the ciphertext block before it.
  function Decrypted(w: KeySchedule, prev: Block, c: Blocks): (p: Blocks)
    ensures |p| == |c|
    decreases |c|
  {
    if c == [] then [] else
      var first := AddRoundKey(InvCipher(w, c[..16]), prev);
      first + Decrypted(w, c[..16], c[16..])
  }

  // Decryption undoes encryption for every key schedule, IV and whole number of blocks ...
  lemma {:induction false} DecryptedUndoesEncrypted(w: KeySchedule, iv: Block, p: Blocks)
    ensures Decrypted(w, iv, Encrypted(w, iv, p)) == p
    decreases |p|
  {
    if p != [] {
      hide Cipher, InvCipher, AddRoundKey;
      var first := Cipher(w, AddRoundKey(p[..16], iv));
      var c := Encrypted(w, iv, p);
      assert c[..16] == first && c[16..] == Encrypted(w, first, p[16..]);
      InvCipherUndoesCipher(w, AddRoundKey(p[..16], iv));
      AddRoundKeyTwice(p[..16], iv);
      DecryptedUndoesEncrypted(w, first, p[16..]);
    }
  }

  // ... and encryption undoes decryption.
  lemma {:induction false} EncryptedUndoesDecrypted(w: KeySchedule, iv: Block, c: Blocks)
    ensures Encrypted(w, iv, Decrypted(w, iv, c)) == c
    decreases |c|
  {
    if c != [] {
      hide Cipher, InvCipher, AddRoundKey;
      var p := Decrypted(w, iv, c);
      assert p[..16] == AddRoundKey(InvCipher(w, c[..16]), iv) && p[16..] == Decrypted(w, c[..16], c[16..]);
      AddRoundKeyTwice(InvCipher(w, c[..16]), iv);
      CipherUndoesInvCipher(w, c[..16]);
      EncryptedUndoesDecrypted(w, c[..16], c[16..]);
    }
  }

  // Block k of the ciphertext comes from block k of the plaintext and block k - 1 of the ciphertext.
  lemma {:induction false} EncryptedBlock(w: KeySchedule, iv: Block, p: Blocks, k: nat)
    requires 16 * k + 16 <= |p|
    ensures var c := Encrypted(w, iv, p);
      c[16 * k..16 * k + 16] == Cipher(w, AddRoundKey(p[16 * k..16 * k + 16], if k == 0 then iv else c[16 * k - 16..16 * k]))
    decreases k
  {
    hide Cipher, AddRoundKey;
    var c, first := Encrypted(w, iv, p), Cipher(w, AddRoundKey(p[..16], iv));
    var rest := Encrypted(w, first, p[16..]);
    assert c == first + rest;
    hide Encrypted;
    if k > 0 {
      EncryptedBlock(w, first, p[16..], k - 1);
      BlockOfRest(p[..16], p[16..], k - 1);
      assert p[..16] + p[16..] == p;
      BlockOfRest(first, rest, k - 1);
      if k > 1 {
        BlockOfRest(first, rest, k - 2);
      } else {
        assert c[0..16] == first;
      }
    }
  }

  lemma BlockOfRest(first: Block, rest: Blocks, k: nat)
    requires 16 * k + 16 <= |rest|
    ensures (first + rest)[16 * k + 16..16 * k + 32] == rest[16 * k..16 * k + 16]
  {
  }

  // And back.
  lemma {:induction false} DecryptedBlock(w: KeySchedule, iv: Block, c: Blocks, k: nat)
    requires 16 * k + 16 <= |c|
    ensures Decrypted(w, iv, c)[16 * k..16 * k + 16] ==
      AddRoundKey(InvCipher(w, c[16 * k..16 * k + 16]), if k == 0 then iv else c[16 * k - 16..16 * k])
    decreases k
  {
    hide InvCipher, AddRoundKey;
    var p, first := Decrypted(w, iv, c), AddRoundKey(InvCipher(w, c[..16]), iv);
    var rest := Decrypted(w, c[..16], c[16..]);
    assert p == first + rest;
    hide Decrypted;
    if k > 0 {
      DecryptedBlock(w, c[..16], c[16..], k - 1);
      BlockOfRest(c[..16], c[16..], k - 1);
      assert c[..16] + c[16..] == c;
      BlockOfRest(first, rest, k - 1);
      if k > 1 {
        BlockOfRest(c[..16], c[16..], k - 2);
      } else {
        assert c[0..16] == c[..16];
      }
    }
  }

  method EncryptOne(ctx: Aes128Ctx, prev: array<bv8>, src: array<bv8>, srcOff: nat, dst: array<bv8>, dstOff: nat)
    requires ctx.Valid() && prev.Length == 16 && prev != src && prev != dst
    requires srcOff + 16 <= src.Length && dstOff + 16 <= dst.Length
    modifies prev, dst
    ensures prev[..] == Cipher(ctx.Schedule(), AddRoundKey(old(src[srcOff..srcOff + 16]), old(prev[..])))
    ensures dst[dstOff..dstOff + 16] == prev[..]
    ensures dst[..dstOff] == old(dst[..dstOff]) && dst[dstOff + 16..] == old(dst[dstOff + 16..])
  {
    hide Xor, Cipher;
    var block := new bv8[16];
    for i := 0 to 16
      modifies block
      invariant forall k :: 0 <= k < i ==> block[k] == Xor(src[srcOff + k], prev[k])
    {
      block[i] := Xor(src[srcOff + i], prev[i]);
    }
    ghost var sum := AddRoundKey(old(src[srcOff..srcOff + 16]), old(prev[..]));
    assert block[0..16] == sum;
    hide AddRoundKey;
    EncryptBlock(ctx, block, 0, dst, dstOff);
    assert dst[dstOff..dstOff + 16] == Cipher(ctx.Schedule(), sum);
    assert dst[..dstOff] == old(dst[..dstOff]) && dst[dstOff + 16..] == old(dst[dstOff + 16..]);
    hide Spliced;
    var c := CopyIn(dst, dstOff);
    CopyOut(c, prev, 0);
    assert prev[0..16] == prev[..];
  }

  method DecryptOne(ctx: Aes128Ctx, prev: array<bv8>, src: array<bv8>, srcOff: nat, dst: array<bv8>, dstOff: nat)
    requires ctx.Valid() && prev.Length == 16 && prev != src && prev != dst
    requires srcOff + 16 <= src.Length && dstOff + 16 <= dst.Length
    modifies prev, dst
    ensures prev[..] == old(src[srcOff..srcOff + 16])
    ensures dst[dstOff..dstOff + 16] == AddRoundKey(InvCipher(ctx.Schedule(), old(src[srcOff..srcOff + 16])), old(prev[..]))
    ensures dst[..dstOff] == old(dst[..dstOff]) && dst[dstOff + 16..] == old(dst[dstOff + 16..])
  {
    hide Xor, InvCipher;
    var block := new bv8[16];
    DecryptBlock(ctx, src, srcOff, block, 0);
    var save := CopyIn(src, srcOff);
    for i := 0 to 16
      modifies dst
      invariant dst[..dstOff] == old(dst[..dstOff]) && dst[dstOff + 16..] == old(dst[dstOff + 16..])
      invariant forall k :: 0 <= k < i ==> dst[dstOff + k] == Xor(block[k], prev[k])
    {
      dst[dstOff + i] := Xor(block[i], prev[i]);
    }
    assert dst[dstOff..dstOff + 16] == AddRoundKey(block[..], old(prev[..]));
    CopyOut(save, prev, 0);
    assert prev[0..16] == prev[..];
  }

  // A buffer whose bytes from `start` on have been replaced by `done`.
  function Spliced(b: seq<bv8>, start: nat, done: seq<bv8>): (r: seq<bv8>)
    requires start + |done| <= |b|
    ensures |r| == |b|
  {
    b[..start] + done + b[start + |done|..]
  }

  lemma SplicedFurther(b: seq<bv8>, start: nat, done: seq<bv8>, a: seq<bv8>)
    requires start + |done| + 16 <= |b| == |a|
    requires var mid := start + |done|; var before := Spliced(b, start, done);
      a[..mid] == before[..mid] && a[mid + 16..] == before[mid + 16..]
    ensures var mid := start + |done|; a == Spliced(b, start, done + a[mid..mid + 16])
  {
    var mid := start + |done|;
    assert a == a[..mid] + a[mid..mid + 16] + a[mid + 16..];
  }

  // The next block to read has not been overwritten, in place or not.
  lemma NextBlock(b: seq<bv8>, start: nat, done: seq<bv8>, len: nat)
    requires |done| + 16 <= len && start + len <= |b|
    ensures Spliced(b, start, done)[start + |done|..start + |done| + 16] == b[start..start + len][|done|..][..16]
    ensures b[start + |done|..start + |done| + 16] == b[start..start + len][|done|..][..16]
  {
    var mid := start + |done|;
    var next := b[start..start + len][|done|..][..16];
    assert next == b[mid..mid + 16];
    assert Spliced(b, start, done)[mid..] == b[mid..];
    assert Spliced(b, start, done)[mid..mid + 16] == Spliced(b, start, done)[mid..][..16];
  }

  lemma OneMoreFits(off: nat, len: nat)
    requires off % 16 == 0 && len % 16 == 0 && off < len
    ensures off + 16 <= len && (off + 16) % 16 == 0
  {
  }

  lemma Later(s: seq<bv8>, off: nat)
    requires off + 16 <= |s|
    ensures s[off..][16..] == s[off + 16..]
  {
  }

  lemma EncryptOneStep(w: KeySchedule, prev: Block, p: Blocks)
    requires p != []
    ensures var first := Cipher(w, AddRoundKey(p[..16], prev)); Encrypted(w, prev, p) == first + Encrypted(w, first, p[16..])
  {
  }

  lemma DecryptOneStep(w: KeySchedule, prev: Block, c: Blocks)
    requires c != []
    ensures Decrypted(w, prev, c) == AddRoundKey(InvCipher(w, c[..16]), prev) + Decrypted(w, c[..16], c[16..])
  {
  }

  // What is done, and after it what `rest` becomes.
  function EncryptedAfter(done: seq<bv8>, w: KeySchedule, prev: Block, rest: Blocks): seq<bv8> {
    done + Encrypted(w, prev, rest)
  }

  lemma EncryptOneMore(done: seq<bv8>, block: seq<bv8>, w: KeySchedule, before: Block, prev: Block, rest: Blocks)
    requires rest != [] && Encrypted(w, before, rest) == block + Encrypted(w, prev, rest[16..])
    ensures EncryptedAfter(done + block, w, prev, rest[16..]) == EncryptedAfter(done, w, before, rest)
  {
    hide Encrypted;
  }

  lemma EncryptedNothing(done: seq<bv8>, w: KeySchedule, prev: Block, rest: Blocks)
    ensures rest == [] ==> EncryptedAfter(done, w, prev, rest) == done
    ensures done == [] ==> EncryptedAfter(done, w, prev, rest) == Encrypted(w, prev, rest)
  {
  }

  // What is done, and after it what `rest` becomes.
  function DecryptedAfter(done: seq<bv8>, w: KeySchedule, prev: Block, rest: Blocks): seq<bv8> {
    done + Decrypted(w, prev, rest)
  }

  lemma DecryptOneMore(done: seq<bv8>, block: seq<bv8>, w: KeySchedule, before: Block, prev: Block, rest: Blocks)
    requires rest != [] && Decrypted(w, before, rest) == block + Decrypted(w, prev, rest[16..])
    ensures DecryptedAfter(done + block, w, prev, rest[16..]) == DecryptedAfter(done, w, before, rest)
  {
    hide Decrypted;
  }

  lemma DecryptedNothing(done: seq<bv8>, w: KeySchedule, prev: Block, rest: Blocks)
    ensures rest == [] ==> DecryptedAfter(done, w, prev, rest) == done
    ensures done == [] ==> DecryptedAfter(done, w, prev, rest) == Decrypted(w, prev, rest)
  {
  }

  lemma SplicedNothing(b: seq<bv8>, start: nat)
    requires start <= |b|
    ensures Spliced(b, start, []) == b
  {
  }

  // memcpy of an IV into a local buffer.
  method CopyOf(iv: Block) returns (prev: array<bv8>)
    ensures fresh(prev) && prev[..] == iv
  {
    prev := new bv8[16](i requires 0 <= i < 16 => iv[i]);
  }

  // One turn of the loop: `rest` is what is still to be read.
  method CbcEncryptNext(ctx: Aes128Ctx, prev: array<bv8>, src: array<bv8>, srcOff: nat, dst: array<bv8>, dstOff: nat, ghost rest: Blocks)
    requires ctx.Valid() && prev.Length == 16 && prev != src && prev != dst
    requires srcOff + 16 <= src.Length && dstOff + 16 <= dst.Length
    requires rest != [] && src[srcOff..srcOff + 16] == rest[..16]
    modifies prev, dst
    ensures Encrypted(ctx.Schedule(), old(prev[..]), rest) == dst[dstOff..dstOff + 16] + Encrypted(ctx.Schedule(), prev[..], rest[16..])
    ensures dst[..dstOff] == old(dst[..dstOff]) && dst[dstOff + 16..] == old(dst[dstOff + 16..])
  {
    hide *;
    EncryptOneStep(ctx.Schedule(), prev[..], rest);
    EncryptOne(ctx, prev, src, srcOff, dst, dstOff);
  }

  // `dst` may be `src`, as the header promises, provided the two ranges coincide.
  method CbcEncrypt(key: Block, iv: Block, src: array<bv8>, srcOff: nat, dst: array<bv8>, dstOff: nat, len: nat)
    requires len % 16 == 0 && srcOff + len <= src.Length && dstOff + len <= dst.Length
    requires src == dst ==> srcOff == dstOff
    modifies dst
    ensures dst[..] == Spliced(old(dst[..]), dstOff, Encrypted(KeyExpansion(key), iv, old(src[srcOff..srcOff + len])))
  {
    hide *;
    ghost var plain: Blocks, w := src[srcOff..srcOff + len], KeyExpansion(key);
    var ctx := new Aes128Ctx(key);
    var prev := CopyOf(iv);
    ghost var done: seq<bv8>, rest := [], plain;
    SplicedNothing(dst[..], dstOff);
    EncryptedNothing(done, w, iv, rest);
    var off := 0;
    while off < len
      invariant off % 16 == 0 && |done| == off <= len && rest == plain[off..]
      invariant ctx.Schedule() == w
      invariant dst[..] == Spliced(old(dst[..]), dstOff, done)
      invariant src != dst ==> src[..] == old(src[..])
      invariant EncryptedAfter(done, w, prev[..], rest) == Encrypted(w, iv, plain)
    {
      ghost var before := prev[..];
      OneMoreFits(off, len);
      NextBlock(old(src[..]), srcOff, done, len);
      CbcEncryptNext(ctx, prev, src, srcOff + off, dst, dstOff + off, rest);
      ghost var block := dst[dstOff + off..dstOff + off + 16];
      SplicedFurther(old(dst[..]), dstOff, done, dst[..]);
      EncryptOneMore(done, block, w, before, prev[..], rest);
      Later(plain, off);
      done, rest := done + block, rest[16..];
      off := off + 16;
    }
    EncryptedNothing(done, w, prev[..], rest);
  }

  // One turn of the loop: `rest` is what is still to be read.
  method CbcDecryptNext(ctx: Aes128Ctx, prev: array<bv8>, src: array<bv8>, srcOff: nat, dst: array<bv8>, dstOff: nat, ghost rest: Blocks)
    requires ctx.Valid() && prev.Length == 16 && prev != src && prev != dst
    requires srcOff + 16 <= src.Length && dstOff + 16 <= dst.Length
    requires rest != [] && src[srcOff..srcOff + 16] == rest[..16]
    modifies prev, dst
    ensures Decrypted(ctx.Schedule(), old(prev[..]), rest) == dst[dstOff..dstOff + 16] + Decrypted(ctx.Schedule(), prev[..], rest[16..])
    ensures dst[..dstOff] == old(dst[..dstOff]) && dst[dstOff + 16..] == old(dst[dstOff + 16..])
  {
    hide *;
    DecryptOneStep(ctx.Schedule(), prev[..], rest);
    DecryptOne(ctx, prev, src, srcOff, dst, dstOff);
  }

  method CbcDecrypt(key: Block, iv: Block, src: array<bv8>, srcOff: nat, dst: array<bv8>, dstOff: nat, len: nat)
    requires len % 16 == 0 && srcOff + len <= src.Length && dstOff + len <= dst.Length
    requires src == dst ==> srcOff == dstOff
    modifies dst
    ensures dst[..] == Spliced(old(dst[..]), dstOff, Decrypted(KeyExpansion(key), iv, old(src[srcOff..srcOff + len])))
  {
    hide *;
    ghost var cipher: Blocks, w := src[srcOff..srcOff + len], KeyExpansion(key);
    var ctx := new Aes128Ctx(key);
    var prev := CopyOf(iv);
    ghost var done: seq<bv8>, rest := [], cipher;
    SplicedNothing(dst[..], dstOff);
    DecryptedNothing(done, w, iv, rest);
    var off := 0;
    while off < len
      invariant off % 16 == 0 && |done| == off <= len && rest == cipher[off..]
      invariant ctx.Schedule() == w
      invariant dst[..] == Spliced(old(dst[..]), dstOff, done)
      invariant src != dst ==> src[..] == old(src[..])
      invariant DecryptedAfter(done, w, prev[..], rest) == Decrypted(w, iv, cipher)
    {
      ghost var before := prev[..];
      OneMoreFits(off, len);
      NextBlock(old(src[..]), srcOff, done, len);
      CbcDecryptNext(ctx, prev, src, srcOff + off, dst, dstOff + off, rest);
      ghost var block := dst[dstOff + off..dstOff + off + 16];
      SplicedFurther(old(dst[..]), dstOff, done, dst[..]);
      DecryptOneMore(done, block, w, before, prev[..], rest);
      Later(cipher, off);
      done, rest := done + block, rest[16..];
      off := off + 16;
    }
    DecryptedNothing(done, w, prev[..], rest);
  }
}
