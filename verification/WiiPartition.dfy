// The partition reader of decompiler/src/wii_crypto.c: random access to the decrypted view
// through a cache of one group.

module WiiPartition {
  import opened Fips197
  import opened Cbc
  import opened PartitionView

  datatype WiiStatus = WiiOk | WiiErrIo

  const TICKET_ENC_TITLE_KEY: nat := 0x01BF
  const TICKET_TITLE_ID: nat := 0x01DC
  const PART_DATA_OFFSET_AT: nat := 0x02B8
  const HEADER_SIZE: nat := 0x02C0

  // memcpy between two buffers.
  method CopyRange(src: array<bv8>, srcOff: nat, dst: array<bv8>, dstOff: nat, n: nat)
    requires src != dst && srcOff + n <= src.Length && dstOff + n <= dst.Length
    modifies dst
    ensures dst[..] == Spliced(old(dst[..]), dstOff, src[srcOff..srcOff + n])
  {
    for i := 0 to n
      invariant dst[..] == Spliced(old(dst[..]), dstOff, src[srcOff..srcOff + i])
    {
      dst[dstOff + i] := src[srcOff + i];
    }
  }

  // A disc image. Reading may fail at any time, and always fails outside the image.
  class DiscImage {
    const bytes: seq<bv8>

    constructor (bytes: seq<bv8>)
      ensures this.bytes == bytes
    {
      this.bytes := bytes;
    }

    method ReadAt(off: nat, buf: array<bv8>) returns (st: WiiStatus)
      modifies buf
      ensures st.WiiOk? ==> off < TWO_63 && off + buf.Length <= |bytes| && buf[..] == bytes[off..off + buf.Length]
    {
      var fails: bool := *;
      if fails || off >= TWO_63 || off + buf.Length > |bytes| {
        return WiiErrIo;
      }
      for i := 0 to buf.Length
        invariant buf[..i] == bytes[off..off + i]
      {
        buf[i] := bytes[off + i];
      }
      return WiiOk;
    }
  }

  // The IV that protects the title key: the title id and eight zero bytes.
  function TitleIv(header: seq<bv8>): Block
    requires |header| == HEADER_SIZE
  {
    header[TICKET_TITLE_ID..TICKET_TITLE_ID + 8] + ZERO_BYTES[..8]
  }

  function TitleKey(commonKey: Block, header: seq<bv8>): Block
    requires |header| == HEADER_SIZE
  {
    Decrypted(KeyExpansion(commonKey), TitleIv(header), header[TICKET_ENC_TITLE_KEY..TICKET_ENC_TITLE_KEY + 16])
  }

  function DataOffset(header: seq<bv8>): nat
    requires |header| == HEADER_SIZE
  {
    Be32(header[PART_DATA_OFFSET_AT..PART_DATA_OFFSET_AT + 4]) * 4
  }

  // What a successful open must set up.
  function OpenedView(image: seq<bv8>, partitionOffset: nat, commonKey: Block): View
    requires partitionOffset + HEADER_SIZE <= |image|
  {
    var header := image[partitionOffset..partitionOffset + HEADER_SIZE];
    View(image, partitionOffset + DataOffset(header), TitleKey(commonKey, header))
  }

  // A partition as discs have it: the title key in the ticket, under the common key and an IV made of
  // the title id, and a quarter of the distance to the data after it.
  ghost predicate PartitionAt(image: seq<bv8>, at: nat, commonKey: Block, titleId: seq<bv8>, key: Block, distance: nat) {
    && at + 0x2C0 <= |image| && |titleId| == 8
    && image[at + 0x1DC..at + 0x1E4] == titleId
    && image[at + 0x1BF..at + 0x1CF] == Encrypted(KeyExpansion(commonKey), titleId + [0, 0, 0, 0, 0, 0, 0, 0], key)
    && distance == 4 * (0x1000000 * ToNat(image[at + 0x2B8]) + 0x10000 * ToNat(image[at + 0x2B9])
                        + 0x100 * ToNat(image[at + 0x2BA]) + ToNat(image[at + 0x2BB]))
  }

  // Opening it recovers the title key and finds the data.
  lemma OpenedAsWritten(image: seq<bv8>, at: nat, commonKey: Block, titleId: seq<bv8>, key: Block, distance: nat)
    requires PartitionAt(image, at, commonKey, titleId, key, distance)
    ensures OpenedView(image, at, commonKey) == View(image, at + distance, key)
  {
    hide KeyExpansion, Encrypted, Decrypted;
    var header := image[at..at + HEADER_SIZE];
    Within(image, at, HEADER_SIZE, 0x1DC, 8);
    Within(image, at, HEADER_SIZE, 0x1BF, 16);
    Within(image, at, HEADER_SIZE, 0x2B8, 4);
    assert ZERO_BYTES[..8] == [0, 0, 0, 0, 0, 0, 0, 0];
    assert TitleIv(header) == titleId + [0, 0, 0, 0, 0, 0, 0, 0];
    DecryptedUndoesEncrypted(KeyExpansion(commonKey), TitleIv(header), key);
    FourBytes(image, at + 0x2B8);
  }

  lemma Within(image: seq<bv8>, at: nat, len: nat, from: nat, n: nat)
    requires at + len <= |image| && from + n <= len
    ensures image[at..at + len][from..from + n] == image[at + from..at + from + n]
  {
    var a, b := image[at..at + len][from..from + n], image[at + from..at + from + n];
    assert |a| == |b|;
    forall i | 0 <= i < n
      ensures a[i] == b[i]
    {
      assert a[i] == image[at..at + len][from + i];
    }
  }

  lemma FourBytes(image: seq<bv8>, at: nat)
    requires at + 4 <= |image|
    ensures Be32(image[at..at + 4]) ==
      0x1000000 * ToNat(image[at]) + 0x10000 * ToNat(image[at + 1]) + 0x100 * ToNat(image[at + 2]) + ToNat(image[at + 3])
  {
    hide ToNat;
    var p := image[at..at + 4];
    assert p[0] == image[at] && p[1] == image[at + 1] && p[2] == image[at + 2] && p[3] == image[at + 3];
  }

  // What the copy out of one group must deliver.
  lemma ServedChunk(v: View, k: nat, take: nat)
    requires Readable(v, GroupOf(k)) && k % BLOCK_DATA_SIZE + take <= BLOCK_DATA_SIZE
    ensures SliceReadable(v, k, take)
    ensures Served(v, k, take) == PlainOf(v, GroupOf(k))[k % BLOCK_DATA_SIZE..k % BLOCK_DATA_SIZE + take]
  {
    hide Readable, PlainOf;
    forall j | k <= j < k + take
      ensures GroupOf(j) == GroupOf(k) && j % BLOCK_DATA_SIZE == k % BLOCK_DATA_SIZE + (j - k)
    {
      assert j / BLOCK_DATA_SIZE == k / BLOCK_DATA_SIZE;
    }
    forall i | 0 <= i < take
      ensures Served(v, k, take)[i] == PlainOf(v, GroupOf(k))[k % BLOCK_DATA_SIZE + i]
    {
      assert Served(v, k, take)[i] == ServedByte(v, k + i);
      assert GroupOf(k + i) == GroupOf(k) && (k + i) % BLOCK_DATA_SIZE == k % BLOCK_DATA_SIZE + i;
    }
  }

  lemma SplicedOnto(b: seq<bv8>, start: nat, done: seq<bv8>, more: seq<bv8>)
    requires start + |done| + |more| <= |b|
    ensures Spliced(Spliced(b, start, done), start + |done|, more) == Spliced(b, start, done + more)
  {
  }

  lemma SplicedKeeps(b: seq<bv8>, start: nat, done: seq<bv8>, len: nat)
    requires |done| <= len && start + len <= |b|
    ensures Spliced(b, start, done)[..start] == b[..start]
    ensures Spliced(b, start, done)[start + len..] == b[start + len..]
  {
  }

  lemma ServedNothing(v: View, off: nat)
    ensures SliceReadable(v, off, 0) && Served(v, off, 0) == []
  {
  }

  lemma ServedJoins(v: View, off: nat, n: nat, take: nat)
    requires SliceReadable(v, off, n) && SliceReadable(v, off + n, take)
    ensures SliceReadable(v, off, n + take)
    ensures Served(v, off, n + take) == Served(v, off, n) + Served(v, off + n, take)
  {
    hide Readable, ServedByte, GroupOf;
  }

  // ---- Where the 64-bit offset wraps around ----

  // The end of the group that holds the last offset. A chunk that starts below 2^64 ends here
  // at the latest, and the next one starts at what is left of this modulo 2^64.
  const LAST_END: nat := 0x1_0000_0000_0000_3C00

  lemma LastEndIsBoundary()
    ensures LAST_END % BLOCK_DATA_SIZE == 0 && TWO_64 <= LAST_END < TWO_64 + BLOCK_DATA_SIZE
  {
  }

  // A chunk does not reach past the end of its group.
  lemma ChunkEnds(x: nat, take: nat)
    requires x < LAST_END && x % BLOCK_DATA_SIZE + take <= BLOCK_DATA_SIZE
    ensures x + take <= LAST_END
    ensures x + take < LAST_END && x % BLOCK_DATA_SIZE + take == BLOCK_DATA_SIZE ==> x + take < TWO_64
  {
    LastEndIsBoundary();
    var g := x / BLOCK_DATA_SIZE;
    assert x == g * BLOCK_DATA_SIZE + x % BLOCK_DATA_SIZE;
    assert g < LAST_END / BLOCK_DATA_SIZE;
  }

  // The offset of the byte `n` after `off`, in the code's arithmetic.
  function Position(off: nat, n: nat): nat {
    if off + n < LAST_END then off + n else off + n - TWO_64
  }

  predicate ReadableFrom(v: View, off: nat, len: nat) {
    if off + len <= LAST_END then SliceReadable(v, off, len)
    else off < LAST_END && SliceReadable(v, off, LAST_END - off) && SliceReadable(v, LAST_END - TWO_64, off + len - LAST_END)
  }

  // What a read serves: a slice, or one up to the last group's end and one from where the
  // offset comes round to.
  function ServedFrom(v: View, off: nat, len: nat): (s: seq<bv8>)
    requires ReadableFrom(v, off, len)
    ensures |s| == len
  {
    if off + len <= LAST_END then Served(v, off, len)
    else Served(v, off, LAST_END - off) + Served(v, LAST_END - TWO_64, off + len - LAST_END)
  }

  // Without wrap-around it is the slice.
  lemma ServedFromIsServed(v: View, off: nat, len: nat)
    requires off + len <= TWO_64
    ensures ReadableFrom(v, off, len) <==> SliceReadable(v, off, len)
    ensures ReadableFrom(v, off, len) ==> ServedFrom(v, off, len) == Served(v, off, len)
  {
  }

  lemma ServedFromJoins(v: View, off: nat, n: nat, take: nat)
    requires off < TWO_64 && take > 0 && ReadableFrom(v, off, n) && SliceReadable(v, Position(off, n), take)
    requires off + n < LAST_END ==> off + n + take <= LAST_END
    ensures ReadableFrom(v, off, n + take)
    ensures ServedFrom(v, off, n + take) == ServedFrom(v, off, n) + Served(v, Position(off, n), take)
  {
    hide Served, SliceReadable;
    if off + n < LAST_END {
      ServedJoins(v, off, n, take);
    } else if off + n == LAST_END {
      assert Position(off, n) == LAST_END - TWO_64;
    } else {
      var m := off + n - LAST_END;
      ServedJoins(v, LAST_END - TWO_64, m, take);
      Associates(Served(v, off, LAST_END - off), Served(v, LAST_END - TWO_64, m), Served(v, Position(off, n), take));
    }
  }

  lemma Associates(a: seq<bv8>, b: seq<bv8>, c: seq<bv8>)
    ensures (a + b) + c == a + (b + c)
  {
  }

  class PartitionReader {
    const fp: DiscImage
    var partitionOffset: nat
    var dataOffset: nat
    const titleKey: array<bv8>
    var cachedGroup: nat
    var cacheValid: bool
    const cache: array<bv8>

    // The plaintext view that the reader's current key and position define.
    ghost function TheView(): View
      requires titleKey.Length == 16
      reads this, titleKey
    {
      View(fp.bytes, partitionOffset + dataOffset, titleKey[..])
    }

    // The cache holds what decrypting its group afresh gives.
    ghost predicate Valid()
      reads this, titleKey, cache
    {
      && titleKey.Length == 16 && cache.Length == BLOCK_DATA_SIZE && titleKey != cache
      && cachedGroup < TWO_32
      && (cacheValid ==> Readable(TheView(), cachedGroup) && cache[..] == PlainOf(TheView(), cachedGroup))
    }

    // The caller's zeroed structure.
    constructor (fp: DiscImage)
      ensures Valid() && this.fp == fp && fresh(titleKey) && fresh(cache)
      ensures !cacheValid
    {
      this.fp := fp;
      partitionOffset, dataOffset, cachedGroup, cacheValid := 0, 0, 0, false;
      titleKey := new bv8[16](_ => 0);
      cache := new bv8[BLOCK_DATA_SIZE](_ => 0);
    }

    method Open(partitionOffset: nat, commonKey: Block) returns (st: WiiStatus)
      requires Valid() && partitionOffset < TWO_64
      modifies this, titleKey
      ensures Valid() && !cacheValid
      ensures st.WiiOk? ==> partitionOffset + HEADER_SIZE <= |fp.bytes|
      ensures st.WiiOk? ==> TheView() == OpenedView(fp.bytes, partitionOffset, commonKey)
    {
      hide KeyExpansion, Decrypted;
      cacheValid := false;
      this.partitionOffset := partitionOffset;
      var hdr := new bv8[HEADER_SIZE];
      st := fp.ReadAt(partitionOffset, hdr);
      if st.WiiErrIo? {
        return;
      }
      var iv := hdr[TICKET_TITLE_ID..TICKET_TITLE_ID + 8] + ZERO_BYTES[..8];
      CbcDecrypt(commonKey, iv, hdr, TICKET_ENC_TITLE_KEY, titleKey, 0, 16);
      dataOffset := Be32(hdr[PART_DATA_OFFSET_AT..PART_DATA_OFFSET_AT + 4]) * 4;
    }

    // Decrypts the group in `enc` into the cache: first the prologue, for the payload's IV.
    method DecryptGroup(enc: array<bv8>)
      requires titleKey.Length == 16 && cache.Length == BLOCK_DATA_SIZE && titleKey != cache
      requires enc.Length == BLOCK_SIZE && enc != cache
      modifies cache
      ensures cache[..] == GroupPlain(titleKey[..], enc[..])
    {
      hide KeyExpansion, Decrypted;
      var hashPlain := new bv8[BLOCK_HASH_SIZE];
      CbcDecrypt(titleKey[..], ZERO_BYTES, enc, 0, hashPlain, 0, BLOCK_HASH_SIZE);
      assert enc[0..BLOCK_HASH_SIZE] == enc[..][..BLOCK_HASH_SIZE];
      var dataIv := hashPlain[GROUP_IV_AT..GROUP_IV_AT + 16];
      CbcDecrypt(titleKey[..], dataIv, enc, BLOCK_HASH_SIZE, cache, 0, BLOCK_DATA_SIZE);
      assert enc[BLOCK_HASH_SIZE..BLOCK_HASH_SIZE + BLOCK_DATA_SIZE] == enc[..][BLOCK_HASH_SIZE..];
      ghost var w := KeyExpansion(titleKey[..]);
      assert hashPlain[..] == Decrypted(w, ZERO_BYTES, enc[..][..BLOCK_HASH_SIZE]);
    }

    // Fills the cache from the encrypted bytes of `group`.
    method CacheGroup(group: nat, enc: array<bv8>)
      requires titleKey.Length == 16 && cache.Length == BLOCK_DATA_SIZE && titleKey != cache
      requires group < TWO_32 && Readable(TheView(), group)
      requires enc.Length == BLOCK_SIZE && enc != cache && enc[..] == RawGroup(TheView(), group)
      modifies this`cachedGroup, this`cacheValid, cache
      ensures Valid() && cacheValid && cachedGroup == group
    {
      hide GroupPlain, Readable, RawGroup;
      ghost var v := TheView();
      DecryptGroup(enc);
      assert cache[..] == PlainOf(v, group);
      cachedGroup := group;
      cacheValid := true;
      assert TheView() == v;
    }

    method FetchGroup(group: nat) returns (st: WiiStatus)
      requires Valid() && group < TWO_32
      modifies this`cachedGroup, this`cacheValid, cache
      ensures Valid()
      ensures st.WiiOk? ==> cacheValid && cachedGroup == group
      ensures st.WiiErrIo? ==> cacheValid == old(cacheValid) && cachedGroup == old(cachedGroup) && cache[..] == old(cache[..])
    {
      if cacheValid && cachedGroup == group {
        return WiiOk;
      }
      hide PlainOf;
      var base := (partitionOffset + dataOffset + group * BLOCK_SIZE) % TWO_64;
      var enc := new bv8[BLOCK_SIZE];
      st := fp.ReadAt(base, enc);
      if st.WiiOk? {
        CacheGroup(group, enc);
      }
    }

    // One turn of the read loop: copies what is wanted of the group of offset `k`.
    method ReadChunk(k: nat, buf: array<bv8>, at: nat, left: nat) returns (st: WiiStatus, take: nat)
      requires Valid() && at + left <= buf.Length && left > 0
      requires buf != cache && buf != titleKey
      modifies this`cachedGroup, this`cacheValid, cache, buf
      ensures Valid() && 0 < take <= left
      ensures k % BLOCK_DATA_SIZE + take <= BLOCK_DATA_SIZE && (take < left ==> k % BLOCK_DATA_SIZE + take == BLOCK_DATA_SIZE)
      ensures st.WiiOk? ==> SliceReadable(TheView(), k, take) && buf[..] == Spliced(old(buf[..]), at, Served(TheView(), k, take))
      ensures st.WiiErrIo? ==> buf[..] == old(buf[..])
    {
      var group := k / BLOCK_DATA_SIZE % TWO_32;
      var within := k % BLOCK_DATA_SIZE;
      var avail := BLOCK_DATA_SIZE - within;
      take := if left < avail then left else avail;
      st := FetchGroup(group);
      if st.WiiErrIo? {
        return;
      }
      hide Served, ServedByte, PlainOf, Readable, Spliced;
      CopyRange(cache, within, buf, at, take);
      ServedChunk(TheView(), k, take);
    }

    // A successful read delivers the served bytes, whatever was read before it. A failed one
    // leaves the reader valid and the bytes around the destination alone.
    method Read(offset: nat, buf: array<bv8>, bufOff: nat, len: nat) returns (st: WiiStatus)
      requires Valid() && offset < TWO_64 && len < TWO_64 && bufOff + len <= buf.Length
      requires buf != cache && buf != titleKey
      modifies this`cachedGroup, this`cacheValid, cache, buf
      ensures Valid() && TheView() == old(TheView())
      ensures st.WiiOk? ==>
        ReadableFrom(TheView(), offset, len) && buf[..] == Spliced(old(buf[..]), bufOff, ServedFrom(TheView(), offset, len))
      ensures buf[..bufOff] == old(buf[..bufOff]) && buf[bufOff + len..] == old(buf[bufOff + len..])
    {
      hide Served, ServedByte, PlainOf, Readable, SliceReadable, Spliced, ServedFrom, ReadableFrom;
      ghost var v, b := TheView(), buf[..];
      var at, k, left := bufOff, offset, len;
      ghost var done: seq<bv8> := [];
      ServedNothing(v, offset);
      ServedFromIsServed(v, offset, 0);
      SplicedNothing(b, bufOff);
      while left > 0
        invariant Valid() && TheView() == v
        invariant at == bufOff + |done| && left == len - |done| >= 0 && (left > 0 ==> k == Position(offset, |done|) < TWO_64)
        invariant buf[..] == Spliced(b, bufOff, done)
        invariant ReadableFrom(v, offset, |done|) && done == ServedFrom(v, offset, |done|)
      {
        var take;
        st, take := ReadChunk(k, buf, at, left);
        if st.WiiErrIo? {
          SplicedKeeps(b, bufOff, done, len);
          return;
        }
        ChunkEnds(k, take);
        ServedFromJoins(v, offset, |done|, take);
        SplicedOnto(b, bufOff, done, Served(v, k, take));
        done := done + Served(v, k, take);
        at, k, left := at + take, (k + take) % TWO_64, left - take;
      }
      SplicedKeeps(b, bufOff, done, len);
      return WiiOk;
    }
  }
}
