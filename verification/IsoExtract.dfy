// Sizing and extracting main.dol (decompiler/src/iso.c:106-206).

module IsoExtract {
  import opened Fips197
  import opened Cbc
  import opened PartitionView
  import opened WiiPartition
  import opened Dol

  datatype IsoStatus = IsoOk | IsoNullArg | IsoIo | IsoUnknownFormat | IsoEncrypted

  datatype IsoFormat = FormatUnknown | FormatGameCube | FormatWii

  datatype IsoInfo = IsoInfo(format: IsoFormat, gcDolOffset: nat, partitionOffsets: seq<nat>)

  const BOOT_SIZE: nat := 0x440
  const PART_DOL_OFFSET_AT: nat := 0x420

  // The end of a slot's section as the sizing loop computes it: the 32-bit sum may wrap.
  function WrappedEnd(s: DolSection): nat {
    (s.fileOffset + s.size) % TWO_32
  }

  // The size the sizing loops reach after the first `n` slots of a header.
  function MaxEnd(hdr: seq<bv8>, n: nat): nat
    requires |hdr| >= DOL_HEADER_SIZE && n <= SLOTS
  {
    if n == 0 then DOL_HEADER_SIZE
    else
      var s, m := Slot(hdr, n - 1), MaxEnd(hdr, n - 1);
      if s.size != 0 && WrappedEnd(s) > m then WrappedEnd(s) else m
  }

  // The result is the largest of the header's end and the sections' computed ends.
  lemma {:induction false} MaxEndIsMax(hdr: seq<bv8>, n: nat)
    requires |hdr| >= DOL_HEADER_SIZE && n <= SLOTS
    ensures DOL_HEADER_SIZE <= MaxEnd(hdr, n) < TWO_32
    ensures forall k :: 0 <= k < n && Slot(hdr, k).size != 0 ==> WrappedEnd(Slot(hdr, k)) <= MaxEnd(hdr, n)
    ensures MaxEnd(hdr, n) == DOL_HEADER_SIZE || exists k :: 0 <= k < n && Slot(hdr, k).size != 0 && MaxEnd(hdr, n) == WrappedEnd(Slot(hdr, k))
  {
    hide Slot;
    if n > 0 {
      MaxEndIsMax(hdr, n - 1);
    }
  }

  lemma MaxEndBounds(hdr: seq<bv8>)
    requires |hdr| >= DOL_HEADER_SIZE
    ensures DOL_HEADER_SIZE <= MaxEnd(hdr, SLOTS) < TWO_32
  {
    MaxEndIsMax(hdr, SLOTS);
  }

  function Grown(m: nat, off: nat, sz: nat): nat {
    if sz != 0 && (off + sz) % TWO_32 > m then (off + sz) % TWO_32 else m
  }

  lemma MaxEndGrows(hdr: seq<bv8>, k: nat)
    requires |hdr| >= DOL_HEADER_SIZE && k < SLOTS
    ensures k < MAX_TEXT_SECTIONS ==>
      MaxEnd(hdr, k + 1) == Grown(MaxEnd(hdr, k), U32At(hdr, TEXT_OFFSETS_AT + 4 * k), U32At(hdr, TEXT_SIZES_AT + 4 * k))
    ensures k >= MAX_TEXT_SECTIONS ==> var i := k - MAX_TEXT_SECTIONS;
      MaxEnd(hdr, k + 1) == Grown(MaxEnd(hdr, k), U32At(hdr, DATA_OFFSETS_AT + 4 * i), U32At(hdr, DATA_SIZES_AT + 4 * i))
  {
    hide U32At;
  }

  // One turn of either sizing loop.
  method Grow(maxEnd: nat, off: nat, sz: nat) returns (m: nat)
    ensures m == Grown(maxEnd, off, sz)
  {
    m := maxEnd;
    if sz != 0 && (off + sz) % TWO_32 > maxEnd {
      m := (off + sz) % TWO_32;
    }
  }

  method SizeOfDol(hdr: seq<bv8>) returns (maxEnd: nat)
    requires |hdr| == DOL_HEADER_SIZE
    ensures maxEnd == MaxEnd(hdr, SLOTS)
    ensures DOL_HEADER_SIZE <= maxEnd < TWO_32
  {
    hide U32At, MaxEnd, Grown;
    MaxEndNothing(hdr);
    MaxEndBounds(hdr);
    maxEnd := 0x100;
    for i := 0 to MAX_TEXT_SECTIONS
      invariant maxEnd == MaxEnd(hdr, i)
    {
      MaxEndGrows(hdr, i);
      maxEnd := Grow(maxEnd, U32At(hdr, TEXT_OFFSETS_AT + 4 * i), U32At(hdr, TEXT_SIZES_AT + 4 * i));
    }
    for i := 0 to MAX_DATA_SECTIONS
      invariant maxEnd == MaxEnd(hdr, MAX_TEXT_SECTIONS + i)
    {
      MaxEndGrows(hdr, MAX_TEXT_SECTIONS + i);
      maxEnd := Grow(maxEnd, U32At(hdr, DATA_OFFSETS_AT + 4 * i), U32At(hdr, DATA_SIZES_AT + 4 * i));
    }
  }

  lemma MaxEndNothing(hdr: seq<bv8>)
    requires |hdr| >= DOL_HEADER_SIZE
    ensures MaxEnd(hdr, 0) == DOL_HEADER_SIZE
  {
  }

  // A header's slots are read from its first 0x100 bytes only.
  lemma SlotOfPrefix(b: seq<bv8>, k: nat)
    requires |b| >= DOL_HEADER_SIZE && k < SLOTS
    ensures Slot(b, k) == Slot(b[..DOL_HEADER_SIZE], k)
  {
    hide Be32;
    forall at | 0 <= at && at + 4 <= DOL_HEADER_SIZE
      ensures U32At(b, at) == U32At(b[..DOL_HEADER_SIZE], at)
    {
      assert b[at..at + 4] == b[..DOL_HEADER_SIZE][at..at + 4];
    }
  }

  predicate Sized(b: seq<bv8>) {
    |b| >= DOL_HEADER_SIZE && |b| == MaxEnd(b[..DOL_HEADER_SIZE], SLOTS)
  }

  // What sizing and the parser's tests say of one slot of a buffer of the computed size.
  lemma SizedSlot(b: seq<bv8>, k: nat)
    requires Sized(b) && k < SLOTS
    ensures |b| < TWO_32 && Slot(b, k) == Slot(b[..DOL_HEADER_SIZE], k)
    ensures Slot(b, k).fileOffset + Slot(b, k).size < TWO_32 ==> WrappedEnd(Slot(b, k)) == Slot(b, k).fileOffset + Slot(b, k).size
    ensures Slot(b, k).size != 0 ==> WrappedEnd(Slot(b, k)) <= |b|
  {
    hide U32At, MaxEnd;
    MaxEndIsMax(b[..DOL_HEADER_SIZE], SLOTS);
    SlotOfPrefix(b, k);
  }

  // A buffer of the computed size never runs out under the parser, even when sums wrap.
  lemma SizedNeverTooSmall(b: seq<bv8>)
    requires Sized(b)
    ensures ParseStatus(b) != DolTooSmall && ParseStatus(b) != DolBadSection
  {
    hide Slot, MaxEnd, EntryInText, FirstBad;
    FirstBadIsFirst(b, SLOTS);
    if FirstBad(b, SLOTS) != DolOk {
      var k :| 0 <= k < SLOTS && BlamedOn(b, SLOTS, k);
      SizedSlot(b, k);
    }
  }

  // No section's end is past the 32-bit range.
  predicate NoWrap(b: seq<bv8>)
    requires |b| >= DOL_HEADER_SIZE
  {
    forall k :: 0 <= k < SLOTS && Slot(b, k).size != 0 ==> Slot(b, k).fileOffset + Slot(b, k).size < TWO_32
  }

  // Every section ends inside the buffer, and the header or some section ends with it.
  predicate ExactCover(b: seq<bv8>)
    requires |b| >= DOL_HEADER_SIZE
  {
    && (forall k :: 0 <= k < SLOTS && Slot(b, k).size != 0 ==> Slot(b, k).fileOffset + Slot(b, k).size <= |b|)
    && (|b| == DOL_HEADER_SIZE || exists k :: 0 <= k < SLOTS && Slot(b, k).size != 0 && Slot(b, k).fileOffset + Slot(b, k).size == |b|)
  }

  // The computed size is that of the furthest section end exactly when no end wraps.
  lemma SizedCoversAll(b: seq<bv8>)
    requires Sized(b)
    ensures NoWrap(b) <==> ExactCover(b)
  {
    var hdr := b[..DOL_HEADER_SIZE];
    MaxEndIsMax(hdr, SLOTS);
    hide Slot, MaxEnd, WrappedEnd;
    SizedSlot(b, 0);
    if NoWrap(b) {
      forall k | 0 <= k < SLOTS && Slot(b, k).size != 0
        ensures Slot(b, k) == Slot(hdr, k) && WrappedEnd(Slot(b, k)) == Slot(b, k).fileOffset + Slot(b, k).size <= |b|
      {
        SizedSlot(b, k);
      }
      if |b| != DOL_HEADER_SIZE {
        var k :| 0 <= k < SLOTS && Slot(hdr, k).size != 0 && |b| == WrappedEnd(Slot(hdr, k));
        SizedSlot(b, k);
      }
    }
  }

  // A buffer with an end that wraps is never accepted: some section is found to overflow, or one
  // before it to be misaligned.
  lemma WrappingRejected(b: seq<bv8>)
    requires Sized(b) && !NoWrap(b)
    ensures ParseStatus(b) == DolOverflow || (ParseStatus(b) == DolMisaligned && !Aligned(b))
  {
    SizedNeverTooSmall(b);
    FirstBadIsFirst(b, SLOTS);
    hide Slot, MaxEnd, EntryInText, FirstBad;
  }

  // The offset, address and size of every section are multiples of 4.
  predicate Aligned(b: seq<bv8>)
    requires |b| >= DOL_HEADER_SIZE
  {
    forall k :: 0 <= k < SLOTS && Slot(b, k).size != 0 ==>
      Slot(b, k).fileOffset % 4 == 0 && Slot(b, k).virtualAddr % 4 == 0 && Slot(b, k).size % 4 == 0
  }

  // A header whose one section, at 0xFFFFFFFC with size 8, ends past 2^32.
  function WrappingHeader(): (b: seq<bv8>)
    ensures |b| == DOL_HEADER_SIZE
  {
    seq(DOL_HEADER_SIZE, i => if i < 3 then 0xFF else if i == 3 then 0xFC else if i == TEXT_SIZES_AT + 3 then 8 else 0)
  }

  lemma WrappingFields(at: nat)
    requires at + 4 <= DOL_HEADER_SIZE
    ensures at == 0 ==> U32At(WrappingHeader(), at) == 0xFFFF_FFFC
    ensures at == TEXT_SIZES_AT ==> U32At(WrappingHeader(), at) == 8
    ensures 4 <= at && (at + 4 <= TEXT_SIZES_AT + 3 || at > TEXT_SIZES_AT + 3) ==> U32At(WrappingHeader(), at) == 0
  {
    var p := WrappingHeader()[at..at + 4];
    assert forall i :: 0 <= i < 4 ==> p[i] == WrappingHeader()[at + i];
    BytesOfWord(p);
    hide Be32;
  }

  lemma BytesOfWord(p: seq<bv8>)
    requires |p| == 4
    ensures p[0] == p[1] == p[2] == p[3] == 0 ==> Be32(p) == 0
    ensures p[0] == p[1] == p[2] == 0 && p[3] == 8 ==> Be32(p) == 8
    ensures p[0] == p[1] == p[2] == 0xFF && p[3] == 0xFC ==> Be32(p) == 0xFFFF_FFFC
  {
  }

  lemma WrappingSlot(k: nat)
    requires k < SLOTS
    ensures var s := Slot(WrappingHeader(), k);
      if k == 0 then s.fileOffset == 0xFFFF_FFFC && s.virtualAddr == 0 && s.size == 8 else s.size == 0
  {
    hide U32At, WrappingHeader;
    if k == 0 {
      WrappingFields(TEXT_OFFSETS_AT);
      WrappingFields(TEXT_ADDRS_AT);
      WrappingFields(TEXT_SIZES_AT);
    } else {
      WrappingFields(if k < MAX_TEXT_SECTIONS then TEXT_SIZES_AT + 4 * k else DATA_SIZES_AT + 4 * (k - MAX_TEXT_SECTIONS));
    }
  }

  lemma WrappedEarly()
    ensures (0xFFFF_FFFC + 8) % TWO_32 == 4
  {
  }

  lemma {:induction false} WrappingSize(n: nat)
    requires n <= SLOTS
    ensures MaxEnd(WrappingHeader(), n) == DOL_HEADER_SIZE
  {
    hide Slot, WrappingHeader;
    if n > 0 {
      WrappingSize(n - 1);
      WrappingSlot(n - 1);
      WrappedEarly();
    }
  }

  // For such a header the extracted buffer is the header alone: the computed size falls short
  // of the section's end, and the parser answers with an overflow.
  lemma WrappingHappens()
    ensures var b := WrappingHeader();
      Sized(b) && !NoWrap(b) && !ExactCover(b) && ParseStatus(b) == DolOverflow
  {
    hide Slot, WrappingHeader, MaxEnd, FirstBad, EntryInText;
    var b := WrappingHeader();
    assert b[..DOL_HEADER_SIZE] == b;
    WrappingSize(SLOTS);
    WrappingSlot(0);
    SizedCoversAll(b);
    FirstBadOfFirst(b);
  }

  lemma FirstBadOfFirst(b: seq<bv8>)
    requires |b| >= DOL_HEADER_SIZE && SlotStatus(Slot(b, 0), |b|) != DolOk
    ensures FirstBad(b, SLOTS) == SlotStatus(Slot(b, 0), |b|)
  {
    hide Slot, SlotStatus;
    FirstBadIsFirst(b, SLOTS);
    var k :| 0 <= k < SLOTS && BlamedOn(b, SLOTS, k);
  }

  function DolOffset(boot: seq<bv8>): nat
    requires |boot| == BOOT_SIZE
  {
    U32At(boot, PART_DOL_OFFSET_AT) * 4
  }

  // The extracted bytes are main.dol as the partition's plaintext holds it: the slice that
  // starts where the boot header says, as long as its own header says.
  predicate IsDolOf(v: View, b: seq<bv8>) {
    && Sized(b)
    && SliceReadable(v, 0, BOOT_SIZE)
    && var off := DolOffset(Served(v, 0, BOOT_SIZE));
    && SliceReadable(v, off, |b|)
    && b == Served(v, off, |b|)
  }

  // Offsets in the boot header are far below 2^32 groups, so the executable is a slice of the
  // flat plaintext ...
  lemma DolIsFlat(v: View, b: seq<bv8>, groups: nat)
    requires IsDolOf(v, b) && AllReadable(v, groups) && BOOT_SIZE <= groups * BLOCK_DATA_SIZE
    requires DolOffset(Served(v, 0, BOOT_SIZE)) + |b| <= groups * BLOCK_DATA_SIZE
    ensures var flat := Flat(v, groups); var off := DolOffset(flat[..BOOT_SIZE]);
      off + |b| <= |flat| && b == flat[off..off + |b|]
  {
    hide Served, SliceReadable, Flat, AllReadable, DolOffset, MaxEnd;
    var off := DolOffset(Served(v, 0, BOOT_SIZE));
    OffsetBound(Served(v, 0, BOOT_SIZE));
    MaxEndBounds(b[..DOL_HEADER_SIZE]);
    ServedIsFlat(v, groups, 0, BOOT_SIZE);
    ServedIsFlat(v, groups, off, |b|);
    assert Flat(v, groups)[0..0 + BOOT_SIZE] == Flat(v, groups)[..BOOT_SIZE];
  }

  // ... and of the payload that the partition was written from.
  lemma DolIsPayload(v: View, b: seq<bv8>, hashes: seq<seq<bv8>>, payload: seq<bv8>)
    requires forall h :: h in hashes ==> |h| == BLOCK_HASH_SIZE
    requires |payload| == |hashes| * BLOCK_DATA_SIZE && BOOT_SIZE <= |payload|
    requires v.start + |hashes| * BLOCK_SIZE <= |v.image| < TWO_63
    requires v.image[v.start..v.start + |hashes| * BLOCK_SIZE] == EncryptGroups(v.key, hashes, payload)
    requires IsDolOf(v, b) && DolOffset(Served(v, 0, BOOT_SIZE)) + |b| <= |payload|
    ensures var off := DolOffset(payload[..BOOT_SIZE]); off + |b| <= |payload| && b == payload[off..off + |b|]
  {
    hide IsDolOf, Served, SliceReadable, Flat, AllReadable, DolOffset, EncryptGroups;
    ImageRoundTrip(v, hashes, payload);
    DolIsFlat(v, b, |hashes|);
  }

  // An executable that the payload holds where its boot header points to, and that ends with its
  // last section, is what comes out.
  lemma WrittenIsExtracted(v: View, b: seq<bv8>, hashes: seq<seq<bv8>>, payload: seq<bv8>, at: nat, dol: seq<bv8>)
    requires forall h :: h in hashes ==> |h| == BLOCK_HASH_SIZE
    requires |payload| == |hashes| * BLOCK_DATA_SIZE && 0x440 <= |payload|
    requires v.start + |hashes| * BLOCK_SIZE <= |v.image| < TWO_63
    requires v.image[v.start..v.start + |hashes| * BLOCK_SIZE] == EncryptGroups(v.key, hashes, payload)
    requires at == 4 * Field(payload, 0x420) && at + |dol| <= |payload| && payload[at..at + |dol|] == dol
    requires 0x100 <= |dol| < TWO_32 && ExactCover(dol)
    requires IsDolOf(v, b)
    ensures b == dol
  {
    BootPointsAt(payload, at);
    CoverIsSized(dol);
    hide *;
    StartsAlike(v, b, hashes, payload, at, dol);
    DolIsPayload(v, b, hashes, payload);
  }

  // Its header is that of the executable, so it is as long, and what the payload has there.
  lemma StartsAlike(v: View, b: seq<bv8>, hashes: seq<seq<bv8>>, payload: seq<bv8>, at: nat, dol: seq<bv8>)
    requires forall h :: h in hashes ==> |h| == BLOCK_HASH_SIZE
    requires |payload| == |hashes| * BLOCK_DATA_SIZE && BOOT_SIZE <= |payload|
    requires v.start + |hashes| * BLOCK_SIZE <= |v.image| < TWO_63
    requires v.image[v.start..v.start + |hashes| * BLOCK_SIZE] == EncryptGroups(v.key, hashes, payload)
    requires DolOffset(payload[..BOOT_SIZE]) == at && at + |dol| <= |payload| && payload[at..at + |dol|] == dol
    requires DOL_HEADER_SIZE <= |dol| == MaxEnd(dol[..DOL_HEADER_SIZE], SLOTS) && IsDolOf(v, b)
    ensures DolOffset(Served(v, 0, BOOT_SIZE)) == at && |b| == |dol|
  {
    hide MaxEnd, Slot, ExactCover, EncryptGroups, Served, SliceReadable, DolOffset, Field, Flat, AllReadable;
    ImageRoundTrip(v, hashes, payload);
    ServedIsFlat(v, |hashes|, 0, BOOT_SIZE);
    assert payload[0..BOOT_SIZE] == payload[..BOOT_SIZE];
    OffsetBound(payload[..BOOT_SIZE]);
    ServedPrefix(v, at, |b|, DOL_HEADER_SIZE);
    ServedIsFlat(v, |hashes|, at, DOL_HEADER_SIZE);
    assert payload[at..at + |dol|][..DOL_HEADER_SIZE] == payload[at..at + DOL_HEADER_SIZE];
    assert b[..DOL_HEADER_SIZE] == dol[..DOL_HEADER_SIZE];
  }

  lemma BootPointsAt(payload: seq<bv8>, at: nat)
    requires BOOT_SIZE <= |payload| && at == 4 * Field(payload, 0x420)
    ensures DolOffset(payload[..BOOT_SIZE]) == at
  {
    FieldIs(payload[..BOOT_SIZE], 0x420);
    assert Field(payload[..BOOT_SIZE], 0x420) == Field(payload, 0x420);
  }

  // A file that ends with its last section has the size that the loops compute.
  lemma CoverIsSized(dol: seq<bv8>)
    requires DOL_HEADER_SIZE <= |dol| < TWO_32 && ExactCover(dol)
    ensures |dol| == MaxEnd(dol[..DOL_HEADER_SIZE], SLOTS)
  {
    var header := dol[..DOL_HEADER_SIZE];
    MaxEndIsMax(header, SLOTS);
    hide Slot, MaxEnd, WrappedEnd;
    forall k | 0 <= k < SLOTS && Slot(dol, k).size != 0
      ensures Slot(header, k) == Slot(dol, k) && WrappedEnd(Slot(dol, k)) == Slot(dol, k).fileOffset + Slot(dol, k).size
    {
      SlotOfPrefix(dol, k);
      EndWithin(Slot(dol, k), |dol|);
    }
    if MaxEnd(header, SLOTS) != DOL_HEADER_SIZE {
      var k :| 0 <= k < SLOTS && Slot(header, k).size != 0 && MaxEnd(header, SLOTS) == WrappedEnd(Slot(header, k));
      SlotOfPrefix(dol, k);
    }
    if |dol| != DOL_HEADER_SIZE {
      var k :| 0 <= k < SLOTS && Slot(dol, k).size != 0 && Slot(dol, k).fileOffset + Slot(dol, k).size == |dol|;
    }
  }

  lemma EndWithin(s: DolSection, size: nat)
    requires s.fileOffset + s.size <= size < TWO_32
    ensures WrappedEnd(s) == s.fileOffset + s.size
  {
  }

  lemma OffsetBound(boot: seq<bv8>)
    requires |boot| == BOOT_SIZE
    ensures DolOffset(boot) < 4 * TWO_32
  {
  }

  lemma ServedPrefix(v: View, off: nat, len: nat, n: nat)
    requires SliceReadable(v, off, len) && n <= len
    ensures SliceReadable(v, off, n) && Served(v, off, len)[..n] == Served(v, off, n)
  {
    hide Readable, ServedByte, GroupOf;
  }

  lemma SplicedAll(b: seq<bv8>, s: seq<bv8>)
    requires |b| == |s|
    ensures Spliced(b, 0, s) == s
  {
  }

  method ReadWhole(r: PartitionReader, off: nat, n: nat) returns (st: WiiStatus, buf: array<bv8>)
    requires r.Valid() && off + n < TWO_64
    modifies r`cachedGroup, r`cacheValid, r.cache
    ensures r.Valid() && r.TheView() == old(r.TheView())
    ensures fresh(buf) && buf.Length == n
    ensures st.WiiOk? ==> SliceReadable(r.TheView(), off, n) && buf[..] == Served(r.TheView(), off, n)
  {
    ghost var v := r.TheView();
    hide Served, SliceReadable, Spliced, ServedFrom, ReadableFrom;
    buf := new bv8[n];
    ghost var b := buf[..];
    ServedFromIsServed(v, off, n);
    st := r.Read(off, buf, 0, n);
    if st.WiiOk? {
      SplicedAll(b, Served(v, off, n));
    }
  }

  // Finds, sizes and reads main.dol through an open reader.
  method ReadDol(r: PartitionReader) returns (st: WiiStatus, buf: array?<bv8>)
    requires r.Valid()
    modifies r`cachedGroup, r`cacheValid, r.cache
    ensures buf == null <==> st != WiiOk
    ensures st.WiiOk? ==> IsDolOf(old(r.TheView()), buf[..])
  {
    ghost var v := r.TheView();
    hide Served, SliceReadable, MaxEnd, U32At;
    buf := null;
    var boot, hdr, dol;
    st, boot := ReadWhole(r, 0, BOOT_SIZE);
    if st != WiiOk {
      return;
    }
    var dolOff := DolOffset(boot[..]);
    st, hdr := ReadWhole(r, dolOff, DOL_HEADER_SIZE);
    if st != WiiOk {
      return;
    }
    var maxEnd := SizeOfDol(hdr[..]);
    st, dol := ReadWhole(r, dolOff, maxEnd);
    if st != WiiOk {
      return;
    }
    ServedPrefix(v, dolOff, maxEnd, DOL_HEADER_SIZE);
    buf := dol;
  }

  // Any failure of the reader is reported as IsoEncrypted.
  method ExtractWiiDol(fp: DiscImage, info: IsoInfo, index: nat, commonKey: Block)
    returns (st: IsoStatus, buf: array?<bv8>)
    requires forall p :: p in info.partitionOffsets ==> p < TWO_32
    ensures st == IsoUnknownFormat <==> info.format != FormatWii
    ensures st == IsoNullArg <==> info.format == FormatWii && index >= |info.partitionOffsets|
    ensures st == IsoOk || st == IsoEncrypted || st == IsoUnknownFormat || st == IsoNullArg
    ensures buf == null <==> st != IsoOk
    ensures st == IsoOk ==> info.partitionOffsets[index] + HEADER_SIZE <= |fp.bytes|
    ensures st == IsoOk ==> IsDolOf(OpenedView(fp.bytes, info.partitionOffsets[index], commonKey), buf[..])
  {
    buf := null;
    if info.format != FormatWii {
      return IsoUnknownFormat, null;
    }
    if index >= |info.partitionOffsets| {
      return IsoNullArg, null;
    }
    hide IsDolOf, OpenedView;
    var r := new PartitionReader(fp);
    assert info.partitionOffsets[index] in info.partitionOffsets;
    var wst := r.Open(info.partitionOffsets[index], commonKey);
    if wst != WiiOk {
      return IsoEncrypted, null;
    }
    wst, buf := ReadDol(r);
    st := if wst == WiiOk then IsoOk else IsoEncrypted;
  }

  method ReadRaw(fp: DiscImage, off: nat, n: nat) returns (st: WiiStatus, buf: array<bv8>)
    ensures fresh(buf) && buf.Length == n
    ensures st.WiiOk? ==> off + n <= |fp.bytes| && buf[..] == fp.bytes[off..off + n]
  {
    buf := new bv8[n];
    st := fp.ReadAt(off, buf);
  }

  lemma PrefixOfSlice(b: seq<bv8>, off: nat, n: nat, m: nat)
    requires m <= n && off + n <= |b|
    ensures b[off..off + n][..m] == b[off..off + m]
  {
  }

  method ReadGcDol(fp: DiscImage, off: nat) returns (st: WiiStatus, buf: array<bv8>)
    ensures st.WiiOk? ==> Sized(buf[..]) && off + buf.Length <= |fp.bytes| && buf[..] == fp.bytes[off..off + buf.Length]
  {
    hide *;
    st, buf := ReadRaw(fp, off, DOL_HEADER_SIZE);
    if st.WiiOk? {
      ghost var hdr := buf[..];
      var maxEnd := SizeOfDol(buf[..]);
      st, buf := ReadRaw(fp, off, maxEnd);
      if st.WiiOk? {
        PrefixOfSlice(fp.bytes, off, maxEnd, DOL_HEADER_SIZE);
        IsSized(buf[..], hdr);
      }
    }
  }

  lemma IsSized(b: seq<bv8>, hdr: seq<bv8>)
    requires |b| >= DOL_HEADER_SIZE && b[..DOL_HEADER_SIZE] == hdr && |b| == MaxEnd(hdr, SLOTS)
    ensures Sized(b)
  {
  }

  method ExtractGcDol(fp: DiscImage, info: IsoInfo) returns (st: IsoStatus, buf: array?<bv8>)
    requires info.gcDolOffset < TWO_32
    ensures st == IsoEncrypted <==> info.format == FormatWii
    ensures st == IsoUnknownFormat <==> info.format == FormatUnknown
    ensures buf == null <==> st != IsoOk
    ensures st == IsoOk ==> Sized(buf[..]) && info.gcDolOffset + buf.Length <= |fp.bytes|
    ensures st == IsoOk ==> buf[..] == fp.bytes[info.gcDolOffset..info.gcDolOffset + buf.Length]
  {
    match info.format
    case FormatWii => return IsoEncrypted, null;
    case FormatUnknown => return IsoUnknownFormat, null;
    case FormatGameCube =>
      hide *;
      var wst, dol := ReadGcDol(fp, info.gcDolOffset);
      if wst != WiiOk {
        return IsoIo, null;
      }
      return IsoOk, dol;
  }
}
