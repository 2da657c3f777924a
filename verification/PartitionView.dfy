// The decrypted user-data view of a Wii partition (decompiler/src/wii_crypto.c): what the
// cached reader of WiiPartition.dfy must return.

module PartitionView {
  import opened Fips197
  import opened Cbc

  const BLOCK_SIZE: nat := 0x8000
  const BLOCK_DATA_SIZE: nat := 0x7C00
  const BLOCK_HASH_SIZE: nat := 0x0400
  const GROUP_IV_AT: nat := 0x03D0
  const TWO_32: nat := 0x1_0000_0000
  const TWO_63: nat := 0x8000_0000_0000_0000
  const TWO_64: nat := 0x1_0000_0000_0000_0000

  function ToNat(b: bv8): (n: nat)
    ensures n < 0x100
  {
    b as nat
  }

  // A big-endian 32-bit field.
  function Be32(p: seq<bv8>): (r: nat)
    requires |p| == 4
    ensures r < TWO_32
  {
    0x100_0000 * ToNat(p[0]) + 0x1_0000 * ToNat(p[1]) + 0x100 * ToNat(p[2]) + ToNat(p[3])
  }

  // The payload of one encrypted group: the IV of the payload is inside the hash prologue.
  function GroupPlain(key: Block, enc: seq<bv8>): (p: seq<bv8>)
    requires |enc| == BLOCK_SIZE
    ensures |p| == BLOCK_DATA_SIZE
  {
    var w := KeyExpansion(key);
    var hash := Decrypted(w, ZERO_BYTES, enc[..BLOCK_HASH_SIZE]);
    Decrypted(w, hash[GROUP_IV_AT..GROUP_IV_AT + 16], enc[BLOCK_HASH_SIZE..])
  }

  // How a disc author writes a group.
  function EncryptGroup(key: Block, hash: seq<bv8>, payload: seq<bv8>): (enc: seq<bv8>)
    requires |hash| == BLOCK_HASH_SIZE && |payload| == BLOCK_DATA_SIZE
    ensures |enc| == BLOCK_SIZE
  {
    var w := KeyExpansion(key);
    Encrypted(w, ZERO_BYTES, hash) + Encrypted(w, hash[GROUP_IV_AT..GROUP_IV_AT + 16], payload)
  }

  lemma GroupRoundTrip(key: Block, hash: seq<bv8>, payload: seq<bv8>)
    requires |hash| == BLOCK_HASH_SIZE && |payload| == BLOCK_DATA_SIZE
    ensures GroupPlain(key, EncryptGroup(key, hash, payload)) == payload
  {
    hide KeyExpansion, Encrypted, Decrypted;
    var w := KeyExpansion(key);
    var enc := EncryptGroup(key, hash, payload);
    assert enc[..BLOCK_HASH_SIZE] == Encrypted(w, ZERO_BYTES, hash);
    assert enc[BLOCK_HASH_SIZE..] == Encrypted(w, hash[GROUP_IV_AT..GROUP_IV_AT + 16], payload);
    DecryptedUndoesEncrypted(w, ZERO_BYTES, hash);
    DecryptedUndoesEncrypted(w, hash[GROUP_IV_AT..GROUP_IV_AT + 16], payload);
  }

  lemma ZeroIv()
    ensures ZERO_BYTES == seq(16, i => 0)
  {
    var z: seq<bv8> := seq(16, i => 0);
    forall i | 0 <= i < 16
      ensures ZERO_BYTES[i] == z[i]
    {
    }
  }

  // The layout of a group on a disc: 0x400 bytes of hashes under a zero IV, whose plaintext holds the
  // IV of the 0x7C00 bytes of payload at 0x3D0.
  lemma GroupOnDisc(key: Block, hash: seq<bv8>, payload: seq<bv8>, enc: seq<bv8>)
    requires |hash| == 0x400 && |payload| == 0x7C00 && |enc| == 0x8000
    requires enc[..0x400] == Encrypted(KeyExpansion(key), seq(16, i => 0), hash)
    requires enc[0x400..] == Encrypted(KeyExpansion(key), hash[0x3D0..0x3E0], payload)
    ensures GroupPlain(key, enc) == payload
  {
    hide KeyExpansion, Encrypted, Decrypted;
    ZeroIv();
    assert enc == enc[..0x400] + enc[0x400..];
    assert enc == EncryptGroup(key, hash, payload);
    GroupRoundTrip(key, hash, payload);
  }

  // An open partition: the disc image, where its groups start, and its title key.
  datatype View = View(image: seq<bv8>, start: nat, key: Block)

  // Where the reader looks for a group, in 64-bit arithmetic.
  function GroupBase(v: View, group: nat): nat {
    (v.start + group * BLOCK_SIZE) % TWO_64
  }

  // A seek takes a signed 64-bit position.
  predicate Readable(v: View, group: nat) {
    GroupBase(v, group) < TWO_63 && GroupBase(v, group) + BLOCK_SIZE <= |v.image|
  }

  function RawGroup(v: View, group: nat): (enc: seq<bv8>)
    requires Readable(v, group)
    ensures |enc| == BLOCK_SIZE
  {
    v.image[GroupBase(v, group)..GroupBase(v, group) + BLOCK_SIZE]
  }

  function PlainOf(v: View, group: nat): (p: seq<bv8>)
    requires Readable(v, group)
    ensures |p| == BLOCK_DATA_SIZE
  {
    GroupPlain(v.key, RawGroup(v, group))
  }

  // The group that serves offset `k`: the code truncates the group number to 32 bits.
  function GroupOf(k: nat): nat {
    k / BLOCK_DATA_SIZE % TWO_32
  }

  predicate SliceReadable(v: View, off: nat, len: nat) {
    forall k :: off <= k < off + len ==> Readable(v, GroupOf(k))
  }

  // The byte the reader serves for offset `k`.
  function ServedByte(v: View, k: nat): bv8
    requires Readable(v, GroupOf(k))
  {
    PlainOf(v, GroupOf(k))[k % BLOCK_DATA_SIZE]
  }

  function Served(v: View, off: nat, len: nat): (s: seq<bv8>)
    requires SliceReadable(v, off, len)
    ensures |s| == len
  {
    seq(len, i requires 0 <= i < len => ServedByte(v, off + i))
  }

  predicate AllReadable(v: View, groups: nat) {
    forall g :: 0 <= g < groups ==> Readable(v, g)
  }

  // The first `groups` groups decrypted afresh, one after another.
  function Flat(v: View, groups: nat): (s: seq<bv8>)
    requires AllReadable(v, groups)
    ensures |s| == groups * BLOCK_DATA_SIZE
  {
    if groups == 0 then [] else Flat(v, groups - 1) + PlainOf(v, groups - 1)
  }

  lemma {:induction false} FlatAt(v: View, groups: nat, k: nat)
    requires AllReadable(v, groups) && k < groups * BLOCK_DATA_SIZE
    ensures k / BLOCK_DATA_SIZE < groups
    ensures Flat(v, groups)[k] == PlainOf(v, k / BLOCK_DATA_SIZE)[k % BLOCK_DATA_SIZE]
  {
    hide PlainOf, Readable;
    if k < (groups - 1) * BLOCK_DATA_SIZE {
      FlatAt(v, groups - 1, k);
    } else {
      assert k / BLOCK_DATA_SIZE == groups - 1;
    }
  }

  // As far as 2^32 groups the reader serves exactly the flat view.
  lemma ServedIsFlat(v: View, groups: nat, off: nat, len: nat)
    requires AllReadable(v, groups)
    requires off + len <= groups * BLOCK_DATA_SIZE && off + len <= TWO_32 * BLOCK_DATA_SIZE
    ensures SliceReadable(v, off, len)
    ensures Served(v, off, len) == Flat(v, groups)[off..off + len]
  {
    hide PlainOf, Readable;
    forall k | off <= k < off + len
      ensures GroupOf(k) == k / BLOCK_DATA_SIZE < groups
      ensures Readable(v, GroupOf(k)) && ServedByte(v, k) == Flat(v, groups)[k]
    {
      OwnGroup(k);
      FlatAt(v, groups, k);
    }
    forall i | 0 <= i < len
      ensures Served(v, off, len)[i] == Flat(v, groups)[off..off + len][i]
    {
      assert ServedByte(v, off + i) == Flat(v, groups)[off + i];
    }
  }

  // The truncation keeps an offset in its own group exactly below 2^32 groups.
  lemma OwnGroup(k: nat)
    ensures GroupOf(k) == k / BLOCK_DATA_SIZE <==> k < TWO_32 * BLOCK_DATA_SIZE
  {
  }

  // A whole image: the groups of a payload, each with its own hash prologue.
  function EncryptGroups(key: Block, hashes: seq<seq<bv8>>, payload: seq<bv8>): (enc: seq<bv8>)
    requires forall h :: h in hashes ==> |h| == BLOCK_HASH_SIZE
    requires |payload| == |hashes| * BLOCK_DATA_SIZE
    ensures |enc| == |hashes| * BLOCK_SIZE
  {
    if hashes == [] then [] else
      var last := |hashes| - 1;
      EncryptGroups(key, hashes[..last], payload[..last * BLOCK_DATA_SIZE])
      + EncryptGroup(key, hashes[last], payload[last * BLOCK_DATA_SIZE..])
  }

  lemma EncryptGroupsSplits(key: Block, hashes: seq<seq<bv8>>, payload: seq<bv8>)
    requires forall h :: h in hashes ==> |h| == BLOCK_HASH_SIZE
    requires |payload| == |hashes| * BLOCK_DATA_SIZE && hashes != []
    ensures var last := |hashes| - 1; var enc := EncryptGroups(key, hashes, payload);
      && (forall h :: h in hashes[..last] ==> |h| == BLOCK_HASH_SIZE)
      && enc[..last * BLOCK_SIZE] == EncryptGroups(key, hashes[..last], payload[..last * BLOCK_DATA_SIZE])
      && enc[last * BLOCK_SIZE..] == EncryptGroup(key, hashes[last], payload[last * BLOCK_DATA_SIZE..])
  {
    hide EncryptGroup;
  }

  lemma GroupReadBack(v: View, group: nat, hash: seq<bv8>, payload: seq<bv8>)
    requires |hash| == BLOCK_HASH_SIZE && |payload| == BLOCK_DATA_SIZE
    requires v.start + (group + 1) * BLOCK_SIZE <= |v.image| < TWO_63
    requires v.image[v.start + group * BLOCK_SIZE..v.start + (group + 1) * BLOCK_SIZE] == EncryptGroup(v.key, hash, payload)
    ensures Readable(v, group) && PlainOf(v, group) == payload
  {
    hide GroupPlain, EncryptGroup;
    GroupRoundTrip(v.key, hash, payload);
  }

  // Reading back a written partition gives the payload.
  lemma {:induction false} ImageRoundTrip(v: View, hashes: seq<seq<bv8>>, payload: seq<bv8>)
    requires forall h :: h in hashes ==> |h| == BLOCK_HASH_SIZE
    requires |payload| == |hashes| * BLOCK_DATA_SIZE
    requires v.start + |hashes| * BLOCK_SIZE <= |v.image| < TWO_63
    requires v.image[v.start..v.start + |hashes| * BLOCK_SIZE] == EncryptGroups(v.key, hashes, payload)
    ensures AllReadable(v, |hashes|)
    ensures Flat(v, |hashes|) == payload
  {
    hide EncryptGroups, EncryptGroup, PlainOf, Readable;
    if hashes != [] {
      var last := |hashes| - 1;
      var enc := EncryptGroups(v.key, hashes, payload);
      var front, back := payload[..last * BLOCK_DATA_SIZE], payload[last * BLOCK_DATA_SIZE..];
      EncryptGroupsSplits(v.key, hashes, payload);
      assert v.image[v.start..v.start + last * BLOCK_SIZE] == enc[..last * BLOCK_SIZE];
      assert v.image[v.start + last * BLOCK_SIZE..v.start + |hashes| * BLOCK_SIZE] == enc[last * BLOCK_SIZE..];
      ImageRoundTrip(v, hashes[..last], front);
      GroupReadBack(v, last, hashes[last], back);
      assert payload == front + back;
    }
  }

  // ---- Where the group number is truncated ----

  // 2^32 groups further on, the reader serves the same bytes again.
  lemma ServedRepeats(v: View, off: nat, len: nat)
    requires SliceReadable(v, off, len)
    ensures SliceReadable(v, off + TWO_32 * BLOCK_DATA_SIZE, len)
    ensures Served(v, off + TWO_32 * BLOCK_DATA_SIZE, len) == Served(v, off, len)
  {
    hide PlainOf, Readable, GroupOf;
    forall k | off + TWO_32 * BLOCK_DATA_SIZE <= k < off + TWO_32 * BLOCK_DATA_SIZE + len
      ensures Readable(v, GroupOf(k)) && ServedByte(v, k) == Served(v, off, len)[k - TWO_32 * BLOCK_DATA_SIZE - off]
    {
      var j: nat := k - TWO_32 * BLOCK_DATA_SIZE;
      SameGroup(j);
      assert Served(v, off, len)[j - off] == ServedByte(v, j);
    }
    forall i | 0 <= i < len
      ensures Served(v, off + TWO_32 * BLOCK_DATA_SIZE, len)[i] == Served(v, off, len)[i]
    {
      assert ServedByte(v, off + TWO_32 * BLOCK_DATA_SIZE + i) == Served(v, off, len)[i];
    }
  }

  lemma SameGroup(k: nat)
    ensures GroupOf(k + TWO_32 * BLOCK_DATA_SIZE) == GroupOf(k)
    ensures (k + TWO_32 * BLOCK_DATA_SIZE) % BLOCK_DATA_SIZE == k % BLOCK_DATA_SIZE
  {
    var g, i := k / BLOCK_DATA_SIZE, k % BLOCK_DATA_SIZE;
    assert k + TWO_32 * BLOCK_DATA_SIZE == (g + TWO_32) * BLOCK_DATA_SIZE + i;
  }

  // So a read at group 2^32 of any image serves the bytes of its group 0.
  lemma FirstGroupAgain(v: View, len: nat)
    requires Readable(v, 0) && len <= BLOCK_DATA_SIZE
    ensures SliceReadable(v, TWO_32 * BLOCK_DATA_SIZE, len)
    ensures Served(v, TWO_32 * BLOCK_DATA_SIZE, len) == PlainOf(v, 0)[..len]
  {
    hide PlainOf, Readable;
    assert forall k :: 0 <= k < len ==> GroupOf(k) == 0;
    ServedRepeats(v, 0, len);
  }

  // The payload that tells a group from the one 2^32 groups before it.
  function MarkedPayload(groups: nat): (p: seq<bv8>)
    ensures |p| == groups * BLOCK_DATA_SIZE
  {
    seq(groups * BLOCK_DATA_SIZE, i => if i < TWO_32 * BLOCK_DATA_SIZE then 0 else 1)
  }

  function BlankHashes(groups: nat): (hs: seq<seq<bv8>>)
    ensures |hs| == groups && forall h :: h in hs ==> |h| == BLOCK_HASH_SIZE
  {
    var blank := seq(BLOCK_HASH_SIZE, _ => 0);
    seq(groups, _ => blank)
  }

  function MarkedView(groups: nat): View {
    View(EncryptGroups(ZERO_BYTES, BlankHashes(groups), MarkedPayload(groups)), 0, ZERO_BYTES)
  }

  lemma MarkedFlat(groups: nat)
    requires groups * BLOCK_SIZE < TWO_63
    ensures AllReadable(MarkedView(groups), groups)
    ensures Flat(MarkedView(groups), groups) == MarkedPayload(groups)
  {
    hide EncryptGroups, Readable, Flat, MarkedPayload, BlankHashes;
    var v := MarkedView(groups);
    assert v.image[0..groups * BLOCK_SIZE] == v.image;
    ImageRoundTrip(v, BlankHashes(groups), MarkedPayload(groups));
  }

  // Past 2^32 groups some image is served wrongly ...
  lemma MarkedServed(groups: nat, k: nat)
    requires groups * BLOCK_SIZE < TWO_63 && TWO_32 * BLOCK_DATA_SIZE <= k < groups * BLOCK_DATA_SIZE
    ensures var v := MarkedView(groups);
      AllReadable(v, groups) && Readable(v, GroupOf(k)) && ServedByte(v, k) != Flat(v, groups)[k]
  {
    hide MarkedView, Readable, PlainOf, Flat, GroupOf, MarkedPayload;
    var v, j := MarkedView(groups), GroupOf(k) * BLOCK_DATA_SIZE + k % BLOCK_DATA_SIZE;
    MarkedFlat(groups);
    TruncatedPlace(k, groups);
    FlatAt(v, groups, j);
    MarkedAt(groups, j);
    MarkedAt(groups, k);
  }

  lemma MarkedAt(groups: nat, i: nat)
    requires i < groups * BLOCK_DATA_SIZE
    ensures MarkedPayload(groups)[i] == if i < TWO_32 * BLOCK_DATA_SIZE then 0 else 1
  {
  }

  lemma TruncatedPlace(k: nat, groups: nat)
    requires TWO_32 * BLOCK_DATA_SIZE <= k < groups * BLOCK_DATA_SIZE
    ensures var j := GroupOf(k) * BLOCK_DATA_SIZE + k % BLOCK_DATA_SIZE;
      j < TWO_32 * BLOCK_DATA_SIZE && j / BLOCK_DATA_SIZE == GroupOf(k) < groups && j % BLOCK_DATA_SIZE == k % BLOCK_DATA_SIZE
  {
  }

  ghost predicate ServesFlat(v: View, groups: nat, off: nat, len: nat)
    requires AllReadable(v, groups) && off + len <= groups * BLOCK_DATA_SIZE
  {
    SliceReadable(v, off, len) && Served(v, off, len) == Flat(v, groups)[off..off + len]
  }

  // ... so that a range is served as the flat plaintext has it, whatever the image, if and only
  // if it ends within the first 2^32 groups.
  lemma ServedIsFlatExactly(groups: nat, off: nat, len: nat)
    requires len > 0 && off + len <= groups * BLOCK_DATA_SIZE && groups * BLOCK_SIZE < TWO_63
    ensures (forall v :: AllReadable(v, groups) ==> ServesFlat(v, groups, off, len)) <==>
      off + len <= TWO_32 * BLOCK_DATA_SIZE
  {
    hide AllReadable, SliceReadable, Served, Flat, Readable, ServedByte, ServesFlat, MarkedView;
    if off + len <= TWO_32 * BLOCK_DATA_SIZE {
      forall v | AllReadable(v, groups)
        ensures ServesFlat(v, groups, off, len)
      {
        ServedIsFlat(v, groups, off, len);
        ServesFlatIs(v, groups, off, len);
      }
    } else {
      MarkedServed(groups, off + len - 1);
      LastServed(MarkedView(groups), groups, off, len);
    }
  }

  lemma ServesFlatIs(v: View, groups: nat, off: nat, len: nat)
    requires AllReadable(v, groups) && off + len <= groups * BLOCK_DATA_SIZE
    ensures ServesFlat(v, groups, off, len) <==> SliceReadable(v, off, len) && Served(v, off, len) == Flat(v, groups)[off..off + len]
  {
  }

  lemma LastServed(v: View, groups: nat, off: nat, len: nat)
    requires len > 0 && AllReadable(v, groups) && off + len <= groups * BLOCK_DATA_SIZE && Readable(v, GroupOf(off + len - 1))
    requires ServedByte(v, off + len - 1) != Flat(v, groups)[off + len - 1]
    ensures !ServesFlat(v, groups, off, len)
  {
    hide Flat, Readable, ServedByte;
    assert SliceReadable(v, off, len) ==> Served(v, off, len)[len - 1] == ServedByte(v, off + len - 1);
    assert Flat(v, groups)[off..off + len][len - 1] == Flat(v, groups)[off + len - 1];
  }
}
