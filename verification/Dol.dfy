// The DOL loader of decompiler/src/dol.c: header validation and address lookup.

module Dol {
  import opened Wrappers
  import opened PartitionView

  datatype DolStatus =
    | DolOk | DolTooSmall | DolBadSection | DolOverflow | DolMisaligned | DolNoEntrypoint

  datatype DolSectionKind = Text | Data

  datatype DolSection = DolSection(kind: DolSectionKind, index: nat, fileOffset: nat, virtualAddr: nat, size: nat) {
    // Both ends are below 2^32, so no 32-bit sum of the section's fields wraps.
    predicate Fits(fileSize: nat) {
      && size > 0 && fileOffset + size <= fileSize && fileOffset + size < TWO_32
      && virtualAddr + size < TWO_32
    }

    predicate Covers(vaddr: nat) {
      virtualAddr <= vaddr < virtualAddr + size
    }
  }

  const DOL_HEADER_SIZE: nat := 0x100
  const MAX_TEXT_SECTIONS: nat := 7
  const MAX_DATA_SECTIONS: nat := 11
  const SLOTS: nat := MAX_TEXT_SECTIONS + MAX_DATA_SECTIONS
  const TEXT_OFFSETS_AT: nat := 0x00
  const DATA_OFFSETS_AT: nat := 0x1C
  const TEXT_ADDRS_AT: nat := 0x48
  const DATA_ADDRS_AT: nat := 0x64
  const TEXT_SIZES_AT: nat := 0x90
  const DATA_SIZES_AT: nat := 0xAC
  const ENTRYPOINT_AT: nat := 0xE0

  function U32At(b: seq<bv8>, at: nat): (r: nat)
    requires at + 4 <= |b|
    ensures r < TWO_32
  {
    Be32(b[at..at + 4])
  }

  // The header's `k`th slot: the text slots, then the data slots. Unused slots have size 0.
  function Slot(b: seq<bv8>, k: nat): DolSection
    requires |b| >= DOL_HEADER_SIZE && k < SLOTS
  {
    if k < MAX_TEXT_SECTIONS then
      DolSection(Text, k, U32At(b, TEXT_OFFSETS_AT + 4 * k), U32At(b, TEXT_ADDRS_AT + 4 * k), U32At(b, TEXT_SIZES_AT + 4 * k))
    else
      var i := k - MAX_TEXT_SECTIONS;
      DolSection(Data, i, U32At(b, DATA_OFFSETS_AT + 4 * i), U32At(b, DATA_ADDRS_AT + 4 * i), U32At(b, DATA_SIZES_AT + 4 * i))
  }

  // The verdict on one slot, its tests in the order of push_section.
  function SlotStatus(s: DolSection, fileSize: nat): DolStatus {
    if s.size == 0 then DolOk
    else if s.fileOffset % 4 != 0 || s.virtualAddr % 4 != 0 || s.size % 4 != 0 then DolMisaligned
    else if s.fileOffset + s.size >= TWO_32 then DolOverflow
    else if s.fileOffset + s.size > fileSize then DolBadSection
    else if s.virtualAddr + s.size >= TWO_32 then DolOverflow
    else DolOk
  }

  // The used ones among the first `n` slots, in order.
  function Used(b: seq<bv8>, n: nat): (r: seq<DolSection>)
    requires |b| >= DOL_HEADER_SIZE && n <= SLOTS
    ensures |r| <= n
  {
    if n == 0 then []
    else if Slot(b, n - 1).size == 0 then Used(b, n - 1)
    else Used(b, n - 1) + [Slot(b, n - 1)]
  }

  // The first bad verdict among the first `n` slots.
  function FirstBad(b: seq<bv8>, n: nat): DolStatus
    requires |b| >= DOL_HEADER_SIZE && n <= SLOTS
  {
    if n == 0 then DolOk
    else if FirstBad(b, n - 1) != DolOk then FirstBad(b, n - 1)
    else SlotStatus(Slot(b, n - 1), |b|)
  }

  // The index of the first section that covers an address, if there is one.
  function FirstCovering(s: seq<DolSection>, vaddr: nat, i: nat): (r: nat)
    requires i <= |s|
    ensures i <= r <= |s|
    ensures r < |s| ==> s[r].Covers(vaddr)
    ensures forall j :: i <= j < r ==> !s[j].Covers(vaddr)
    decreases |s| - i
  {
    if i == |s| || s[i].Covers(vaddr) then i else FirstCovering(s, vaddr, i + 1)
  }

  predicate EntryInText(b: seq<bv8>)
    requires |b| >= DOL_HEADER_SIZE
  {
    var s := Used(b, SLOTS);
    var r := FirstCovering(s, U32At(b, ENTRYPOINT_AT), 0);
    r < |s| && s[r].kind == Text
  }

  function ParseStatus(b: seq<bv8>): DolStatus {
    if |b| < DOL_HEADER_SIZE then DolTooSmall
    else if FirstBad(b, SLOTS) != DolOk then FirstBad(b, SLOTS)
    else if !EntryInText(b) then DolNoEntrypoint
    else DolOk
  }

  predicate BlamedOn(b: seq<bv8>, n: nat, k: nat)
    requires |b| >= DOL_HEADER_SIZE && k < n <= SLOTS
  {
    && FirstBad(b, n) == SlotStatus(Slot(b, k), |b|)
    && forall j :: 0 <= j < k ==> SlotStatus(Slot(b, j), |b|) == DolOk
  }

  // The verdict is that of some slot, all slots before which are good.
  lemma {:induction false} FirstBadIsFirst(b: seq<bv8>, n: nat)
    requires |b| >= DOL_HEADER_SIZE && n <= SLOTS
    ensures FirstBad(b, n) == DolOk <==> forall k :: 0 <= k < n ==> SlotStatus(Slot(b, k), |b|) == DolOk
    ensures FirstBad(b, n) != DolOk ==> exists k :: 0 <= k < n && BlamedOn(b, n, k)
  {
    hide Slot, SlotStatus;
    if n > 0 {
      FirstBadIsFirst(b, n - 1);
      if FirstBad(b, n - 1) != DolOk {
        var k :| 0 <= k < n - 1 && BlamedOn(b, n - 1, k);
        assert BlamedOn(b, n, k);
      } else if FirstBad(b, n) != DolOk {
        assert BlamedOn(b, n, n - 1);
      }
    }
  }

  lemma {:induction false} UsedAreSlots(b: seq<bv8>, n: nat)
    requires |b| >= DOL_HEADER_SIZE && n <= SLOTS
    ensures forall s :: s in Used(b, n) <==> exists k :: 0 <= k < n && Slot(b, k) == s && s.size > 0
  {
    hide Slot;
    if n > 0 {
      UsedAreSlots(b, n - 1);
    }
  }

  // Once parsing succeeds, every section lies inside the file and below 2^32.
  lemma ParsedSectionsFit(b: seq<bv8>)
    requires |b| >= DOL_HEADER_SIZE && FirstBad(b, SLOTS) == DolOk
    ensures forall s :: s in Used(b, SLOTS) ==> s.Fits(|b|)
  {
    hide Slot;
    FirstBadIsFirst(b, SLOTS);
    UsedAreSlots(b, SLOTS);
  }

  lemma {:induction false} UsedPrefix(b: seq<bv8>, m: nat, n: nat)
    requires |b| >= DOL_HEADER_SIZE && m <= n <= SLOTS
    ensures Used(b, m) <= Used(b, n)
    decreases n
  {
    hide Slot;
    if m < n {
      UsedPrefix(b, m, n - 1);
    }
  }

  // The entrypoint is in a text section exactly if some text slot covers it: the text sections
  // come first, so none of the data sections can get in between.
  lemma EntryInTextExactly(b: seq<bv8>)
    requires |b| >= DOL_HEADER_SIZE
    ensures EntryInText(b) <==> exists k :: 0 <= k < MAX_TEXT_SECTIONS && Slot(b, k).Covers(U32At(b, ENTRYPOINT_AT))
  {
    hide U32At, Slot, FirstCovering, Used;
    var entry := U32At(b, ENTRYPOINT_AT);
    if EntryInText(b) {
      var s := Used(b, SLOTS);
      TextSectionIsSlot(b, FirstCovering(s, entry, 0));
    }
    if k :| 0 <= k < MAX_TEXT_SECTIONS && Slot(b, k).Covers(entry) {
      TextSlotIsFirst(b, entry, k);
    }
  }

  lemma TextSectionIsSlot(b: seq<bv8>, r: nat)
    requires |b| >= DOL_HEADER_SIZE && r < |Used(b, SLOTS)| && Used(b, SLOTS)[r].kind == Text
    ensures exists k :: 0 <= k < MAX_TEXT_SECTIONS && Slot(b, k) == Used(b, SLOTS)[r]
  {
    hide U32At, Slot, Used;
    UsedAreSlots(b, SLOTS);
    SlotKinds(b);
    assert Used(b, SLOTS)[r] in Used(b, SLOTS);
  }

  lemma TextSlotIsFirst(b: seq<bv8>, entry: nat, k: nat)
    requires |b| >= DOL_HEADER_SIZE && k < MAX_TEXT_SECTIONS && Slot(b, k).Covers(entry)
    ensures var s := Used(b, SLOTS); var r := FirstCovering(s, entry, 0); r < |s| && s[r].kind == Text
  {
    hide U32At, Slot, Used, FirstCovering;
    var s, texts := Used(b, SLOTS), Used(b, MAX_TEXT_SECTIONS);
    UsedPrefix(b, MAX_TEXT_SECTIONS, SLOTS);
    UsedAreSlots(b, MAX_TEXT_SECTIONS);
    SlotKinds(b);
    assert Slot(b, k) in texts;
    var i :| 0 <= i < |texts| && texts[i] == Slot(b, k);
    var r := FirstCovering(s, entry, 0);
    assert s[i] == texts[i];
    assert s[r] == texts[r] && texts[r] in texts;
  }

  lemma SlotKinds(b: seq<bv8>)
    requires |b| >= DOL_HEADER_SIZE
    ensures forall k :: 0 <= k < SLOTS ==> (Slot(b, k).kind == Text <==> k < MAX_TEXT_SECTIONS)
  {
    hide U32At;
  }

  // A big-endian field of the header.
  function Field(b: seq<bv8>, at: nat): nat
    requires at + 4 <= |b|
  {
    0x1000000 * ToNat(b[at]) + 0x10000 * ToNat(b[at + 1]) + 0x100 * ToNat(b[at + 2]) + ToNat(b[at + 3])
  }

  // Where the header keeps what of a section, in bytes.
  lemma SlotFields(b: seq<bv8>, k: nat)
    requires |b| >= 0x100
    ensures k < 7 ==> Slot(b, k) == DolSection(Text, k, Field(b, 4 * k), Field(b, 0x48 + 4 * k), Field(b, 0x90 + 4 * k))
    ensures k < 11 ==> Slot(b, 7 + k) == DolSection(Data, k, Field(b, 0x1C + 4 * k), Field(b, 0x64 + 4 * k), Field(b, 0xAC + 4 * k))
    ensures U32At(b, ENTRYPOINT_AT) == Field(b, 0xE0)
  {
    hide Field, U32At;
    forall at: nat | at + 4 <= |b|
      ensures U32At(b, at) == Field(b, at)
    {
      FieldIs(b, at);
    }
  }

  lemma FieldIs(b: seq<bv8>, at: nat)
    requires at + 4 <= |b|
    ensures U32At(b, at) == Field(b, at)
  {
  }

  // A section that the parser takes: unused, or aligned, inside the file and not wrapping, neither in
  // the file nor in memory.
  predicate Acceptable(s: DolSection, fileSize: nat) {
    s.size != 0 ==>
      && s.fileOffset % 4 == 0 && s.virtualAddr % 4 == 0 && s.size % 4 == 0
      && s.fileOffset + s.size <= fileSize && s.fileOffset + s.size < 0x1_0000_0000 && s.virtualAddr + s.size < 0x1_0000_0000
  }

  // When the parser reports success.
  lemma ParseSucceeds(b: seq<bv8>)
    ensures ParseStatus(b) == DolOk <==>
      && |b| >= 0x100
      && (forall k :: 0 <= k < 18 ==> Acceptable(Slot(b, k), |b|))
      && exists k :: 0 <= k < 7 && Slot(b, k).virtualAddr <= Field(b, 0xE0) < Slot(b, k).virtualAddr + Slot(b, k).size
  {
    if |b| >= DOL_HEADER_SIZE {
      FirstBadIsFirst(b, SLOTS);
      EntryInTextExactly(b);
      SlotFields(b, 0);
      hide U32At, Field, Slot, EntryInText, FirstBad, SlotStatus, Acceptable;
      forall k | 0 <= k < SLOTS
        ensures SlotStatus(Slot(b, k), |b|) == DolOk <==> Acceptable(Slot(b, k), |b|)
      {
        OkIsAcceptable(Slot(b, k), |b|);
      }
    }
  }

  lemma OkIsAcceptable(s: DolSection, fileSize: nat)
    ensures SlotStatus(s, fileSize) == DolOk <==> Acceptable(s, fileSize)
  {
  }

  // Why it rejects a section, where it does.
  lemma Verdicts(s: DolSection, fileSize: nat)
    requires s.size != 0
    ensures var aligned := s.fileOffset % 4 == 0 && s.virtualAddr % 4 == 0 && s.size % 4 == 0; var end := s.fileOffset + s.size;
      && (SlotStatus(s, fileSize) == DolMisaligned <==> !aligned)
      && (SlotStatus(s, fileSize) == DolBadSection <==> aligned && fileSize < end < 0x1_0000_0000)
      && (SlotStatus(s, fileSize) == DolOverflow <==>
            aligned && (end >= 0x1_0000_0000 || (end <= fileSize && s.virtualAddr + s.size >= 0x1_0000_0000)))
  {
  }

  class DolImage {
    var bytes: seq<bv8>
    var entrypoint: nat
    var bssAddr: nat
    var bssSize: nat
    const sections: array<DolSection>
    var sectionCount: nat

    // Every section filled in lies inside the bytes the image points to.
    ghost predicate Valid()
      reads this, sections
    {
      && sections.Length == SLOTS && sectionCount <= SLOTS
      && forall i :: 0 <= i < sectionCount ==> sections[i].Fits(|bytes|)
    }

    constructor ()
      ensures Valid() && sectionCount == 0 && fresh(sections)
    {
      bytes, entrypoint, bssAddr, bssSize, sectionCount := [], 0, 0, 0, 0;
      sections := new DolSection[SLOTS](_ => DolSection(Text, 0, 0, 0, 0));
    }

    // memset(out, 0, sizeof *out), as far as lookups can tell.
    method Clear()
      requires sections.Length == SLOTS
      modifies this
      ensures Valid() && bytes == [] && sectionCount == 0
    {
      bytes, entrypoint, bssAddr, bssSize, sectionCount := [], 0, 0, 0, 0;
    }

    method PushSection(s: DolSection, fileSize: nat) returns (st: DolStatus)
      requires sections.Length == SLOTS && sectionCount < SLOTS
      requires s.fileOffset < TWO_32 && s.virtualAddr < TWO_32 && s.size < TWO_32
      modifies this`sectionCount, sections
      ensures st == SlotStatus(s, fileSize)
      ensures sectionCount <= SLOTS
      ensures sections[..sectionCount] == old(sections[..sectionCount]) + (if st == DolOk && s.size != 0 then [s] else [])
    {
      if s.size == 0 {
        return DolOk;
      }
      if s.fileOffset % 4 != 0 || s.virtualAddr % 4 != 0 || s.size % 4 != 0 {
        return DolMisaligned;
      }
      if s.fileOffset > TWO_32 - 1 - s.size {
        return DolOverflow;
      }
      if s.fileOffset + s.size > fileSize {
        return DolBadSection;
      }
      if s.virtualAddr > TWO_32 - 1 - s.size {
        return DolOverflow;
      }
      sections[sectionCount] := s;
      sectionCount := sectionCount + 1;
      return DolOk;
    }

    method PushText(b: seq<bv8>) returns (st: DolStatus)
      requires sections.Length == SLOTS && sectionCount == 0 && |b| >= DOL_HEADER_SIZE
      modifies this`sectionCount, sections
      ensures sectionCount <= MAX_TEXT_SECTIONS
      ensures st == FirstBad(b, MAX_TEXT_SECTIONS)
      ensures st == DolOk ==> sections[..sectionCount] == Used(b, MAX_TEXT_SECTIONS)
    {
      hide U32At, SlotStatus;
      for i := 0 to MAX_TEXT_SECTIONS
        invariant sectionCount <= i
        invariant FirstBad(b, i) == DolOk && sections[..sectionCount] == Used(b, i)
      {
        st := PushSection(Slot(b, i), |b|);
        if st != DolOk {
          FirstBadStays(b, i + 1, MAX_TEXT_SECTIONS);
          return;
        }
      }
      return DolOk;
    }

    method PushData(b: seq<bv8>) returns (st: DolStatus)
      requires sections.Length == SLOTS && sectionCount <= MAX_TEXT_SECTIONS && |b| >= DOL_HEADER_SIZE
      requires FirstBad(b, MAX_TEXT_SECTIONS) == DolOk && sections[..sectionCount] == Used(b, MAX_TEXT_SECTIONS)
      modifies this`sectionCount, sections
      ensures sectionCount <= SLOTS
      ensures st == FirstBad(b, SLOTS)
      ensures st == DolOk ==> sections[..sectionCount] == Used(b, SLOTS)
    {
      hide U32At, SlotStatus;
      for i := 0 to MAX_DATA_SECTIONS
        invariant sectionCount <= MAX_TEXT_SECTIONS + i
        invariant FirstBad(b, MAX_TEXT_SECTIONS + i) == DolOk && sections[..sectionCount] == Used(b, MAX_TEXT_SECTIONS + i)
      {
        st := PushSection(Slot(b, MAX_TEXT_SECTIONS + i), |b|);
        if st != DolOk {
          FirstBadStays(b, MAX_TEXT_SECTIONS + i + 1, SLOTS);
          return;
        }
      }
      return DolOk;
    }

    method Parse(b: seq<bv8>) returns (st: DolStatus)
      requires sections.Length == SLOTS
      modifies this, sections
      ensures Valid()
      ensures st == ParseStatus(b)
      ensures st == DolOk ==> bytes == b && sections[..sectionCount] == Used(b, SLOTS) && entrypoint == U32At(b, ENTRYPOINT_AT)
      ensures st != DolOk ==> bytes == [] && sectionCount == 0
    {
      hide U32At, Slot, FirstBad, Used, FirstCovering;
      Clear();
      if |b| < DOL_HEADER_SIZE {
        return DolTooSmall;
      }
      bytes := b;
      st := PushText(b);
      if st == DolOk {
        st := PushData(b);
      } else {
        FirstBadStays(b, MAX_TEXT_SECTIONS, SLOTS);
      }
      if st != DolOk {
        Clear();
        return;
      }
      bssAddr, bssSize, entrypoint := U32At(b, 0xD8), U32At(b, 0xDC), U32At(b, ENTRYPOINT_AT);
      ParsedSectionsFit(b);
      assert forall i :: 0 <= i < sectionCount ==> sections[i] == Used(b, SLOTS)[i];
      var r := SectionForVaddr(entrypoint);
      if r == sectionCount || sections[r].kind != Text {
        Clear();
        return DolNoEntrypoint;
      }
      return DolOk;
    }

    // The index of the first section covering `vaddr`, or the number of sections.
    method SectionForVaddr(vaddr: nat) returns (r: nat)
      requires Valid()
      ensures r == FirstCovering(sections[..sectionCount], vaddr, 0)
    {
      r := 0;
      while r < sectionCount
        invariant r <= sectionCount
        invariant FirstCovering(sections[..sectionCount], vaddr, 0) == FirstCovering(sections[..sectionCount], vaddr, r)
      {
        var s := sections[r];
        if s.virtualAddr <= vaddr && vaddr < (s.virtualAddr + s.size) % TWO_32 {
          return;
        }
        r := r + 1;
      }
    }

    // The file position of `vaddr` and the bytes left in its section.
    method VaddrToPtr(vaddr: nat) returns (ptr: Option<nat>, remaining: nat)
      requires Valid()
      ensures ptr.Some? <==> exists s :: s in sections[..sectionCount] && s.Covers(vaddr)
      ensures ptr.None? ==> remaining == 0
      ensures ptr.Some? ==> 0 < remaining && ptr.value + remaining <= |bytes|
      ensures ptr.Some? ==> var r := FirstCovering(sections[..sectionCount], vaddr, 0);
                            r < sectionCount && ptr.value - sections[r].fileOffset == vaddr - sections[r].virtualAddr
                            && ptr.value + remaining == sections[r].fileOffset + sections[r].size
    {
      var r := SectionForVaddr(vaddr);
      if r == sectionCount {
        return None, 0;
      }
      var s := sections[r];
      assert s == sections[..sectionCount][r];
      var delta := vaddr - s.virtualAddr;
      return Some(s.fileOffset + delta), s.size - delta;
    }
  }

  lemma {:induction false} FirstBadStays(b: seq<bv8>, n: nat, m: nat)
    requires |b| >= DOL_HEADER_SIZE && n <= m <= SLOTS && FirstBad(b, n) != DolOk
    ensures FirstBad(b, m) == FirstBad(b, n)
    decreases m - n
  {
    hide Slot, SlotStatus;
    if n < m {
      FirstBadStays(b, n + 1, m);
    }
  }
}
