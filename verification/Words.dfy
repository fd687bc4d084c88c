/** The 64-bit words of the paging structures: virtual addresses and page-table entries.

The functions are the bit expressions of kernel/arch/x86_64/memory.cpp. The lemmas say what those
expressions mean, so that no other module has to look at bits: they hide the definitions and use
the lemmas. Most lemmas are kept to one masked equation because that is what the solver does best.
*/
module Words {

  const PAGE_PRESENT: bv64 := 1
  const PAGE_WRITE: bv64 := 2
  const PAGE_USER: bv64 := 4
  const PAGE_SIZE: bv64 := 0x80
  const PAGE_GLOBAL: bv64 := 0x100
  const PAGE_NOEXECUTE: bv64 := 0x8000000000000000

  /** A node of the paging tree: the top table, or what one of the 512 slots of a node leads to.
      Nodes at depth 1, 2 and 3 are tables; nodes at depth 4 are pages. */
  datatype Path = Top | Sub(parent: Path, slot: nat)

  function Depth(p: Path): nat {
    match p
    case Top => 0
    case Sub(q, _) => 1 + Depth(q)
  }

  // ----- Virtual addresses -----

  function GetP4Table(vaddr: bv64): bv64 {
    (vaddr & 0xFFFF000000000000) | (510 << 39) | (510 << 30) | (510 << 21) | (510 << 12)
  }

  function GetP3Table(vaddr: bv64): bv64 {
    (vaddr & 0xFFFF000000000000) | (510 << 39) | (510 << 30) | (510 << 21) | ((vaddr >> 27) & 0x1FF000)
  }

  function GetP2Table(vaddr: bv64): bv64 {
    (vaddr & 0xFFFF000000000000) | (510 << 39) | (510 << 30) | ((vaddr >> 18) & 0x3FFFF000)
  }

  function GetP1Table(vaddr: bv64): bv64 {
    (vaddr & 0xFFFF000000000000) | (510 << 39) | ((vaddr >> 9) & 0x7FFFFFF000)
  }

  function GetP4EntryIndex(vaddr: bv64): bv64 { (vaddr >> 39) & 0x1FF }

  function GetP3EntryIndex(vaddr: bv64): bv64 { (vaddr >> 30) & 0x1FF }

  function GetP2EntryIndex(vaddr: bv64): bv64 { (vaddr >> 21) & 0x1FF }

  function GetP1EntryIndex(vaddr: bv64): bv64 { (vaddr >> 12) & 0x1FF }

  /** The address of `table->entries[index]`. */
  function EntryAddress(table: bv64, index: bv64): bv64 { table + (index << 3) }

  /** The number in the low nine bits of a word. */
  function Low9(x: bv64): (n: nat)
    ensures n < 512
  {
    (x & 0x1FF) as bv9 as nat
  }

  function Path1(s4: nat): Path { Sub(Top, s4) }

  function Path2(s4: nat, s3: nat): Path { Sub(Path1(s4), s3) }

  function Path3(s4: nat, s3: nat, s2: nat): Path { Sub(Path2(s4, s3), s2) }

  function Path4(s4: nat, s3: nat, s2: nat, s1: nat): Path { Sub(Path3(s4, s3, s2), s1) }

  function P4Slot(vaddr: bv64): nat { Low9(GetP4EntryIndex(vaddr)) }

  function P3Slot(vaddr: bv64): nat { Low9(GetP3EntryIndex(vaddr)) }

  function P2Slot(vaddr: bv64): nat { Low9(GetP2EntryIndex(vaddr)) }

  function P1Slot(vaddr: bv64): nat { Low9(GetP1EntryIndex(vaddr)) }

  /** The node an address names: four slots, nine bits each (Intel SDM Vol. 3A, section 4.5). */
  function PathOf(vaddr: bv64): Path {
    Path4(P4Slot(vaddr), P3Slot(vaddr), P2Slot(vaddr), P1Slot(vaddr))
  }

  /** The 8-byte word, within its page, that an address falls in. */
  function WordOf(vaddr: bv64): nat { Low9(vaddr >> 3) }

  predicate UpperHalf(vaddr: bv64) { vaddr & 0xFFFF800000000000 == 0xFFFF800000000000 }

  predicate Canonical(vaddr: bv64) { UpperHalf(vaddr) || vaddr & 0xFFFF800000000000 == 0 }

  function PageOf(vaddr: bv64): bv64 { vaddr & 0xFFFFFFFFFFFFF000 }

  // ----- Entries -----

  predicate Present(e: bv64) { e & 1 != 0 }

  predicate Large(e: bv64) { e & 0x80 != 0 }

  predicate Writable(e: bv64) { e & 2 != 0 }

  predicate NoExecute(e: bv64) { e & 0x8000000000000000 != 0 }

  predicate UserMode(e: bv64) { e & 4 != 0 }

  /** The physical address that the hardware reads from an entry: bits 12 to 51. */
  function FrameIn(e: bv64): bv64 { e & 0x000FFFFFFFFFF000 }

  /** The physical address that UnmapPage reads from an entry: bits 12 to 30. */
  function Masked(e: bv64): bv64 { e & 0x7FFFF000 }

  /** A page-aligned physical address below 2 GiB. */
  predicate Good(paddr: bv64) { paddr & 0x7FFFF000 == paddr }

  function NewEntry(paddr: bv64, flags: bv64): bv64 { paddr | PAGE_PRESENT | flags }

  /** The count of present children that bits 52 to 60 of an upper-level entry hold. */
  function CountIn(e: bv64): (n: nat)
    ensures n < 512
  {
    Low9(e >> 52)
  }

  function IncEntryCount(entry: bv64): bv64 {
    var count := ((entry >> 52) & 0x1FF) + 1;
    (entry & !(511 << 52)) | (count << 52)
  }

  function DecEntryCount(entry: bv64): bv64 {
    var count := ((entry >> 52) & 0x1FF) - 1;
    (entry & !(511 << 52)) | (count << 52)
  }

  /** Bits 0 to 51 agree, so both entries lead to the same place with the same rights. */
  predicate SameTarget(e: bv64, f: bv64) { e & 0x000FFFFFFFFFFFFF == f & 0x000FFFFFFFFFFFFF }

  predicate HasEntries(entry: bv64) { entry & (511 << 52) != 0 }

  // ----- The low nine bits as a number -----

  lemma NineInjective(c: bv9, d: bv9)
    requires c as nat == d as nat
    ensures c == d
  {}

  lemma NineSucc(c: bv9)
    ensures (c + 1) as nat == if c as nat == 511 then 0 else c as nat + 1
  {}

  lemma Low9Injective(x: bv64, y: bv64)
    requires Low9(x) == Low9(y)
    ensures x & 0x1FF == y & 0x1FF
  {
    NineInjective((x & 0x1FF) as bv9, (y & 0x1FF) as bv9);
  }

  lemma Low9Congruent(x: bv64, y: bv64)
    requires x & 0x1FF == y & 0x1FF
    ensures Low9(x) == Low9(y)
  {}

  lemma Low9Succ(x: bv64, y: bv64)
    requires y & 0x1FF == ((x & 0x1FF) + 1) & 0x1FF
    ensures Low9(y) == if Low9(x) == 511 then 0 else Low9(x) + 1
  {
    assert (y & 0x1FF) as bv9 == (x & 0x1FF) as bv9 + 1;
    NineSucc((x & 0x1FF) as bv9);
  }

  lemma Low9Constants()
    ensures Low9(0) == 0 && Low9(1) == 1 && Low9(510) == 510 && Low9(511) == 511
  {}

  // ----- The recursive window -----

  lemma WindowP4(v: bv64)
    ensures GetP4EntryIndex(GetP4Table(v)) == GetP3EntryIndex(GetP4Table(v)) == 510
    ensures GetP2EntryIndex(GetP4Table(v)) == GetP1EntryIndex(GetP4Table(v)) == 510
  {}

  lemma WindowP3(v: bv64)
    ensures GetP4EntryIndex(GetP3Table(v)) == GetP3EntryIndex(GetP3Table(v)) == GetP2EntryIndex(GetP3Table(v)) == 510
    ensures GetP1EntryIndex(GetP3Table(v)) == GetP4EntryIndex(v)
  {}

  lemma WindowP2(v: bv64)
    ensures GetP4EntryIndex(GetP2Table(v)) == GetP3EntryIndex(GetP2Table(v)) == 510
    ensures GetP2EntryIndex(GetP2Table(v)) == GetP4EntryIndex(v)
    ensures GetP1EntryIndex(GetP2Table(v)) == GetP3EntryIndex(v)
  {}

  lemma WindowP1(v: bv64)
    ensures GetP4EntryIndex(GetP1Table(v)) == 510
    ensures GetP3EntryIndex(GetP1Table(v)) == GetP4EntryIndex(v)
    ensures GetP2EntryIndex(GetP1Table(v)) == GetP3EntryIndex(v)
    ensures GetP1EntryIndex(GetP1Table(v)) == GetP2EntryIndex(v)
  {}

  /** Where the four window addresses lead, slot by slot. */
  lemma WindowPaths(v: bv64)
    ensures PathOf(GetP4Table(v)) == Path4(510, 510, 510, 510)
    ensures PathOf(GetP3Table(v)) == Path4(510, 510, 510, P4Slot(v))
    ensures PathOf(GetP2Table(v)) == Path4(510, 510, P4Slot(v), P3Slot(v))
    ensures PathOf(GetP1Table(v)) == Path4(510, P4Slot(v), P3Slot(v), P2Slot(v))
  {
    hide Low9, GetP4EntryIndex, GetP3EntryIndex, GetP2EntryIndex, GetP1EntryIndex;
    hide GetP4Table, GetP3Table, GetP2Table, GetP1Table;
    WindowP4(v);
    WindowP3(v);
    WindowP2(v);
    WindowP1(v);
    Low9Constants();
  }

  lemma WindowAligned(v: bv64)
    ensures PageOf(GetP4Table(v)) == GetP4Table(v)
    ensures PageOf(GetP3Table(v)) == GetP3Table(v)
    ensures PageOf(GetP2Table(v)) == GetP2Table(v)
    ensures PageOf(GetP1Table(v)) == GetP1Table(v)
  {}

  lemma WindowUpper(v: bv64)
    ensures UpperHalf(GetP4Table(v | 0xFFFF800000000000))
    ensures UpperHalf(GetP3Table(v | 0xFFFF800000000000))
    ensures UpperHalf(GetP2Table(v | 0xFFFF800000000000))
    ensures UpperHalf(GetP1Table(v | 0xFFFF800000000000))
  {}

  lemma UpperIsOr(v: bv64)
    requires UpperHalf(v)
    ensures v | 0xFFFF800000000000 == v
  {}

  lemma WindowStaysUpper(v: bv64)
    requires UpperHalf(v)
    ensures UpperHalf(GetP4Table(v)) && UpperHalf(GetP3Table(v)) && UpperHalf(GetP2Table(v)) && UpperHalf(GetP1Table(v))
  {
    hide UpperHalf, GetP4Table, GetP3Table, GetP2Table, GetP1Table;
    UpperIsOr(v);
    WindowUpper(v);
  }

  /** The recursive window serves the upper half only: bit 47 of a window address is always set,
      so for a lower-half address the window is not canonical. */
  lemma WindowNeedsUpperHalf(v: bv64)
    requires Canonical(v)
    ensures Canonical(GetP4Table(v)) <==> UpperHalf(v)
  {}

  // ----- Entry addresses and pages -----

  lemma IndexFromPage(v: bv64)
    ensures GetP4EntryIndex(PageOf(v)) == GetP4EntryIndex(v)
    ensures GetP3EntryIndex(PageOf(v)) == GetP3EntryIndex(v)
    ensures GetP2EntryIndex(PageOf(v)) == GetP2EntryIndex(v)
    ensures GetP1EntryIndex(PageOf(v)) == GetP1EntryIndex(v)
  {}

  lemma UpperFromPage(v: bv64)
    ensures PageOf(v) & 0xFFFF800000000000 == v & 0xFFFF800000000000
  {}

  lemma SamePage(v: bv64, w: bv64)
    requires PageOf(v) == PageOf(w)
    ensures PathOf(v) == PathOf(w)
  {
    hide Low9, PageOf, GetP4EntryIndex, GetP3EntryIndex, GetP2EntryIndex, GetP1EntryIndex;
    IndexFromPage(v);
    IndexFromPage(w);
  }

  lemma SamePageUpper(v: bv64, w: bv64)
    requires PageOf(v) == PageOf(w)
    ensures UpperHalf(v) == UpperHalf(w)
  {
    hide PageOf;
    UpperFromPage(v);
    UpperFromPage(w);
  }

  lemma EntryAddressPage(table: bv64, index: bv64)
    ensures PageOf(EntryAddress(PageOf(table), index & 0x1FF)) == PageOf(table)
  {}

  lemma EntryAddressWord(table: bv64, index: bv64)
    ensures (EntryAddress(PageOf(table), index & 0x1FF) >> 3) & 0x1FF == index & 0x1FF
  {}

  lemma EntryWord(table: bv64, index: bv64)
    ensures WordOf(EntryAddress(PageOf(table), index & 0x1FF)) == Low9(index)
  {
    hide Low9, PageOf, EntryAddress;
    EntryAddressWord(table, index);
    Low9Congruent(EntryAddress(PageOf(table), index & 0x1FF) >> 3, index);
  }

  lemma EntryAddressMeaning(table: bv64, index: bv64)
    requires PageOf(table) == table && index & 0x1FF == index
    ensures PathOf(EntryAddress(table, index)) == PathOf(table)
    ensures UpperHalf(EntryAddress(table, index)) == UpperHalf(table)
    ensures WordOf(EntryAddress(table, index)) == Low9(index)
  {
    hide Low9, PathOf, PageOf, WordOf, UpperHalf, EntryAddress;
    EntryAddressPage(table, index);
    EntryWord(table, index);
    SamePage(EntryAddress(table, index), table);
    SamePageUpper(EntryAddress(table, index), table);
  }

  lemma IndexIsNineBits(v: bv64)
    ensures GetP4EntryIndex(v) & 0x1FF == GetP4EntryIndex(v)
    ensures GetP3EntryIndex(v) & 0x1FF == GetP3EntryIndex(v)
    ensures GetP2EntryIndex(v) & 0x1FF == GetP2EntryIndex(v)
    ensures GetP1EntryIndex(v) & 0x1FF == GetP1EntryIndex(v)
  {}

  lemma PageFromIndices(v: bv64)
    ensures PageOf(v | 0xFFFF800000000000)
            == 0xFFFF800000000000 | ((GetP4EntryIndex(v) & 0x1FF) << 39) | ((GetP3EntryIndex(v) & 0x1FF) << 30)
               | ((GetP2EntryIndex(v) & 0x1FF) << 21) | ((GetP1EntryIndex(v) & 0x1FF) << 12)
  {}

  /** In the upper half the four slots determine the page. */
  lemma PathInjective(v: bv64, w: bv64)
    requires UpperHalf(v) && UpperHalf(w)
    requires PathOf(v) == PathOf(w)
    ensures PageOf(v) == PageOf(w)
  {
    hide Low9, PageOf, UpperHalf, GetP4EntryIndex, GetP3EntryIndex, GetP2EntryIndex, GetP1EntryIndex;
    Low9Injective(GetP4EntryIndex(v), GetP4EntryIndex(w));
    Low9Injective(GetP3EntryIndex(v), GetP3EntryIndex(w));
    Low9Injective(GetP2EntryIndex(v), GetP2EntryIndex(w));
    Low9Injective(GetP1EntryIndex(v), GetP1EntryIndex(w));
    UpperIsOr(v);
    UpperIsOr(w);
    PageFromIndices(v);
    PageFromIndices(w);
  }

  lemma PageFromIndicesLow(v: bv64)
    ensures PageOf(v & 0x00007FFFFFFFFFFF)
            == ((GetP4EntryIndex(v) & 0xFF) << 39) | ((GetP3EntryIndex(v) & 0x1FF) << 30)
               | ((GetP2EntryIndex(v) & 0x1FF) << 21) | ((GetP1EntryIndex(v) & 0x1FF) << 12)
  {}

  lemma LowerIsAnd(v: bv64)
    requires Canonical(v) && !UpperHalf(v)
    ensures v & 0x00007FFFFFFFFFFF == v
  {}

  /** Bit 8 of the top index tells the halves apart. */
  lemma HalfFromIndex(v: bv64)
    requires Canonical(v)
    ensures UpperHalf(v) <==> GetP4EntryIndex(v) & 0x100 != 0
  {}

  lemma NineBits(i: bv64, j: bv64)
    requires i & 0x1FF == j & 0x1FF
    ensures i & 0xFF == j & 0xFF && i & 0x100 == j & 0x100
  {}

  lemma IndexAbove(i: bv64)
    requires i & 0x1FF == 511 & 0x1FF
    ensures i & 0x100 != 0
  {}

  /** An address in the last slot of the top table is in the upper half. */
  lemma TopSlotIsUpper(v: bv64)
    requires Canonical(v)
    ensures P4Slot(v) == 511 ==> UpperHalf(v)
  {
    hide Low9, UpperHalf, Canonical, GetP4EntryIndex;
    Low9Constants();
    HalfFromIndex(v);
    if P4Slot(v) == 511 {
      Low9Injective(GetP4EntryIndex(v), 511);
      IndexAbove(GetP4EntryIndex(v));
    }
  }

  /** Over all canonical addresses the four slots determine the page. */
  lemma PathDeterminesPage(v: bv64, w: bv64)
    requires Canonical(v) && Canonical(w)
    requires PathOf(v) == PathOf(w)
    ensures PageOf(v) == PageOf(w)
  {
    hide Low9, PageOf, UpperHalf, Canonical, GetP4EntryIndex, GetP3EntryIndex, GetP2EntryIndex, GetP1EntryIndex;
    Low9Injective(GetP4EntryIndex(v), GetP4EntryIndex(w));
    NineBits(GetP4EntryIndex(v), GetP4EntryIndex(w));
    HalfFromIndex(v);
    HalfFromIndex(w);
    if UpperHalf(v) {
      PathInjective(v, w);
    } else {
      LowPathInjective(v, w);
    }
  }

  lemma LowPathInjective(v: bv64, w: bv64)
    requires Canonical(v) && Canonical(w) && !UpperHalf(v) && !UpperHalf(w) && PathOf(v) == PathOf(w)
    ensures PageOf(v) == PageOf(w)
  {
    hide Low9, PageOf, UpperHalf, Canonical, GetP4EntryIndex, GetP3EntryIndex, GetP2EntryIndex, GetP1EntryIndex;
    Low9Injective(GetP4EntryIndex(v), GetP4EntryIndex(w));
    Low9Injective(GetP3EntryIndex(v), GetP3EntryIndex(w));
    Low9Injective(GetP2EntryIndex(v), GetP2EntryIndex(w));
    Low9Injective(GetP1EntryIndex(v), GetP1EntryIndex(w));
    LowerIsAnd(v);
    LowerIsAnd(w);
    PageFromIndicesLow(v);
    PageFromIndicesLow(w);
  }

  // ----- The bookkeeping bits of an entry -----

  lemma IncLow(e: bv64)
    ensures IncEntryCount(e) & 0x000FFFFFFFFFFFFF == e & 0x000FFFFFFFFFFFFF
  {}

  lemma IncHigh(e: bv64)
    ensures (IncEntryCount(e) >> 52) & 0x1FF == (((e >> 52) & 0x1FF) + 1) & 0x1FF
  {}

  lemma DecLow(e: bv64)
    ensures DecEntryCount(e) & 0x000FFFFFFFFFFFFF == e & 0x000FFFFFFFFFFFFF
  {}

  lemma DecHigh(e: bv64)
    ensures (e >> 52) & 0x1FF == (((DecEntryCount(e) >> 52) & 0x1FF) + 1) & 0x1FF
  {}

  lemma PresentIsLow(e: bv64)
    ensures Present(e & 0x000FFFFFFFFFFFFF) == Present(e)
  {}

  lemma LargeIsLow(e: bv64)
    ensures Large(e & 0x000FFFFFFFFFFFFF) == Large(e)
  {}

  lemma FrameIsLow(e: bv64)
    ensures FrameIn(e & 0x000FFFFFFFFFFFFF) == FrameIn(e)
    ensures Masked(e & 0x000FFFFFFFFFFFFF) == Masked(e)
  {}

  lemma WritableIsLow(e: bv64)
    ensures Writable(e & 0x000FFFFFFFFFFFFF) == Writable(e)
  {}

  /** Bits 0 to 51 say where an entry leads and whether it may be written through. */
  lemma LowBitsLead(e: bv64, f: bv64)
    requires SameTarget(e, f)
    ensures Present(e) == Present(f) && Large(e) == Large(f) && FrameIn(e) == FrameIn(f) && Masked(e) == Masked(f)
    ensures Writable(e) == Writable(f)
  {
    hide Present, Large, FrameIn, Masked, Writable;
    WritableIsLow(e);
    WritableIsLow(f);
    PresentIsLow(e);
    PresentIsLow(f);
    LargeIsLow(e);
    LargeIsLow(f);
    FrameIsLow(e);
    FrameIsLow(f);
  }

  /** Counting up is exact modulo 512 and leaves bits 0 to 51 alone. */
  lemma IncEntryCountMeaning(e: bv64)
    ensures SameTarget(IncEntryCount(e), e)
    ensures CountIn(IncEntryCount(e)) == (CountIn(e) + 1) % 512
  {
    hide Low9, IncEntryCount;
    IncLow(e);
    IncHigh(e);
    Low9Succ(e >> 52, IncEntryCount(e) >> 52);
  }

  /** Counting down is exact modulo 512 and leaves bits 0 to 51 alone. */
  lemma DecEntryCountMeaning(e: bv64)
    ensures SameTarget(DecEntryCount(e), e)
    ensures CountIn(e) == (CountIn(DecEntryCount(e)) + 1) % 512
  {
    hide Low9, DecEntryCount;
    DecLow(e);
    DecHigh(e);
    Low9Succ(DecEntryCount(e) >> 52, e >> 52);
  }

  lemma HasEntriesMeaning(e: bv64)
    ensures HasEntries(e) <==> CountIn(e) != 0
  {
    var c := ((e >> 52) & 0x1FF) as bv9;
    assert HasEntries(e) <==> c != 0;
  }

  /** The 512th increment spills into bit 61; the decrement from there also sets bits 62 and 63. */
  lemma FullTableSpills(e: bv64)
    requires CountIn(e) == 511
    ensures IncEntryCount(e) & (1 << 61) != 0 && CountIn(IncEntryCount(e)) == 0
    ensures DecEntryCount(IncEntryCount(e)) & (7 << 61) == 7 << 61 && CountIn(DecEntryCount(IncEntryCount(e))) == 511
  {
    IncEntryCountMeaning(e);
    DecEntryCountMeaning(IncEntryCount(e));
    Low9Constants();
    Low9Injective(e >> 52, 511);
    FullSpill(e);
    hide *;
  }

  lemma FullSpill(e: bv64)
    ensures IncEntryCount(e | (511 << 52)) & (1 << 61) != 0
    ensures DecEntryCount(IncEntryCount(e | (511 << 52))) & (7 << 61) == 7 << 61
  {}

  // ----- New entries -----

  lemma NewPresent(p: bv64, f: bv64)
    ensures Present(NewEntry(p & 0x7FFFF000, f & 0xFFF))
  {}

  lemma NewFrame(p: bv64, f: bv64)
    ensures FrameIn(NewEntry(p & 0x7FFFF000, f & 0xFFF)) == p & 0x7FFFF000
    ensures Masked(NewEntry(p & 0x7FFFF000, f & 0xFFF)) == p & 0x7FFFF000
  {}

  lemma NewCount(p: bv64, f: bv64)
    ensures (NewEntry(p & 0x7FFFF000, f & 0xFFF) >> 52) & 0x1FF == 0 & 0x1FF
  {}

  lemma NewNotLarge(p: bv64, f: bv64)
    ensures !Large(NewEntry(p & 0x7FFFF000, f & 0xF7F))
  {}

  /** An entry made for a frame leads to that frame, both for the hardware and for UnmapPage. */
  lemma NewEntryMeaning(paddr: bv64, flags: bv64, level: nat)
    requires Good(paddr) && FlagsOk(flags, level)
    ensures Present(NewEntry(paddr, flags))
    ensures FrameIn(NewEntry(paddr, flags)) == paddr && Masked(NewEntry(paddr, flags)) == paddr
    ensures CountIn(NewEntry(paddr, flags)) == 0
    ensures level < 4 ==> !Large(NewEntry(paddr, flags))
  {
    hide Low9, Present, FrameIn, Masked, Large, NewEntry;
    NewPresent(paddr, flags);
    NewFrame(paddr, flags);
    NewCount(paddr, flags);
    NewNotLarge(paddr, flags);
    Low9Congruent(NewEntry(paddr, flags) >> 52, 0);
    Low9Constants();
  }

  lemma NewWritable(p: bv64, f: bv64)
    ensures Writable(NewEntry(p & 0x7FFFF000, f)) == Writable(f)
  {}

  /** A new entry may be written through exactly when its flags say so. */
  lemma NewEntryWritable(paddr: bv64, flags: bv64)
    requires Good(paddr)
    ensures Writable(NewEntry(paddr, flags)) == Writable(flags)
  {
    hide Writable, NewEntry;
    NewWritable(paddr, flags);
  }

  lemma NewUser(p: bv64, f: bv64)
    ensures UserMode(NewEntry(p & 0x7FFFF000, f)) == UserMode(f)
  {}

  lemma NewExecutable(p: bv64, f: bv64)
    ensures !NoExecute(NewEntry(p & 0x7FFFF000, f & 0xFFF))
  {}

  /** The two entries grant the same right to write and to be used in user mode. */
  predicate SameGrant(e: bv64, f: bv64) { Writable(e) == Writable(f) && UserMode(e) == UserMode(f) }

  /** A new entry grants what its flags say and never forbids execution. */
  lemma NewEntryGrants(paddr: bv64, flags: bv64, level: nat)
    requires Good(paddr) && FlagsOk(flags, level)
    ensures SameGrant(NewEntry(paddr, flags), flags) && !NoExecute(NewEntry(paddr, flags))
  {
    hide Writable, UserMode, NoExecute, NewEntry;
    NewWritable(paddr, flags);
    NewUser(paddr, flags);
    NewExecutable(paddr, flags);
  }

  /** UnmapPage finds the frame it was given exactly when that frame lies below 2 GiB. */
  lemma UnmapMaskExact(paddr: bv64, flags: bv64)
    requires FrameIn(paddr) == paddr && flags & 0xFFF == flags
    ensures Masked(NewEntry(paddr, flags)) == paddr <==> paddr < 0x80000000
  {}

  lemma NotPresentWord()
    ensures !Present(!PAGE_PRESENT) && !Present(0)
  {}

  // ----- Numbers written in nine-bit digits -----

  function Rest(x: bv64): bv64 { x >> 9 }

  /** The number in the low 9k bits of a word. */
  function Num(x: bv64, k: nat): nat
    decreases k
  {
    if k == 0 then 0 else Low9(x) + 512 * Num(Rest(x), k - 1)
  }

  predicate AllOnes(x: bv64, k: nat)
    decreases k
  {
    k == 0 || (Low9(x) == 511 && AllOnes(Rest(x), k - 1))
  }

  predicate Short(x: bv64) { x < 0x8000000000000000 }

  function Next(x: bv64): bv64 { x + 1 }

  lemma NoCarryBits(x: bv64)
    requires x & 0x1FF != 0x1FF
    ensures Rest(Next(x)) == Rest(x)
  {}

  lemma CarryBits(x: bv64)
    requires x & 0x1FF == 0x1FF && Short(x)
    ensures Rest(Next(x)) == Next(Rest(x))
  {}

  lemma SuccDigit(x: bv64)
    ensures Next(x) & 0x1FF == ((x & 0x1FF) + 1) & 0x1FF
  {}

  lemma RestIsShort(x: bv64)
    ensures Short(Rest(x))
  {}

  lemma LastDigit(x: bv64)
    ensures Low9(x) == 511 <==> x & 0x1FF == 0x1FF
  {
    hide Low9;
    Low9Constants();
    if x & 0x1FF == 0x1FF { Low9Congruent(x, 511); }
    if Low9(x) == 511 { Low9Injective(x, 511); }
  }

  lemma NoCarry(x: bv64)
    requires Low9(x) != 511
    ensures Low9(Next(x)) == Low9(x) + 1 && Rest(Next(x)) == Rest(x)
  {
    hide Low9, Rest, Next;
    LastDigit(x);
    NoCarryBits(x);
    SuccDigit(x);
    Low9Succ(x, Next(x));
  }

  lemma Carry(x: bv64)
    requires Low9(x) == 511 && Short(x)
    ensures Low9(Next(x)) == 0 && Rest(Next(x)) == Next(Rest(x))
  {
    hide Low9, Rest, Next, Short;
    LastDigit(x);
    CarryBits(x);
    SuccDigit(x);
    Low9Succ(x, Next(x));
  }

  lemma {:induction false} NumSucc(x: bv64, k: nat)
    requires Short(x) && !AllOnes(x, k)
    ensures Num(Next(x), k) == Num(x, k) + 1
    decreases k
  {
    hide Low9, Rest, Next, Short;
    if Low9(x) == 511 {
      Carry(x);
      RestIsShort(x);
      NumSucc(Rest(x), k - 1);
    } else {
      NoCarry(x);
    }
  }

  // ----- Pointers into the last 2 GiB -----

  function Up(v: bv64): bv64 { v + 8 }

  function Down(v: bv64): bv64 { v - 8 }

  predicate KernelWindow(v: bv64) { v & 0xFFFFFFFF80000000 == 0xFFFFFFFF80000000 }

  predicate WordAligned(v: bv64) { v & 7 == 0 }

  function WordIndex(v: bv64): bv64 { (v & 0x7FFFFFFF) >> 3 }

  /** The number of the word, counted from the start of the window. */
  function WordNumber(v: bv64): nat { Num(WordIndex(v), 4) }

  lemma Digit0(v: bv64)
    ensures WordIndex(v) & 0x1FF == (v >> 3) & 0x1FF
  {}

  lemma Digit1(v: bv64)
    ensures Rest(WordIndex(v)) & 0x1FF == GetP1EntryIndex(v) & 0x1FF
  {}

  lemma Digit2(v: bv64)
    ensures Rest(Rest(WordIndex(v))) & 0x1FF == GetP2EntryIndex(v) & 0x1FF
  {}

  lemma Digit3(v: bv64)
    requires KernelWindow(v)
    ensures (Rest(Rest(Rest(WordIndex(v)))) == 0 && GetP3EntryIndex(v) == 510)
         || (Rest(Rest(Rest(WordIndex(v)))) == 1 && GetP3EntryIndex(v) == 511)
  {}

  lemma WindowTop(v: bv64)
    requires KernelWindow(v)
    ensures GetP4EntryIndex(v) == 511
  {}

  lemma LowDigits(v: bv64)
    ensures Low9(WordIndex(v)) == WordOf(v)
    ensures Low9(Rest(WordIndex(v))) == P1Slot(v)
    ensures Low9(Rest(Rest(WordIndex(v)))) == P2Slot(v)
  {
    hide Low9, Rest, WordIndex, GetP2EntryIndex, GetP1EntryIndex;
    Digit0(v);
    Digit1(v);
    Digit2(v);
    Low9Congruent(WordIndex(v), v >> 3);
    Low9Congruent(Rest(WordIndex(v)), GetP1EntryIndex(v));
    Low9Congruent(Rest(Rest(WordIndex(v))), GetP2EntryIndex(v));
  }

  lemma HighDigits(v: bv64)
    requires KernelWindow(v)
    ensures P4Slot(v) == 511 && 510 <= P3Slot(v) <= 511
    ensures Low9(Rest(Rest(Rest(WordIndex(v))))) == P3Slot(v) - 510
  {
    hide Low9, Rest, WordIndex, KernelWindow, GetP4EntryIndex, GetP3EntryIndex;
    WindowTop(v);
    Digit3(v);
    Low9Constants();
  }

  lemma FourDigits(x: bv64)
    ensures Num(x, 4) ==
            Low9(x) + 512 * Low9(Rest(x)) + 0x40000 * Low9(Rest(Rest(x))) + 0x8000000 * Low9(Rest(Rest(Rest(x))))
    ensures AllOnes(x, 4) ==> Low9(Rest(Rest(Rest(x)))) == 511
  {
    hide Low9, Rest;
    var y := Rest(Rest(x));
    assert Num(y, 2) == Low9(y) + 512 * Num(Rest(y), 1);
    assert Num(Rest(y), 1) == Low9(Rest(y)) + 512 * Num(Rest(Rest(y)), 0);
    assert Num(x, 4) == Low9(x) + 512 * Num(Rest(x), 3);
    assert Num(Rest(x), 3) == Low9(Rest(x)) + 512 * Num(y, 2);
    assert AllOnes(x, 4) ==> AllOnes(Rest(x), 3);
    assert AllOnes(Rest(x), 3) ==> AllOnes(y, 2);
    assert AllOnes(y, 2) ==> AllOnes(Rest(y), 1);
  }

  /** The digits of a word number are the slots of the address. */
  lemma PointerDigits(v: bv64)
    requires KernelWindow(v)
    ensures P4Slot(v) == 511 && 510 <= P3Slot(v) <= 511
    ensures WordNumber(v) == WordOf(v) + 512 * P1Slot(v) + 0x40000 * P2Slot(v) + 0x8000000 * (P3Slot(v) - 510)
  {
    hide Low9, Rest, WordIndex, KernelWindow, P4Slot, P3Slot, P2Slot, P1Slot, WordOf;
    LowDigits(v);
    HighDigits(v);
    FourDigits(WordIndex(v));
  }

  lemma WindowIsUpper(v: bv64)
    requires KernelWindow(v)
    ensures UpperHalf(v)
  {}

  function WordAddress(page: bv64, word: bv64): bv64 { page | ((word & 0x1FF) << 3) }

  function WordBits(v: bv64): bv64 { (v >> 3) & 0x1FF }

  lemma PointerFromPage(v: bv64)
    requires WordAligned(v)
    ensures v == WordAddress(PageOf(v), WordBits(v))
  {}

  lemma SameWordBits(v: bv64, w: bv64)
    requires WordOf(v) == WordOf(w)
    ensures WordBits(v) == WordBits(w)
  {
    hide Low9;
    Low9Injective(v >> 3, w >> 3);
  }

  lemma SameDigits(a: nat, b: nat, c: nat, d: nat, a': nat, b': nat, c': nat, d': nat)
    requires a < 512 && b < 512 && c < 512 && a' < 512 && b' < 512 && c' < 512
    requires a + 512 * b + 0x40000 * c + 0x8000000 * d == a' + 512 * b' + 0x40000 * c' + 0x8000000 * d'
    ensures a == a' && b == b' && c == c' && d == d'
  {}

  lemma SlotsAreSmall(v: bv64)
    ensures P4Slot(v) < 512 && P3Slot(v) < 512 && P2Slot(v) < 512 && P1Slot(v) < 512 && WordOf(v) < 512
  {}

  lemma SameNumberSamePlace(v: bv64, w: bv64)
    requires KernelWindow(v) && KernelWindow(w) && WordNumber(v) == WordNumber(w)
    ensures PathOf(v) == PathOf(w) && WordOf(v) == WordOf(w)
  {
    SlotsAreSmall(v);
    SlotsAreSmall(w);
    hide Low9, KernelWindow, P4Slot, P3Slot, P2Slot, P1Slot, WordOf, WordNumber;
    PointerDigits(v);
    PointerDigits(w);
    SameDigits(WordOf(v), P1Slot(v), P2Slot(v), P3Slot(v) - 510, WordOf(w), P1Slot(w), P2Slot(w), P3Slot(w) - 510);
  }

  lemma PointerInjective(v: bv64, w: bv64)
    requires KernelWindow(v) && KernelWindow(w) && WordAligned(v) && WordAligned(w)
    requires WordNumber(v) == WordNumber(w)
    ensures v == w
  {
    hide KernelWindow, WordAligned, UpperHalf, PathOf, WordOf, WordNumber, PageOf, WordBits, WordAddress;
    WindowIsUpper(v);
    WindowIsUpper(w);
    SameNumberSamePlace(v, w);
    PathInjective(v, w);
    SameWordBits(v, w);
    PointerFromPage(v);
    PointerFromPage(w);
  }

  lemma AdvanceBits(v: bv64)
    requires KernelWindow(v) && WordAligned(v) && v != 0xFFFFFFFFFFFFFFF8
    ensures KernelWindow(Up(v)) && WordAligned(Up(v))
  {}

  lemma AdvanceIndex(v: bv64)
    requires KernelWindow(v) && WordAligned(v) && v != 0xFFFFFFFFFFFFFFF8
    ensures WordIndex(Up(v)) == Next(WordIndex(v))
  {}

  lemma IndexIsShort(v: bv64)
    ensures Short(WordIndex(v))
  {}

  lemma LastWord()
    ensures KernelWindow(0xFFFFFFFFFFFFFFF8) && WordNumber(0xFFFFFFFFFFFFFFF8) == 0xFFFFFFF
  {
    var v: bv64 := 0xFFFFFFFFFFFFFFF8;
    assert GetP3EntryIndex(v) == GetP2EntryIndex(v) == GetP1EntryIndex(v) == 511 && (v >> 3) & 0x1FF == 511 & 0x1FF;
    hide Low9;
    Low9Constants();
    Low9Congruent(v >> 3, 511);
    PointerDigits(v);
  }

  /** Moving a pointer up by one word. */
  lemma PointerAdvance(v: bv64)
    requires KernelWindow(v) && WordAligned(v) && WordNumber(v) + 1 < 0x10000000
    ensures KernelWindow(Up(v)) && WordAligned(Up(v))
    ensures WordNumber(Up(v)) == WordNumber(v) + 1
  {
    hide Low9, Rest, WordIndex, KernelWindow, WordAligned, Next, Short;
    LastWord();
    AdvanceBits(v);
    AdvanceIndex(v);
    IndexIsShort(v);
    HighDigits(v);
    FourDigits(WordIndex(v));
    NumSucc(WordIndex(v), 4);
  }

  lemma BackAgain(v: bv64)
    ensures Down(Up(v)) == v
  {}

  /** The word below a higher pointer has the number below. */
  lemma {:induction false} PointerBelow(v: bv64, w: bv64)
    requires KernelWindow(v) && KernelWindow(w) && WordAligned(v) && WordAligned(w)
    requires WordNumber(v) < WordNumber(w)
    ensures KernelWindow(Down(w)) && WordAligned(Down(w)) && WordNumber(Down(w)) + 1 == WordNumber(w)
    decreases WordNumber(w) - WordNumber(v)
  {
    hide KernelWindow, WordAligned, WordNumber, Up, Down;
    NumberFits(w);
    PointerAdvance(v);
    BackAgain(v);
    if WordNumber(Up(v)) == WordNumber(w) {
      PointerInjective(Up(v), w);
    } else {
      PointerBelow(Up(v), w);
    }
  }

  lemma NineOrder(c: bv9, d: bv9)
    requires c as nat < d as nat
    ensures c < d
  {}

  predicate Before(x: bv64, y: bv64) { x < y }

  predicate LowBefore(x: bv64, y: bv64) { x & 0x1FF < y & 0x1FF }

  lemma Low9Order(x: bv64, y: bv64)
    requires Low9(x) < Low9(y)
    ensures LowBefore(x, y)
  {
    NineOrder((x & 0x1FF) as bv9, (y & 0x1FF) as bv9);
  }

  lemma OrderHigh(x: bv64, y: bv64)
    requires Before(Rest(x), Rest(y))
    ensures Before(x, y)
  {}

  lemma OrderLow(x: bv64, y: bv64)
    requires Rest(x) == Rest(y) && LowBefore(x, y)
    ensures Before(x, y)
  {}

  lemma {:induction false} NumOrder(x: bv64, y: bv64, k: nat)
    requires Num(x, k) < Num(y, k) && Beyond(x, k) == Beyond(y, k)
    ensures Before(x, y)
    decreases k
  {
    hide Low9, Rest, Before, LowBefore;
    if Num(Rest(x), k - 1) < Num(Rest(y), k - 1) {
      NumOrder(Rest(x), Rest(y), k - 1);
      OrderHigh(x, y);
    } else {
      NumInjective(Rest(x), Rest(y), k - 1);
      Low9Order(x, y);
      OrderLow(x, y);
    }
  }

  /** What is left of a word after k digits. */
  function Beyond(x: bv64, k: nat): bv64
    decreases k
  {
    if k == 0 then x else Beyond(Rest(x), k - 1)
  }

  lemma FromRest(x: bv64)
    ensures x == (Rest(x) << 9) | (x & 0x1FF)
  {}

  lemma {:induction false} NumInjective(x: bv64, y: bv64, k: nat)
    requires Num(x, k) == Num(y, k) && Beyond(x, k) == Beyond(y, k)
    ensures x == y
    decreases k
  {
    hide Low9, Rest;
    if k > 0 {
      NumInjective(Rest(x), Rest(y), k - 1);
      Low9Injective(x, y);
      FromRest(x);
      FromRest(y);
    }
  }

  lemma IndexOrder(v: bv64, w: bv64)
    requires KernelWindow(v) && KernelWindow(w) && WordAligned(v) && WordAligned(w)
    requires Before(WordIndex(v), WordIndex(w))
    ensures Before(v, w)
  {}

  lemma NothingBeyond(v: bv64)
    ensures Rest(Rest(Rest(Rest(WordIndex(v))))) == 0
  {}

  /** Word numbers order pointers. */
  lemma PointerOrder(v: bv64, w: bv64)
    requires KernelWindow(v) && KernelWindow(w) && WordAligned(v) && WordAligned(w)
    requires WordNumber(v) < WordNumber(w)
    ensures Before(v, w)
  {
    hide Low9, Rest, WordIndex, KernelWindow, WordAligned, Before;
    NothingBeyond(v);
    NothingBeyond(w);
    FourBeyond(WordIndex(v));
    FourBeyond(WordIndex(w));
    NumOrder(WordIndex(v), WordIndex(w), 4);
    IndexOrder(v, w);
  }

  lemma FourBeyond(x: bv64)
    ensures Beyond(x, 4) == Rest(Rest(Rest(Rest(x))))
  {
    hide Rest;
    assert Beyond(Rest(Rest(x)), 2) == Beyond(Rest(Rest(Rest(x))), 1);
  }

  lemma NumberFits(v: bv64)
    requires KernelWindow(v)
    ensures WordNumber(v) < 0x10000000
  {
    hide Low9, KernelWindow, WordNumber;
    PointerDigits(v);
  }

  // ----- Page numbers of physical addresses -----

  function Align(x: bv64): bv64 { (x + 0xFFF) & 0xFFFFFFFFFFFFF000 }

  /** Physical address of an address in the last 2 GiB. */
  function Paddr(x: bv64): bv64 { x & 0x7FFFFFFF }

  /** Align rounds up to the next page: the result is page-aligned, not below x and less than a page above it. */
  lemma AlignMeaning(x: bv64)
    requires x <= 0xFFFFFFFFFFFFF000
    ensures Align(x) & 0xFFF == 0 && x <= Align(x) && Align(x) - x < 0x1000
  {}

  function PageIndex(a: bv64): bv64 { a >> 12 }

  function PageNumber(a: bv64): nat { Num(PageIndex(a), 4) }

  /** The offset of an address in its page. */
  function Offset(a: bv64): (n: nat)
    ensures n < 0x1000
  {
    (a & 0xFFF) as bv12 as nat
  }

  /** An address as a number: all of its page index, and the offset. */
  function Address(a: bv64): nat { 0x1000 * Num(PageIndex(a), 6) + Offset(a) }

  function NextPage(a: bv64): bv64 { a + 0x1000 }

  lemma NextPageIndex(a: bv64)
    requires Good(a)
    ensures PageIndex(NextPage(a)) == Next(PageIndex(a))
  {}

  lemma NextPageGood(a: bv64)
    requires Good(a) && a != 0x7FFFF000
    ensures Good(NextPage(a))
  {}

  lemma GoodIndexIsShort(a: bv64)
    requires Good(a)
    ensures Short(PageIndex(a)) && Rest(Rest(Rest(PageIndex(a)))) == 0
  {}

  lemma GoodHighDigit(a: bv64)
    requires Good(a)
    ensures Rest(Rest(PageIndex(a))) == 0 || Rest(Rest(PageIndex(a))) == 1
  {}

  lemma RestOfZero()
    ensures Rest(0) == 0
  {}

  lemma LastPage()
    ensures Low9(PageIndex(0x7FFFF000)) == 511 && Low9(Rest(PageIndex(0x7FFFF000))) == 511
    ensures Low9(Rest(Rest(PageIndex(0x7FFFF000)))) == 1 && Rest(Rest(Rest(PageIndex(0x7FFFF000)))) == 0
  {}

  lemma GoodPageDigits(a: bv64)
    requires Good(a)
    ensures PageNumber(a) ==
            Low9(PageIndex(a)) + 512 * Low9(Rest(PageIndex(a))) + 0x40000 * Low9(Rest(Rest(PageIndex(a))))
    ensures Low9(Rest(Rest(PageIndex(a)))) <= 1
    ensures PageNumber(a) < 0x80000
  {
    hide Low9, Rest, PageIndex, Good;
    FourDigits(PageIndex(a));
    GoodIndexIsShort(a);
    GoodHighDigit(a);
    Low9Constants();
  }

  lemma NumOfZero()
    ensures Num(0, 1) == 0 && Num(0, 3) == 0 && Rest(0) == 0
  {
    RestOfZero();
    Low9Constants();
    hide Low9, Rest;
    assert Num(0, 0) == 0 && Num(0, 1) == 0 && Num(0, 2) == 0;
  }

  lemma NoOffset(a: bv64)
    requires Good(a)
    ensures Offset(a) == 0
  {
    assert a & 0xFFF == 0;
  }

  /** The address of a frame below 2 GiB. */
  lemma GoodAddress(a: bv64)
    requires Good(a)
    ensures Address(a) == 0x1000 * PageNumber(a)
  {
    hide Low9, Rest, PageIndex, Good, Offset;
    NoOffset(a);
    NumOfZero();
    GoodIndexIsShort(a);
    var x := PageIndex(a);
    SixDigits(x);
    assert Num(x, 4) == Low9(x) + 512 * Num(Rest(x), 3);
    assert Num(Rest(x), 3) == Low9(Rest(x)) + 512 * Num(Rest(Rest(x)), 2);
    assert Num(Rest(Rest(x)), 2) == Low9(Rest(Rest(x))) + 512 * Num(Rest(Rest(Rest(x))), 1);
  }

  lemma SixDigits(x: bv64)
    ensures Num(x, 6) ==
            Low9(x) + 512 * (Low9(Rest(x)) + 512 * (Low9(Rest(Rest(x))) + 512 * Num(Rest(Rest(Rest(x))), 3)))
  {
    hide Low9, Rest;
    assert Num(x, 6) == Low9(x) + 512 * Num(Rest(x), 5);
    assert Num(Rest(x), 5) == Low9(Rest(x)) + 512 * Num(Rest(Rest(x)), 4);
    assert Num(Rest(Rest(x)), 4) == Low9(Rest(Rest(x))) + 512 * Num(Rest(Rest(Rest(x))), 3);
  }

  /** Page numbers name page-aligned addresses below 2 GiB. */
  lemma PageInjective(a: bv64, b: bv64)
    requires Good(a) && Good(b) && PageNumber(a) == PageNumber(b)
    ensures a == b
  {
    hide Low9, Rest, PageIndex, Good;
    GoodIndexIsShort(a);
    GoodIndexIsShort(b);
    RestOfZero();
    FourBeyond(PageIndex(a));
    FourBeyond(PageIndex(b));
    NumInjective(PageIndex(a), PageIndex(b), 4);
    FromPageIndex(a);
    FromPageIndex(b);
  }

  lemma FromPageIndex(a: bv64)
    requires Good(a)
    ensures a == PageIndex(a) << 12
  {}

  lemma IndexBefore(a: bv64, b: bv64)
    requires Before(PageIndex(a), PageIndex(b))
    ensures Before(a, b)
  {}

  /** Page numbers order addresses. */
  lemma PageOrder(a: bv64, b: bv64)
    requires Good(a) && Good(b) && PageNumber(a) < PageNumber(b)
    ensures Before(a, b)
  {
    hide Low9, Rest, PageIndex, Good, Before;
    GoodIndexIsShort(a);
    GoodIndexIsShort(b);
    RestOfZero();
    FourBeyond(PageIndex(a));
    FourBeyond(PageIndex(b));
    NumOrder(PageIndex(a), PageIndex(b), 4);
    IndexBefore(a, b);
  }

  /** The next page has the next number. */
  lemma PageAdvance(a: bv64)
    requires Good(a) && PageNumber(a) + 1 < 0x80000
    ensures Good(NextPage(a)) && PageNumber(NextPage(a)) == PageNumber(a) + 1
  {
    hide Low9, Rest, PageIndex, Good, NextPage, Next, Short;
    LastPage();
    GoodPageDigits(a);
    NextPageGood(a);
    NextPageIndex(a);
    GoodIndexIsShort(a);
    FourDigits(PageIndex(a));
    Low9Constants();
    NumSucc(PageIndex(a), 4);
  }

  predicate Whole(x: bv64) { x & 0xFFF == 0 }

  /** The kernel ends at or below 1 GiB, and not in the last page of the address space. */
  predicate EndsLow(k: bv64) { k <= 0xFFFFFFFFFFFFF000 && Paddr(k) <= 0x40000000 }

  lemma PaddrParts(x: bv64)
    ensures Good(PageOf(Paddr(x))) && Whole(Paddr(x)) == Whole(x)
  {}

  lemma PageBelow(x: bv64)
    ensures PageIndex(PageOf(x)) == PageIndex(x)
  {}

  lemma WholePage(x: bv64)
    requires Whole(x)
    ensures PageOf(x) == x
  {}

  lemma PartOfPage(x: bv64)
    requires !Whole(x)
    ensures Before(PageOf(x), x)
  {}

  lemma NotAfterPage(x: bv64)
    ensures !Before(x, PageOf(x))
  {}

  /** A frame begins below e when its page is below that of e, or is that page and e lies inside. */
  lemma BeforeInPages(a: bv64, e: bv64)
    requires Good(a) && Good(PageOf(e))
    ensures Before(a, e) <==>
            PageNumber(a) < PageNumber(PageOf(e)) || (PageNumber(a) == PageNumber(PageOf(e)) && !Whole(e))
  {
    hide Good, PageOf, PageIndex, PageNumber, Before, Num, Whole;
    PageBelow(e);
    if PageNumber(a) < PageNumber(PageOf(e)) {
      FrameOrder(a, PageOf(e));
      IndexBefore(a, e);
    } else if PageNumber(a) == PageNumber(PageOf(e)) {
      PageInjective(a, PageOf(e));
      if !Whole(e) {
        PartOfPage(e);
      } else {
        WholePage(e);
        NotBeforeItself(a);
      }
    } else {
      FrameOrder(PageOf(e), a);
      IndexBefore(e, a);
      NotBeforeBoth(e, a);
    }
  }

  lemma FrameOrder(a: bv64, b: bv64)
    requires Good(a) && Good(b) && PageNumber(a) < PageNumber(b)
    ensures Before(PageIndex(a), PageIndex(b))
  {
    hide Low9, Rest, PageIndex, Good, Before;
    GoodIndexIsShort(a);
    GoodIndexIsShort(b);
    RestOfZero();
    FourBeyond(PageIndex(a));
    FourBeyond(PageIndex(b));
    NumOrder(PageIndex(a), PageIndex(b), 4);
  }

  lemma NotBeforeItself(a: bv64)
    ensures !Before(a, a)
  {}

  lemma NotBeforeBoth(a: bv64, b: bv64)
    requires Before(a, b)
    ensures !Before(b, a)
  {}

  /** Rounding up the physical address of a window address that is not in the last page. */
  lemma AlignPaddr(k: bv64)
    requires EndsLow(k)
    ensures if Whole(k) then Paddr(Align(k)) == PageOf(Paddr(k))
            else Paddr(Align(k)) == NextPage(PageOf(Paddr(k)))
  {}

  lemma GibNumber()
    ensures Good(0x40000000) && PageNumber(0x40000000) == 0x40000
  {
    GoodPageDigits(0x40000000);
    assert PageIndex(0x40000000) == 0x40000 && Rest(0x40000) == 0x200 && Rest(0x200) == 1;
  }

  lemma NotAbove(k: bv64)
    requires EndsLow(k)
    ensures !Before(0x40000000, Paddr(k))
  {}

  /** An end of the image up to 1 GiB lies in one of the first 0x40000 pages, or where they end. */
  lemma EndNumber(k: bv64)
    requires EndsLow(k)
    ensures Good(PageOf(Paddr(k)))
    ensures PageNumber(PageOf(Paddr(k))) < 0x40000 || (PageNumber(PageOf(Paddr(k))) == 0x40000 && Whole(k))
  {
    hide Good, PageOf, PageIndex, PageNumber, Before, Paddr, Whole, EndsLow;
    PaddrParts(k);
    GibNumber();
    NotAbove(k);
    BeforeInPages(0x40000000, Paddr(k));
  }

  /** A frame begins below the end of the image exactly when it begins below the end rounded up. */
  lemma BeforeEnd(a: bv64, k: bv64)
    requires Good(a) && EndsLow(k)
    ensures Good(Paddr(Align(k))) && PageNumber(Paddr(Align(k))) <= 0x40000
    ensures Before(a, Paddr(k)) <==> PageNumber(a) < PageNumber(Paddr(Align(k)))
  {
    hide Good, PageOf, PageIndex, PageNumber, Before, Paddr, Align, NextPage, Whole, EndsLow;
    EndNumber(k);
    PaddrParts(k);
    BeforeInPages(a, Paddr(k));
    AlignPaddr(k);
    if !Whole(k) { PageAdvance(PageOf(Paddr(k))); }
  }

  /** The end of a kernel image of at most 1 GiB at the start of the last 2 GiB. */
  predicate ImageEnd(k: bv64) { KernelWindow(k) && k != 0xFFFFFFFF80000000 && EndsLow(k) }

  lemma NotFirst(k: bv64)
    requires ImageEnd(k)
    ensures Before(0, Paddr(k))
  {}

  lemma AlignStays(k: bv64)
    requires ImageEnd(k)
    ensures KernelWindow(Align(k)) && PageOf(Align(k)) == Align(k)
  {}

  /** The page behind the image. */
  lemma EndFacts(k: bv64)
    requires ImageEnd(k)
    ensures EndsLow(k) && KernelWindow(Align(k)) && PageOf(Align(k)) == Align(k)
    ensures Good(Paddr(Align(k))) && 0 < PageNumber(Paddr(Align(k))) <= 0x40000
  {
    hide Good, PageOf, PageNumber, Before, Paddr, Align, KernelWindow, EndsLow;
    AlignStays(k);
    NotFirst(k);
    ZeroPage();
    BeforeEnd(0, k);
  }

  // ----- The flags of the four levels -----

  /** Flags are bits 0 to 11; the page-size bit may be set for a page only. */
  predicate FlagsOk(flags: bv64, level: nat) {
    flags & 0xFFF == flags && (level < 4 ==> flags & 0xF7F == flags)
  }

  /** What MapPage makes of its flags at each level. */
  function LevelFlags(flags: bv64, level: nat): bv64 {
    if level == 1 then flags & !PAGE_SIZE & !PAGE_GLOBAL
    else if level < 4 then flags & !PAGE_SIZE
    else flags
  }

  lemma NoSizeNoGlobal(flags: bv64)
    ensures (((flags & 0xFFF) & !PAGE_SIZE) & !PAGE_GLOBAL) & 0xF7F == ((flags & 0xFFF) & !PAGE_SIZE) & !PAGE_GLOBAL
  {}

  lemma NoSize(flags: bv64)
    ensures ((flags & 0xFFF) & !PAGE_SIZE) & 0xF7F == (flags & 0xFFF) & !PAGE_SIZE
  {}

  lemma NarrowFlags(flags: bv64)
    requires flags & 0xF7F == flags
    ensures FlagsOk(flags, 1)
  {}

  lemma NoSizeWritable(flags: bv64)
    ensures Writable(flags & !PAGE_SIZE) == Writable(flags)
  {}

  lemma NoSizeNoGlobalWritable(flags: bv64)
    ensures Writable(flags & !PAGE_SIZE & !PAGE_GLOBAL) == Writable(flags)
  {}

  lemma NoSizeUser(flags: bv64)
    ensures UserMode(flags & !PAGE_SIZE) == UserMode(flags)
  {}

  lemma NoSizeNoGlobalUser(flags: bv64)
    ensures UserMode(flags & !PAGE_SIZE & !PAGE_GLOBAL) == UserMode(flags)
  {}

  /** Every level is made as writable and as open to user mode as was asked for. */
  lemma LevelFlagsGrant(flags: bv64, level: nat)
    ensures SameGrant(LevelFlags(flags, level), flags)
  {
    hide Writable, UserMode;
    if level == 1 {
      NoSizeNoGlobalWritable(flags);
      NoSizeNoGlobalUser(flags);
    } else if level < 4 {
      NoSizeWritable(flags);
      NoSizeUser(flags);
    }
  }

  lemma NoSizeKeeps(flags: bv64)
    ensures (flags & !PAGE_SIZE) & 0xFFFFFFFFFFFFFF7F == flags & 0xFFFFFFFFFFFFFF7F
    ensures (flags & !PAGE_SIZE) & PAGE_SIZE == 0
  {}

  lemma NoSizeNoGlobalKeeps(flags: bv64)
    ensures (flags & !PAGE_SIZE & !PAGE_GLOBAL) & 0xFFFFFFFFFFFFFE7F == flags & 0xFFFFFFFFFFFFFE7F
    ensures (flags & !PAGE_SIZE & !PAGE_GLOBAL) & PAGE_SIZE == 0
    ensures (flags & !PAGE_SIZE & !PAGE_GLOBAL) & PAGE_GLOBAL == 0
  {}

  /** Of the flags asked for, only the bits that the processor reserves in the entry of a table are cleared: the
  size bit above the last level, and the global bit in the top one. */
  lemma LevelFlagsKeep(flags: bv64, level: nat)
    ensures var own := LevelFlags(flags, level);
            if level == 1 then
              own & 0xFFFFFFFFFFFFFE7F == flags & 0xFFFFFFFFFFFFFE7F && own & PAGE_SIZE == 0 && own & PAGE_GLOBAL == 0
            else if level < 4 then own & 0xFFFFFFFFFFFFFF7F == flags & 0xFFFFFFFFFFFFFF7F && own & PAGE_SIZE == 0
            else own == flags
  {
    if level == 1 {
      NoSizeNoGlobalKeeps(flags);
    } else if level < 4 {
      NoSizeKeeps(flags);
    }
  }

  lemma LevelFlagsOk(flags: bv64, level: nat)
    requires FlagsOk(flags, 4) && 1 <= level <= 4
    ensures FlagsOk(LevelFlags(flags, level), level)
  {
    if level < 4 {
      NoSizeNoGlobal(flags);
      NoSize(flags);
      NarrowFlags(LevelFlags(flags, level));
    }
  }

  // ----- The kernel image in the last 2 GiB -----

  function ImagePage(v: bv64): bv64 { Paddr(PageOf(v)) }

  lemma ImagePageGood(v: bv64)
    ensures Good(ImagePage(v))
  {}

  lemma ImageDigits(v: bv64)
    ensures PageIndex(ImagePage(v)) & 0x1FF == GetP1EntryIndex(v) & 0x1FF
    ensures Rest(PageIndex(ImagePage(v))) & 0x1FF == GetP2EntryIndex(v) & 0x1FF
    ensures Rest(Rest(PageIndex(ImagePage(v)))) == (v >> 30) & 1
  {}

  lemma ImageHighDigit(v: bv64)
    requires KernelWindow(v)
    ensures ((v >> 30) & 1 == 0 && GetP3EntryIndex(v) == 510) || ((v >> 30) & 1 == 1 && GetP3EntryIndex(v) == 511)
  {}

  lemma ImageLowSlots(v: bv64)
    ensures Low9(PageIndex(ImagePage(v))) == P1Slot(v) && Low9(Rest(PageIndex(ImagePage(v)))) == P2Slot(v)
  {
    hide Low9, Rest, PageIndex, ImagePage, GetP2EntryIndex, GetP1EntryIndex;
    ImageDigits(v);
    Low9Congruent(PageIndex(ImagePage(v)), GetP1EntryIndex(v));
    Low9Congruent(Rest(PageIndex(ImagePage(v))), GetP2EntryIndex(v));
  }

  lemma ImageHighSlot(v: bv64)
    requires KernelWindow(v)
    ensures Low9(Rest(Rest(PageIndex(ImagePage(v))))) == P3Slot(v) - 510
  {
    hide Low9, Rest, PageIndex, ImagePage, GetP3EntryIndex, KernelWindow;
    ImageDigits(v);
    ImageHighDigit(v);
    Low9Constants();
  }

  /** The page of the image that an address of the window falls in, by its slots. */
  lemma ImageNumber(v: bv64)
    requires KernelWindow(v)
    ensures Good(ImagePage(v)) && P4Slot(v) == 511 && 510 <= P3Slot(v) <= 511
    ensures PageNumber(ImagePage(v)) == P1Slot(v) + 512 * P2Slot(v) + 0x40000 * (P3Slot(v) - 510)
  {
    hide Low9, Rest, PageIndex, ImagePage, KernelWindow, P4Slot, P3Slot, P2Slot, P1Slot, Good, PageNumber, WordNumber;
    ImagePageGood(v);
    ImageLowSlots(v);
    ImageHighSlot(v);
    PointerDigits(v);
    GoodPageDigits(ImagePage(v));
  }

  lemma TopSlotsBits(v: bv64)
    requires UpperHalf(v) && GetP4EntryIndex(v) == 511 && GetP3EntryIndex(v) == 510
    ensures KernelWindow(v)
  {}

  lemma NineBitIndex(v: bv64)
    ensures GetP4EntryIndex(v) & 0x1FF == GetP4EntryIndex(v) && GetP3EntryIndex(v) & 0x1FF == GetP3EntryIndex(v)
  {}

  lemma WindowFromSlots(v: bv64)
    requires UpperHalf(v) && P4Slot(v) == 511 && P3Slot(v) == 510
    ensures KernelWindow(v)
  {
    hide Low9, UpperHalf, GetP4EntryIndex, GetP3EntryIndex, KernelWindow;
    Low9Constants();
    Low9Injective(GetP4EntryIndex(v), 511);
    Low9Injective(GetP3EntryIndex(v), 510);
    NineBitIndex(v);
    TopSlotsBits(v);
  }

  lemma FrameDigits(a: bv64)
    ensures PageIndex(a) & 0x1FF == GetP1EntryIndex(a) & 0x1FF
    ensures Rest(PageIndex(a)) & 0x1FF == GetP2EntryIndex(a) & 0x1FF
  {}

  lemma SmallPage(h: nat, m: nat, l: nat)
    requires l < 512 && m < 512 && l + 512 * m + 0x40000 * h < 0x40000
    ensures h == 0 && (l + 512 * m) / 512 == m && (l + 512 * m) % 512 == l
  {}

  /** The loop of Initialize: the table and the slot for a page below 1 GiB. */
  lemma FrameSlots(a: bv64)
    requires Good(a) && PageNumber(a) < 0x40000
    ensures P2Slot(a) == PageNumber(a) / 512 && P1Slot(a) == PageNumber(a) % 512
  {
    hide Low9, Rest, PageIndex, Good, PageNumber, GetP2EntryIndex, GetP1EntryIndex;
    GoodPageDigits(a);
    FrameDigits(a);
    Low9Congruent(PageIndex(a), GetP1EntryIndex(a));
    Low9Congruent(Rest(PageIndex(a)), GetP2EntryIndex(a));
    SmallPage(Low9(Rest(Rest(PageIndex(a)))), Low9(Rest(PageIndex(a))), Low9(PageIndex(a)));
  }

  lemma ZeroPage()
    ensures Good(0) && PageNumber(0) == 0
  {
    GoodPageDigits(0);
    assert PageIndex(0) == 0 && Rest(0) == 0;
    hide Low9;
    Low9Constants();
  }

  // ----- Rights -----

  function CodeEntry(a: bv64): bv64 { a | PAGE_PRESENT | PAGE_GLOBAL }

  function DataEntry(a: bv64): bv64 { a | PAGE_PRESENT | PAGE_WRITE | PAGE_GLOBAL | PAGE_NOEXECUTE }

  lemma CodePresent(p: bv64)
    ensures Present(CodeEntry(p & 0x7FFFF000))
  {}

  lemma CodeFrame(p: bv64)
    ensures FrameIn(CodeEntry(p & 0x7FFFF000)) == p & 0x7FFFF000
    ensures Masked(CodeEntry(p & 0x7FFFF000)) == p & 0x7FFFF000
  {}

  lemma CodeCount(p: bv64)
    ensures (CodeEntry(p & 0x7FFFF000) >> 52) & 0x1FF == 0 & 0x1FF
  {}

  lemma CodeWritable(p: bv64)
    ensures !Writable(CodeEntry(p & 0x7FFFF000))
  {}

  lemma CodeNoExecute(p: bv64)
    ensures !NoExecute(CodeEntry(p & 0x7FFFF000))
  {}

  lemma CodeUser(p: bv64)
    ensures !UserMode(CodeEntry(p & 0x7FFFF000))
  {}

  lemma DataUser(p: bv64)
    ensures !UserMode(DataEntry(p & 0x7FFFF000))
  {}

  lemma DataPresent(p: bv64)
    ensures Present(DataEntry(p & 0x7FFFF000))
  {}

  lemma DataFrame(p: bv64)
    ensures FrameIn(DataEntry(p & 0x7FFFF000)) == p & 0x7FFFF000
    ensures Masked(DataEntry(p & 0x7FFFF000)) == p & 0x7FFFF000
  {}

  lemma DataCount(p: bv64)
    ensures (DataEntry(p & 0x7FFFF000) >> 52) & 0x1FF == 0 & 0x1FF
  {}

  lemma DataWritable(p: bv64)
    ensures Writable(DataEntry(p & 0x7FFFF000))
  {}

  lemma DataNoExecute(p: bv64)
    ensures NoExecute(DataEntry(p & 0x7FFFF000))
  {}

  lemma CodeEntryMeaning(a: bv64)
    requires Good(a)
    ensures Present(CodeEntry(a)) && FrameIn(CodeEntry(a)) == a && Masked(CodeEntry(a)) == a
    ensures CountIn(CodeEntry(a)) == 0
    ensures !Writable(CodeEntry(a)) && !NoExecute(CodeEntry(a)) && !UserMode(CodeEntry(a))
  {
    hide Low9, Present, FrameIn, Masked, Writable, NoExecute, UserMode, CodeEntry;
    CodeUser(a);
    CodePresent(a);
    CodeFrame(a);
    CodeCount(a);
    CodeWritable(a);
    CodeNoExecute(a);
    Low9Congruent(CodeEntry(a) >> 52, 0);
    Low9Constants();
  }

  lemma DataEntryMeaning(a: bv64)
    requires Good(a)
    ensures Present(DataEntry(a)) && FrameIn(DataEntry(a)) == a && Masked(DataEntry(a)) == a
    ensures CountIn(DataEntry(a)) == 0
    ensures Writable(DataEntry(a)) && NoExecute(DataEntry(a)) && !UserMode(DataEntry(a))
  {
    hide Low9, Present, FrameIn, Masked, Writable, NoExecute, UserMode, DataEntry;
    DataUser(a);
    DataPresent(a);
    DataFrame(a);
    DataCount(a);
    DataWritable(a);
    DataNoExecute(a);
    Low9Congruent(DataEntry(a) >> 52, 0);
    Low9Constants();
  }

  function TableEntry(a: bv64): bv64 { NewEntry(a, PAGE_WRITE) }

  lemma TableUser(p: bv64)
    ensures !UserMode(TableEntry(p & 0x7FFFF000))
  {}

  lemma TableWritable(p: bv64)
    ensures Writable(TableEntry(p & 0x7FFFF000))
  {}

  lemma TableNoExecute(p: bv64)
    ensures !NoExecute(TableEntry(p & 0x7FFFF000))
  {}

  lemma WriteFlagOk()
    ensures FlagsOk(PAGE_WRITE, 1)
  {}

  lemma TableEntryMeaning(a: bv64)
    requires Good(a)
    ensures Present(TableEntry(a)) && FrameIn(TableEntry(a)) == a && Masked(TableEntry(a)) == a
    ensures CountIn(TableEntry(a)) == 0
    ensures !Large(TableEntry(a)) && Writable(TableEntry(a)) && !NoExecute(TableEntry(a)) && !UserMode(TableEntry(a))
  {
    hide Low9, Present, FrameIn, Masked, Large, Writable, NoExecute, UserMode, NewEntry, CountIn, FlagsOk;
    WriteFlagOk();
    TableUser(a);
    NewEntryMeaning(a, PAGE_WRITE, 1);
    TableWritable(a);
    TableNoExecute(a);
  }

  /** Counting up never touches the rights, not even when the count spills into bit 61. */
  lemma IncKeepsWritable(e: bv64)
    ensures IncEntryCount(e) & 2 == e & 2
  {}

  lemma IncKeepsNoExecute(e: bv64)
    ensures IncEntryCount(e) & 0x8000000000000000 == e & 0x8000000000000000
  {}

  lemma IncKeepsUser(e: bv64)
    ensures IncEntryCount(e) & 4 == e & 4
  {}

  lemma IncKeepsRights(e: bv64)
    ensures SameGrant(IncEntryCount(e), e) && NoExecute(IncEntryCount(e)) == NoExecute(e)
  {
    hide IncEntryCount;
    IncKeepsWritable(e);
    IncKeepsUser(e);
    IncKeepsNoExecute(e);
  }

  lemma PageAlignedWord(v: bv64)
    ensures (PageOf(v) >> 3) & 0x1FF == 0 & 0x1FF
  {}

  lemma ImagePageIsPaddr(v: bv64)
    requires PageOf(v) == v
    ensures ImagePage(v) == Paddr(v)
  {}

  /** The first word of a page of the window. */
  lemma FirstWord(v: bv64)
    requires KernelWindow(v) && PageOf(v) == v
    ensures WordNumber(v) == 512 * PageNumber(Paddr(v))
  {
    hide Low9, PageOf, KernelWindow, Paddr, WordNumber, PageNumber, ImagePage, P4Slot, P3Slot, P2Slot, P1Slot;
    PointerDigits(v);
    ImageNumber(v);
    ImagePageIsPaddr(v);
    PageAlignedWord(v);
    Low9Congruent(v >> 3, 0);
    Low9Constants();
  }

  lemma PageIsWordAligned(v: bv64)
    requires PageOf(v) == v
    ensures WordAligned(v)
  {}

  lemma NotZero(a: bv64, limit: bv64)
    requires !Before(a, limit) && Before(0, limit)
    ensures a != 0
  {}
}
