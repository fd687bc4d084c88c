/** The hardware side of paging: physical memory, the four-level walk, and the recursive window. */
module Paging {
  import opened Options
  import opened Words

  /** A page frame, named by its physical address. */
  datatype Frame = Frame(paddr: bv64)

  /** RAM: the 512 words of each page frame. */
  type Memory = map<Frame, seq<bv64>>

  predicate Ram(m: Memory) {
    forall f :: f in m ==> |m[f]| == 512
  }

  function EmptyTable(): (t: seq<bv64>)
    ensures |t| == 512 && forall i :: 0 <= i < 512 ==> t[i] == 0
  {
    seq(512, (i: nat) => 0 as bv64)
  }

  /** The entry that leads to a node, when every table above it is there. */
  function EntryAt(m: Memory, cr3: Frame, p: Path): Option<bv64>
    requires p.Sub?
    decreases p, 0
  {
    match TableAt(m, cr3, p.parent)
    case None => None
    case Some(t) => if t in m && p.slot < |m[t]| then Some(m[t][p.slot]) else None
  }

  /** The table at a node. A present entry with the page-size bit set leads to no table. */
  function TableAt(m: Memory, cr3: Frame, p: Path): Option<Frame>
    decreases p, 1
  {
    match p
    case Top => Some(cr3)
    case Sub(_, _) =>
      match EntryAt(m, cr3, p)
      case None => None
      case Some(e) => if Present(e) && !Large(e) then Some(Frame(FrameIn(e))) else None
  }

  /** The frame at a node that is taken as a page, where the page-size bit means nothing. */
  function PageAt(m: Memory, cr3: Frame, p: Path): Option<Frame>
    requires p.Sub?
  {
    match EntryAt(m, cr3, p)
    case None => None
    case Some(e) => if Present(e) then Some(Frame(FrameIn(e))) else None
  }

  /** The frame a virtual address translates to (Intel SDM Vol. 3A, section 4.5); None is a fault. */
  function Translate(m: Memory, cr3: Frame, vaddr: bv64): Option<Frame> {
    if Canonical(vaddr) then PageAt(m, cr3, PathOf(vaddr)) else None
  }

  // ----- Rights along the walk (Intel SDM Vol. 3A, section 4.6) -----

  datatype Rights = Rights(write: bool, execute: bool, user: bool)

  /** A page may be written and used in user mode when every entry on the way says so, and executed when none
  forbids it. */
  function RightsAt(m: Memory, cr3: Frame, p: Path): Rights {
    match p
    case Top => Rights(true, true, true)
    case Sub(q, _) =>
      var above := RightsAt(m, cr3, q);
      match EntryAt(m, cr3, p)
      case None => Rights(false, false, false)
      case Some(e) =>
        Rights(above.write && Writable(e), above.execute && !NoExecute(e), above.user && UserMode(e))
  }

  // ----- Memory accesses of the kernel through a virtual address -----

  predicate Accessible(m: Memory, cr3: Frame, vaddr: bv64) {
    Translate(m, cr3, vaddr).Some? && Translate(m, cr3, vaddr).value in m && |m[Translate(m, cr3, vaddr).value]| == 512
  }

  /** Write protection is on (CR0.WP), so a write needs the write bit in every entry of the walk. */
  predicate MayWrite(m: Memory, cr3: Frame, vaddr: bv64) {
    Accessible(m, cr3, vaddr) && RightsAt(m, cr3, PathOf(vaddr)).write
  }

  function LoadWord(m: Memory, cr3: Frame, vaddr: bv64): bv64
    requires Accessible(m, cr3, vaddr)
  {
    Word(m, Translate(m, cr3, vaddr).value, WordOf(vaddr))
  }

  function StoreWord(m: Memory, cr3: Frame, vaddr: bv64, w: bv64): Memory
    requires MayWrite(m, cr3, vaddr)
  {
    SetWord(m, Translate(m, cr3, vaddr).value, WordOf(vaddr), w)
  }

  /** What `memset(vaddr, 0, 0x1000)` does for a page-aligned address. */
  function ClearPage(m: Memory, cr3: Frame, vaddr: bv64): Memory
    requires MayWrite(m, cr3, vaddr)
  {
    m[Translate(m, cr3, vaddr).value := EmptyTable()]
  }

  /** Word i of a frame; 0 outside RAM. */
  function Word(m: Memory, frame: Frame, i: nat): bv64 {
    if frame in m && i < |m[frame]| then m[frame][i] else 0
  }

  function SetWord(m: Memory, frame: Frame, i: nat, w: bv64): Memory {
    if frame in m && i < |m[frame]| then m[frame := m[frame][i := w]] else m
  }

  // ----- The recursive window -----

  predicate SelfEntry(m: Memory, cr3: Frame) {
    var e := Word(m, cr3, 510);
    cr3 in m && |m[cr3]| == 512 && Present(e) && !Large(e) && Writable(e) && Frame(FrameIn(e)) == cr3
  }

  /** The same node, entered once more through slot 510 of the top table. */
  function Under(p: Path): Path {
    match p
    case Top => Path1(510)
    case Sub(q, i) => Sub(Under(q), i)
  }

  /** Entering through the self entry changes nothing about what is found below. */
  lemma {:induction false} SelfMap(m: Memory, cr3: Frame, p: Path)
    requires SelfEntry(m, cr3)
    ensures TableAt(m, cr3, Under(p)) == TableAt(m, cr3, p)
    ensures p.Sub? ==> EntryAt(m, cr3, Under(p)) == EntryAt(m, cr3, p)
  {
    hide Present, Large, FrameIn, Writable;
    match p
    case Top => SelfTable(m, cr3);
    case Sub(q, i) =>
      SelfMap(m, cr3, q);
      hide SelfEntry, Word;
  }

  lemma SelfTable(m: Memory, cr3: Frame)
    requires SelfEntry(m, cr3)
    ensures TableAt(m, cr3, Path1(510)) == Some(cr3)
  {
    hide Present, Large, FrameIn, Writable;
    assert EntryAt(m, cr3, Path1(510)) == Some(m[cr3][510]);
  }

  /** Nor does it take away a right to write. */
  lemma {:induction false} SelfMapRights(m: Memory, cr3: Frame, p: Path)
    requires SelfEntry(m, cr3)
    ensures RightsAt(m, cr3, Under(p)).write == RightsAt(m, cr3, p).write
  {
    hide Present, Large, FrameIn, Writable, NoExecute, UserMode;
    match p
    case Top =>
      assert EntryAt(m, cr3, Path1(510)) == Some(m[cr3][510]);
    case Sub(q, i) =>
      SelfMapRights(m, cr3, q);
      SelfMap(m, cr3, p);
  }

  /** The window of a table may be written exactly when the tables on the way to it may. */
  lemma WindowRights(m: Memory, cr3: Frame, v: bv64)
    requires SelfEntry(m, cr3)
    ensures RightsAt(m, cr3, PathOf(GetP4Table(v))).write
    ensures RightsAt(m, cr3, PathOf(GetP3Table(v))).write == RightsAt(m, cr3, Path1(P4Slot(v))).write
    ensures RightsAt(m, cr3, PathOf(GetP2Table(v))).write == RightsAt(m, cr3, Path2(P4Slot(v), P3Slot(v))).write
    ensures RightsAt(m, cr3, PathOf(GetP1Table(v))).write ==
            RightsAt(m, cr3, Path3(P4Slot(v), P3Slot(v), P2Slot(v))).write
  {
    hide Present, Large, FrameIn, Writable, NoExecute, Low9, PathOf, P4Slot, P3Slot, P2Slot, RightsAt;
    hide GetP4Table, GetP3Table, GetP2Table, GetP1Table, SelfEntry;
    WindowPaths(v);
    var (i, j, k) := (P4Slot(v), P3Slot(v), P2Slot(v));
    SelfMapRights(m, cr3, Top);
    SelfMapRights(m, cr3, Path1(510));
    SelfMapRights(m, cr3, Path2(510, 510));
    SelfMapRights(m, cr3, Path3(510, 510, 510));
    SelfMapRights(m, cr3, Path1(i));
    SelfMapRights(m, cr3, Path2(510, i));
    SelfMapRights(m, cr3, Path3(510, 510, i));
    SelfMapRights(m, cr3, Path2(i, j));
    SelfMapRights(m, cr3, Path3(510, i, j));
    SelfMapRights(m, cr3, Path3(i, j, k));
    TopRights(m, cr3);
  }

  lemma TopRights(m: Memory, cr3: Frame)
    ensures RightsAt(m, cr3, Top).write
  {}

  /** The window of a node shows exactly the frame the walk finds at that node. */
  lemma WindowTheorem(m: Memory, cr3: Frame, v: bv64)
    requires SelfEntry(m, cr3) && UpperHalf(v)
    ensures Translate(m, cr3, GetP4Table(v)) == Some(cr3)
    ensures Translate(m, cr3, GetP3Table(v)) == PageAt(m, cr3, Path1(P4Slot(v)))
    ensures Translate(m, cr3, GetP2Table(v)) == PageAt(m, cr3, Path2(P4Slot(v), P3Slot(v)))
    ensures Translate(m, cr3, GetP1Table(v)) == PageAt(m, cr3, Path3(P4Slot(v), P3Slot(v), P2Slot(v)))
  {
    hide Present, Large, FrameIn, Low9, PathOf, P4Slot, P3Slot, P2Slot, UpperHalf;
    hide GetP4Table, GetP3Table, GetP2Table, GetP1Table;
    WindowPaths(v);
    WindowStaysUpper(v);
    var (i, j, k) := (P4Slot(v), P3Slot(v), P2Slot(v));
    SelfMap(m, cr3, Path1(510));
    SelfMap(m, cr3, Path2(510, 510));
    SelfMap(m, cr3, Path3(510, 510, 510));
    assert EntryAt(m, cr3, Path1(510)) == Some(m[cr3][510]);
    SelfMap(m, cr3, Path1(i));
    SelfMap(m, cr3, Path2(510, i));
    SelfMap(m, cr3, Path3(510, 510, i));
    SelfMap(m, cr3, Path2(i, j));
    SelfMap(m, cr3, Path3(510, i, j));
    SelfMap(m, cr3, Path3(i, j, k));
  }
}
