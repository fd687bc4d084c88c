/** The memory manager of kernel/arch/x86_64/memory.cpp as an object.

Its fields are the file's static variables and the machine's memory. Tables and the frame stack are
read and written only through virtual addresses, which the model translates with the hardware walk
each time. The ghost field `s` follows the moves of module Frames.
*/
module MemoryManager {
  import opened Options
  import opened Words
  import opened Paging
  import opened Frames
  import opened Tables
  import opened Machine
  import opened Supply
  import opened Boot

  /** Fault: a write went to an address that the walk does not allow, and the call does not come back. */
  datatype Err = Ok | NoMemory | Fault

  /** A pointer to slot k of the stack is an address in the page of slot k. */
  lemma PointerPath(v: bv64, base: nat, k: nat)
    requires KernelWindow(v) && WordNumber(v) == base + k
    ensures PathOf(v) == SlotPath(base, k) && WordOf(v) == (base + k) % 512
    ensures UpperHalf(v) && P4Slot(v) == 511
  {
    SlotsAreSmall(v);
    WindowIsUpper(v);
    hide Low9, KernelWindow, P4Slot, P3Slot, P2Slot, P1Slot, WordOf, WordNumber, UpperHalf, SlotPath;
    PointerDigits(v);
    SlotPathDigits(base, k, WordOf(v), P1Slot(v), P2Slot(v), P3Slot(v) - 510);
  }

  lemma SlotPathDigits(base: nat, k: nat, a: nat, b: nat, c: nat, d: nat)
    requires a < 512 && b < 512 && c < 512 && base + k == a + 512 * b + 0x40000 * c + 0x8000000 * d
    ensures SlotPath(base, k) == Path4(511, 510 + d, c, b) && (base + k) % 512 == a
  {
    Digits(a, b, c, d);
  }

  lemma Digits(a: nat, b: nat, c: nat, d: nat)
    requires a < 512 && b < 512 && c < 512
    ensures var n := a + 512 * b + 0x40000 * c + 0x8000000 * d;
      n % 512 == a && n / 512 % 512 == b && n / 512 / 512 % 512 == c && n / 512 / 0x40000 == d
  {
    var n := a + 512 * b + 0x40000 * c + 0x8000000 * d;
    assert n / 512 == b + 512 * c + 0x40000 * d;
    assert n / 512 / 512 == c + 512 * d;
  }

  lemma SlotMayBeWritten(m: Memory, cr3: Frame, tree: Tree, base: nat, k: nat)
    requires Wired(m, cr3, tree) && SlotsWritable(m, tree, base) && SlotPath(base, k) in tree
    ensures RightsAt(m, cr3, SlotPath(base, k)).write
  {
    assert Closed(tree);
    hide Wired, SlotPath, RightsAt, EntryOf, Writable, Closed, Client;
    SlotInTree(tree, base, k);
    PageMayBeWritten(m, cr3, tree, SlotPath(base, k));
  }

  /** The pointer v reaches word i of the frame f, and may write it. */
  ghost predicate Reaches(m: Memory, cr3: Frame, v: bv64, f: Frame, i: nat) {
    && MayWrite(m, cr3, v) && LoadWord(m, cr3, v) == Word(m, f, i)
    && forall w :: StoreWord(m, cr3, v, w) == SetWord(m, f, i, w)
  }

  /** What a pointer to a mapped slot reaches. */
  lemma PointerReaches(m: Memory, cr3: Frame, s: State, base: nat, v: bv64, k: nat, q: Path, i: nat)
    requires Wired(m, cr3, s.tree) && Complete(m, s.tree) && SlotsWritable(m, s.tree, base)
    requires KernelWindow(v) && WordNumber(v) == base + k
    requires q == SlotPath(base, k) && q in s.tree && i == (base + k) % 512
    ensures Reaches(m, cr3, v, s.tree[q], i)
  {
    hide Wired, Complete, SlotPath, PathOf, WordOf, KernelWindow, WordNumber, Translate, Word, SetWord;
    hide RightsAt, SlotsWritable, EntryOf, UpperHalf;
    PointerTranslates(m, cr3, s.tree, base, v, k);
    SlotMayBeWritten(m, cr3, s.tree, base, k);
  }

  lemma PointerTranslates(m: Memory, cr3: Frame, tree: Tree, base: nat, v: bv64, k: nat)
    requires Wired(m, cr3, tree) && Complete(m, tree)
    requires KernelWindow(v) && WordNumber(v) == base + k && SlotPath(base, k) in tree
    ensures PathOf(v) == SlotPath(base, k) && WordOf(v) == (base + k) % 512
    ensures Translate(m, cr3, v) == Some(tree[SlotPath(base, k)])
    ensures tree[SlotPath(base, k)] in m && Ram(m)
  {
    hide Wired, Complete, SlotPath, PathOf, WordOf, UpperHalf, P4Slot, KernelWindow, WordNumber, PageAt;
    PointerPath(v, base, k);
    TranslateIsTree(m, cr3, tree, v);
    WiredBasics(m, cr3, tree);
  }

  /** An absent node can be linked with a frame that was just taken. */
  lemma FreshIsLinkable(m: Memory, cr3: Frame, s: State, base: nat, v: bv64, level: nat, x: Frame, flags: bv64)
    requires Sound(m, cr3, s, base) && 1 <= level <= 4 && P4Slot(v) != 510
    requires NodeAt(v, level) !in s.tree && NodeAt(v, level).Sub? && NodeAt(v, level).parent in s.tree
    requires x !in Held(s) && Good(x.paddr) && x in m
    requires FlagsOk(flags, level) && (level < 4 ==> Writable(flags))
    ensures Linkable(m, cr3, s.tree, NodeAt(v, level), x, NewEntry(x.paddr, flags))
  {
    hide Good, Masked, FrameIn, Large, Present, CountIn, NewEntry, FlagsOk, Wired, Complete, P4Slot, NodeAt, Low9,
      Writable;
    NodeAtMeaning(v, level);
    NewEntryMeaning(x.paddr, flags, level);
    NewEntryWritable(x.paddr, flags);
  }

  /** Whether the new table can be cleared: its window is write-protected exactly when the entry that was just
      stored for it is read-only. */
  lemma NewTableWindow(m: Memory, cr3: Frame, tree: Tree, v: bv64, level: nat, x: Frame, e: bv64)
    requires Wired(m, cr3, tree) && 1 <= level < 4 && P4Slot(v) != 510 && UpperHalf(v)
    requires NodeAt(v, level) !in tree && NodeAt(v, level).Sub? && NodeAt(v, level).parent in tree
    requires x in m && Present(e) && FrameIn(e) == x.paddr
    ensures MayWrite(SetEntry(m, tree, NodeAt(v, level), e), cr3, Window(v, level + 1)) <==> Writable(e)
  {
    hide Wired, P4Slot, NodeAt, Window, SetEntry, UpperHalf, Node, TopSlot, Present, FrameIn, Writable, RightsAt,
      PathOf, EntryAt, Low9;
    var m' := SetEntry(m, tree, NodeAt(v, level), e);
    NodeAtMeaning(v, level);
    NodeAtMeaning(v, level + 1);
    SlotOfNode(tree, NodeAt(v, level), level);
    StrayEntry(m, cr3, tree, NodeAt(v, level), e);
    WiredBasics(m', cr3, tree);
    WindowTheoremAt(m', cr3, v, level + 1);
    WindowRightsAt(m', cr3, v, level + 1);
    SetEntryRam(m, tree, NodeAt(v, level), e, x);
  }

  lemma SlotOfNode(tree: Tree, p: Path, level: nat)
    requires p.Sub? && p.parent in tree && Depth(p) == level <= 4 && p.slot < 512 && Node(p)
    ensures SlotOf(tree, p)
  {}

  /** So MapPage faults at a level above the last when it makes a table without the write flag. */
  lemma ReadOnlyTable(m: Memory, cr3: Frame, s: State, base: nat, v: bv64, level: nat, x: Frame, flags: bv64)
    requires Sound(m, cr3, s, base) && 1 <= level < 4 && P4Slot(v) != 510 && UpperHalf(v)
    requires NodeAt(v, level) !in s.tree && NodeAt(v, level).Sub? && NodeAt(v, level).parent in s.tree
    requires Good(x.paddr) && x in m && FlagsOk(flags, level) && !Writable(flags)
    ensures MayWrite(m, cr3, EntryPointer(v, level))
    ensures !MayWrite(StoreWord(m, cr3, EntryPointer(v, level), NewEntry(x.paddr, flags)), cr3, Window(v, level + 1))
  {
    hide Good, Masked, FrameIn, Large, Present, CountIn, NewEntry, FlagsOk, Wired, Complete, P4Slot, NodeAt, Low9,
      Writable, Window;
    hide SetEntry, StoreWord, LoadWord, UpperHalf, MayWrite, EntryPointer, EntryOf;
    NewEntryMeaning(x.paddr, flags, level);
    NewEntryWritable(x.paddr, flags);
    EntryThroughWindow(m, cr3, s.tree, v, level);
    NewTableWindow(m, cr3, s.tree, v, level, x, NewEntry(x.paddr, flags));
  }

  /** The window of a table just linked shows that table, although its contents are still garbage. */
  lemma NewTableInWindow(m: Memory, cr3: Frame, tree: Tree, v: bv64, level: nat, x: Frame, e: bv64)
    requires 1 <= level < 4 && P4Slot(v) != 510 && UpperHalf(v)
    requires Linkable(m, cr3, tree, NodeAt(v, level), x, e)
    ensures var m' := SetEntry(m, tree, NodeAt(v, level), e);
      && MayWrite(m', cr3, Window(v, level + 1))
      && ClearPage(m', cr3, Window(v, level + 1)) == m'[x := EmptyTable()]
  {
    hide Wired, Complete, P4Slot, NodeAt, Window, SetEntry, UpperHalf, Leads, Translate, Node, TopSlot, RightsAt,
      PathOf;
    var m', tree' := SetEntry(m, tree, NodeAt(v, level), e), tree[NodeAt(v, level) := x];
    NodeAtMeaning(v, level + 1);
    NodeAtMeaning(v, level);
    LinkWires(m, cr3, tree, NodeAt(v, level), x, e);
    WindowReaches(m', cr3, tree', v, level + 1);
    WindowMayBeWritten(m', cr3, tree', v, level + 1);
    WiredBasics(m', cr3, tree');
  }

  /** The three writes of a MapPage block, made through virtual addresses, are one level's worth. */
  lemma LevelThroughWindow(m: Memory, cr3: Frame, tree: Tree, v: bv64, level: nat, x: Frame, e: bv64)
    requires 1 <= level <= 4 && P4Slot(v) != 510 && UpperHalf(v)
    requires Linkable(m, cr3, tree, NodeAt(v, level), x, e)
    ensures var p := NodeAt(v, level);
      && MayWrite(m, cr3, EntryPointer(v, level))
      && var m1 := StoreWord(m, cr3, EntryPointer(v, level), e);
      && (level < 4 ==> MayWrite(m1, cr3, Window(v, level + 1)))
      && var m2 := if level < 4 then ClearPage(m1, cr3, Window(v, level + 1)) else m1;
      && (level > 1 ==> MayWrite(m2, cr3, EntryPointer(v, level - 1)))
      && var m3 := if level > 1
                   then StoreWord(m2, cr3, EntryPointer(v, level - 1),
                                  IncEntryCount(LoadWord(m2, cr3, EntryPointer(v, level - 1))))
                   else m2;
      m3 == Levelled(m, tree, p, x, e)
  {
    var p := NodeAt(v, level);
    LinkableFacts(m, cr3, tree, p, x, e);
    NodeAtMeaning(v, level);
    assert Wired(m, cr3, tree);
    hide Wired, Linkable, P4Slot, NodeAt, EntryPointer, Window, SetEntry, EntryOf, UpperHalf, Accessible, RightsAt,
      LoadWord, StoreWord, ClearPage, IncEntryCount, Node, Depth;
    EntryThroughWindow(m, cr3, tree, v, level);
    if level < 4 { NewTableInWindow(m, cr3, tree, v, level, x, e); }
    if level > 1 {
      LinkedKeeps(m, cr3, tree, p, x, e);
      NodeAtMeaning(v, level - 1);
      EntryThroughWindow(Linked(m, tree, p, x, e), cr3, tree[p := x], v, level - 1);
    }
  }

  /** The entry of the node was made for its frame with these flags. */
  ghost predicate Made(m: Memory, tree: Tree, p: Path, flags: bv64) {
    p in tree && EntryOf(m, tree, p) == NewEntry(tree[p].paddr, flags)
  }

  lemma MadeEntry(m: Memory, cr3: Frame, tree: Tree, p: Path, x: Frame, flags: bv64)
    requires Linkable(m, cr3, tree, p, x, NewEntry(x.paddr, flags))
    ensures Made(Levelled(m, tree, p, x, NewEntry(x.paddr, flags)), tree[p := x], p, flags)
  {
    LinkableFacts(m, cr3, tree, p, x, NewEntry(x.paddr, flags));
    hide Linkable, Levelled, EntryOf, NewEntry;
    LevelledEntry(m, cr3, tree, p, x, NewEntry(x.paddr, flags), p);
  }

  lemma LevelledKeepsRam(m: Memory, tree: Tree, p: Path, x: Frame, e: bv64)
    ensures RamKept(m, Levelled(m, tree, p, x, e))
  {
    hide Levelled;
    forall f | f in m ensures f in Levelled(m, tree, p, x, e) { LevelledRam(m, tree, p, x, e, f); }
  }

  lemma StoreKeepsRam(m: Memory, cr3: Frame, v: bv64, level: nat, e: bv64)
    requires MayWrite(m, cr3, EntryPointer(v, level))
    ensures RamKept(m, StoreWord(m, cr3, EntryPointer(v, level), e))
  {
    hide Translate, RightsAt, EntryPointer, WordOf;
  }

  lemma SuppliedFrames(r: seq<bv64>)
    ensures FramesOf(r) == [] <==> r == []
    ensures r != [] ==> FramesOf(r)[0] == Frame(r[0]) && FramesOf(r)[1..] == FramesOf(r[1..])
  {}

  /** The last write of an UnmapPage block: after it the counts are right again, and the entry's
      count says whether the parent table is empty. */
  lemma UnmapCounts(m: Memory, cr3: Frame, s: State, base: nat, p: Path, x: Frame)
    requires Represents(m, cr3, s.tree) && p in s.tree && SlotOf(s.tree, p) && Children(s.tree, p) == {}
    requires p.parent.Sub?
    requires base + |s.stack| < 0x1000_0000
    requires SlotPath(base, |s.stack|) in s.tree - {p}
    ensures var tree := s.tree - {p};
      var m2 := Stacked(SetEntry(m, s.tree, p, !PAGE_PRESENT), State(tree, s.stack, []), base, x);
      var w := DecEntryCount(EntryOf(m2, tree, p.parent));
      var m3 := SetEntry(m2, tree, p.parent, w);
      && Counted(m3, tree)
      && EntryOf(m3, tree, p.parent) == w
      && (HasEntries(w) <==> Children(tree, p.parent) != {})
  {
    var tree, q := s.tree - {p}, p.parent;
    var t := State(tree, s.stack, []);
    var m1 := SetEntry(m, s.tree, p, !PAGE_PRESENT);
    var w := DecEntryCount(EntryOf(m1, tree, q));
    ParentSlot(m, cr3, s.tree, p);
    DepthOfSlot(tree, q);
    hide Wired, Complete, Counted, SlotPath, SetEntry, EntryOf, DecEntryCount, HasEntries, Children, Stacked, SlotOf,
      Depth, Apart;
    UnlinkWires(m, cr3, s.tree, p);
    UnlinkAndCount(m, cr3, s.tree, p);
    SlotsApart(m1, cr3, t, base, q);
    StackedEntry(m1, t, base, x, q);
    StackedCommutes(m1, t, base, x, q, w);
    StackedTables(SetEntry(m1, tree, q, w), cr3, t, base, x);
    StackedTables(m1, cr3, t, base, x);
    SetEntryMeaning(Stacked(m1, t, base, x), cr3, tree, q, w, q);
  }

  lemma DepthOfSlot(tree: Tree, q: Path)
    requires SlotOf(tree, q)
    ensures q.Sub? && q.parent in tree && Depth(q) <= 4
  {}

  /** What the frame under a caller's node is like, and that giving it back cannot fail. */
  lemma UnmapTarget(m: Memory, cr3: Frame, s: State, u: Setup, p: Path)
    requires Sound(m, cr3, s, u.base) && Steady(s, u) && p in s.tree && p.Sub? && Client(p) && Children(s.tree, p) == {}
    requires u.base + |u.pool| < 0x1000_0000 && forall f :: f in u.pool ==> f.paddr != 0
    ensures var x, t := s.tree[p], s.(tree := s.tree - {p});
      && p.parent in s.tree && SlotOf(s.tree, p)
      && Masked(EntryOf(m, s.tree, p)) == x.paddr
      && Good(x.paddr) && x in m && x.paddr != 0
      && u.base + |s.stack| + 1 < 0x1000_0000 && s.supply == []
      && SlotPath(u.base, |s.stack|) in t.tree
      && Push(t, u.base, x) == State(t.tree, s.stack + [x], []) && Steady(Push(t, u.base, x), u)
  {
    SlotPathIsFixed(s, u, p);
    assert Wired(m, cr3, s.tree) && Usable(s, m);
    hide Sound, Good, Masked, SlotPath, Held, Push, Children, Complete, Stored, Present, FrameIn, Large, TopSlot;
    ReleaseStep(s, u, p);
    SteadySupply(s, u);
    assert s.tree[p] in Held(s) by { InHeld(s, p); }
    assert s.tree[p] in u.pool by { ClientInPool(s, u, p); }
    hide Steady;
  }

  /** The first write of an UnmapPage block. */
  lemma ClearFirst(m: Memory, cr3: Frame, s: State, base: nat, p: Path)
    requires Sound(m, cr3, s, base) && Counted(m, s.tree) && p in s.tree && SlotOf(s.tree, p)
    requires Children(s.tree, p) == {}
    requires p.Sub? && Client(p)
    ensures var m', t := SetEntry(m, s.tree, p, !PAGE_PRESENT), s.(tree := s.tree - {p});
      && Sound(m', cr3, t, base) && s.tree[p] !in Held(t)
      && (p.parent == Top ==> Counted(m', t.tree))
      && (forall f :: f in m ==> f in m')
  {
    SoundClear(m, cr3, s, base, p);
    if p.parent == Top { UnlinkTop(m, cr3, s.tree, p); }
    forall f | f in m ensures f in SetEntry(m, s.tree, p, !PAGE_PRESENT) {
      SetEntryRam(m, s.tree, p, !PAGE_PRESENT, f);
    }
    hide *;
  }

  /** Everything an UnmapPage block relies on before its first write. */
  lemma UnmapStart(m: Memory, cr3: Frame, s: State, u: Setup, v: bv64, level: nat)
    requires UpperHalf(v) && 256 <= P4Slot(v) <= 509 && 1 <= level <= 4
    requires Sound(m, cr3, s, u.base) && Counted(m, s.tree) && Steady(s, u)
    requires NodeAt(v, level) in s.tree && Children(s.tree, NodeAt(v, level)) == {}
    requires u.base + |u.pool| < 0x1000_0000 && forall f :: f in u.pool ==> f.paddr != 0
    ensures var p, entry := NodeAt(v, level), EntryPointer(v, level);
      var x, t, m' := s.tree[p], s.(tree := s.tree - {p}), SetEntry(m, s.tree, p, !PAGE_PRESENT);
      && p.Sub? && p.parent == (if level == 1 then Top else NodeAt(v, level - 1))
      && Represents(m, cr3, s.tree) && SlotOf(s.tree, p)
      && MayWrite(m, cr3, entry) && Masked(LoadWord(m, cr3, entry)) == x.paddr
      && StoreWord(m, cr3, entry, !PAGE_PRESENT) == m'
      && Sound(m', cr3, t, u.base) && (level == 1 ==> Counted(m', t.tree))
      && x !in Held(t) && Good(x.paddr) && x.paddr != 0 && x in m'
      && u.base + |s.stack| + 1 < 0x1000_0000 && s.supply == []
      && SlotPath(u.base, |s.stack|) in t.tree
      && Push(t, u.base, x) == State(t.tree, s.stack + [x], []) && Steady(Push(t, u.base, x), u)
  {
    hide Sound, Counted, Steady, Held, Accessible, RightsAt, StoreWord, LoadWord, NodeAt, Children, EntryPointer, Push,
      Good, SlotPath, UpperHalf, P4Slot, Low9;
    hide Masked, SetEntry, EntryOf, SlotOf, Wired, Complete, Node, Depth, TopSlot;
    NodeAtMeaning(v, level);
    UnmapTarget(m, cr3, s, u, NodeAt(v, level));
    ClearFirst(m, cr3, s, u.base, NodeAt(v, level));
    SoundIsWired(m, cr3, s, u.base);
    EntryThroughWindow(m, cr3, s.tree, v, level);
  }

  lemma UnmapReady(m: Memory, cr3: Frame, s: State, u: Setup, v: bv64, level: nat)
    requires UpperHalf(v) && 256 <= P4Slot(v) <= 509 && 1 <= level <= 4
    requires Sound(m, cr3, s, u.base) && Counted(m, s.tree) && Steady(s, u)
    requires NodeAt(v, level) in s.tree && Children(s.tree, NodeAt(v, level)) == {}
    requires u.base + |u.pool| < 0x1000_0000 && forall f :: f in u.pool ==> f.paddr != 0
    ensures Represents(m, cr3, s.tree) && SlotOf(s.tree, NodeAt(v, level)) && Client(NodeAt(v, level))
    ensures level > 1 ==> Client(NodeAt(v, level - 1))
    ensures u.base + |s.stack| < 0x1000_0000 && SlotPath(u.base, |s.stack|) in s.tree - {NodeAt(v, level)}
  {
    hide Sound, Counted, Steady, Children, NodeAt, SlotPath, UpperHalf, P4Slot, Represents, Client, Good, Masked,
      LoadWord, StoreWord, MayWrite, EntryPointer, SetEntry, Held, Push;
    ClientNodes(v);
    UnmapStart(m, cr3, s, u, v, level);
  }

  lemma ClientNodes(v: bv64)
    requires 256 <= P4Slot(v) <= 509
    ensures Client(NodeAt(v, 1)) && Client(NodeAt(v, 2)) && Client(NodeAt(v, 3)) && Client(NodeAt(v, 4))
  {
    LevelClients(v);
  }

  lemma InHeld(s: State, p: Path)
    requires p in s.tree
    ensures s.tree[p] in Held(s)
  {
    assert s.tree[p] in s.tree.Values;
  }

  lemma ClientInPool(s: State, u: Setup, p: Path)
    requires Steady(s, u) && p in s.tree && Client(p)
    ensures s.tree[p] in u.pool
  {}

  lemma SlotPathIsFixed(s: State, u: Setup, p: Path)
    requires Steady(s, u) && p in s.tree && Client(p)
    ensures |s.stack| < |u.pool| && SlotPath(u.base, |s.stack|) in s.tree - {p}
  {
    InHeld(s, p);
    ClientInPool(s, u, p);
    assert s.tree[p] !in s.stack;
    StackHasRoom(s, u, s.tree[p]);
    assert SlotPath(u.base, |s.stack|) in u.kernel;
  }

  /** v points to slot n of the stack that starts at bottom. */
  ghost predicate PointsAbove(bottom: bv64, v: bv64, n: nat) {
    && KernelWindow(bottom) && WordAligned(bottom)
    && KernelWindow(v) && WordAligned(v)
    && WordNumber(v) == WordNumber(bottom) + n
  }

  /** The memory map has these frames still to supply. */
  ghost predicate Supplies(entries: seq<MemMapEntry>, current: Option<nat>, addr: bv64, size: nat, limit: bv64,
                           supply: seq<Frame>) {
    MapOk(entries, current) && supply == FramesOf(Remaining(entries, current, addr, size, limit))
  }

  /** Reading the P1 entry of a caller's page. */
  /** The first read of UnmapPage finds a P1 table exactly when there is one. */
  lemma P1Needed(m: Memory, cr3: Frame, s: State, base: nat, v: bv64)
    requires Sound(m, cr3, s, base) && UpperHalf(v) && 256 <= P4Slot(v) <= 509
    ensures PathOf(v).Sub? && (Accessible(m, cr3, EntryPointer(v, 4)) <==> PathOf(v).parent in s.tree)
  {
    LevelParents(s, v);
    hide Sound, UpperHalf, P4Slot, NodeAt, PathOf, Wired, Complete, EntryPointer, LoadWord, Accessible, RightsAt,
      EntryOf, Node, TopSlot;
    SoundIsWired(m, cr3, s, base);
    if NodeAt(v, 3) in s.tree {
      EntryThroughWindow(m, cr3, s.tree, v, 4);
    } else {
      NoTableNoEntry(m, cr3, s.tree, v);
    }
  }

  lemma PageEntry(m: Memory, cr3: Frame, s: State, u: Setup, v: bv64)
    requires Sound(m, cr3, s, u.base) && Steady(s, u) && UpperHalf(v) && 256 <= P4Slot(v) <= 509
    requires PathOf(v).parent in s.tree
    ensures MayWrite(m, cr3, EntryPointer(v, 4))
    ensures Present(LoadWord(m, cr3, EntryPointer(v, 4))) <==> PathOf(v) in s.tree
    ensures NodeAt(v, 4) == PathOf(v) && PathOf(v).Sub? && Children(s.tree, PathOf(v)) == {}
    ensures NodeAt(v, 4).Sub? && NodeAt(v, 3).Sub? && NodeAt(v, 2).Sub? && NodeAt(v, 1).Sub?
    ensures NodeAt(v, 4).parent == NodeAt(v, 3) && NodeAt(v, 3).parent == NodeAt(v, 2)
    ensures NodeAt(v, 2).parent == NodeAt(v, 1)
  {
    LevelParents(s, v);
    hide Sound, Steady, UpperHalf, P4Slot, NodeAt, PathOf, Children, Wired, Complete, EntryPointer, LoadWord,
      Accessible, RightsAt, Present, EntryOf, Node, TopSlot;
    SoundIsWired(m, cr3, s, u.base);
    EntryThroughWindow(m, cr3, s.tree, v, 4);
    PresentIsMapped(m, cr3, s.tree, v, 4);
    NodeAtMeaning(v, 4);
    PagesHaveNoChildren(s, u, PathOf(v));
  }

  lemma PageDepth(v: bv64)
    requires 256 <= P4Slot(v) <= 509
    ensures Depth(PathOf(v)) == 4
  {
    PathIsNode(v);
  }

  lemma ClientPageOf(v: bv64)
    requires 256 <= P4Slot(v) <= 509
    ensures ClientPage(PathOf(v)) && PathOf(v).Sub?
  {
    PathIsNode(v);
  }

  /** What one block of UnmapPage does; `last` says that the table above is left empty. */
  ghost predicate LevelUndone(s: State, t: State, base: nat, v: bv64, level: nat, last: bool) {
    var p := NodeAt(v, level);
    && p in s.tree && t == Push(s.(tree := s.tree - {p}), base, s.tree[p])
    && (last <==> level > 1 && Children(t.tree, NodeAt(v, level - 1)) == {})
  }

  /** The first two writes of an UnmapPage block. */
  lemma ClearedKernel(m: Memory, cr3: Frame, s: State, base: nat, p: Path, x: Frame)
    requires Wired(m, cr3, s.tree) && Complete(m, s.tree) && p in s.tree && SlotOf(s.tree, p) && Client(p)
    requires Children(s.tree, p) == {}
    requires base + |s.stack| < 0x1000_0000 && SlotPath(base, |s.stack|) in s.tree - {p}
    ensures KernelKept(m, Stacked(SetEntry(m, s.tree, p, !PAGE_PRESENT), State(s.tree - {p}, s.stack, []), base, x),
                       s.tree, s.tree - {p})
  {
    var m1, tree := SetEntry(m, s.tree, p, !PAGE_PRESENT), s.tree - {p};
    var t := State(tree, s.stack, []);
    hide Complete, Children, SlotPath, SetEntry, EntryOf, SlotOf, Client, KernelKept, Wired, Stacked;
    UnlinkWires(m, cr3, s.tree, p);
    ClientEntryKeeps(m, cr3, s.tree, p, !PAGE_PRESENT);
    NodeOut(m, cr3, s.tree, p);
    StackedKernel(m1, cr3, t, base, x);
    KernelKeptTwice(m, m1, m1, s.tree, s.tree, tree);
    KernelKeptTwice(m, m1, Stacked(m1, t, base, x), s.tree, tree, tree);
  }

  /** They change no page but one of the stack. */
  lemma ClearedPages(m: Memory, cr3: Frame, s: State, base: nat, p: Path, x: Frame)
    requires Wired(m, cr3, s.tree) && Complete(m, s.tree) && p in s.tree && SlotOf(s.tree, p)
    requires Children(s.tree, p) == {}
    requires SlotPath(base, |s.stack|) in s.tree - {p}
    ensures PagesKept(m, Stacked(SetEntry(m, s.tree, p, !PAGE_PRESENT), State(s.tree - {p}, s.stack, []), base, x),
                      s.tree, s.tree - {p}, base)
  {
    var m1, tree := SetEntry(m, s.tree, p, !PAGE_PRESENT), s.tree - {p};
    var t := State(tree, s.stack, []);
    hide Complete, Children, SlotPath, SetEntry, EntryOf, SlotOf, PagesKept, AllPagesKept, Wired, Stacked;
    UnlinkWires(m, cr3, s.tree, p);
    EntryPagesKept(m, cr3, s.tree, p, !PAGE_PRESENT, tree);
    AllIsMore(m, m1, s.tree, tree, base);
    StackedPagesKept(m1, cr3, t, base, x);
    PagesKeptTwice(m, m1, Stacked(m1, t, base, x), s.tree, tree, tree, base);
  }

  /** The node leaves the tree. */
  lemma NodeOut(m: Memory, cr3: Frame, tree: Tree, p: Path)
    requires Wired(m, cr3, tree) && Client(p)
    ensures KernelKept(SetEntry(m, tree, p, !PAGE_PRESENT), SetEntry(m, tree, p, !PAGE_PRESENT), tree, tree - {p})
  {
    assert Closed(tree);
    hide Wired, Client, SetEntry;
    var m1 := SetEntry(m, tree, p, !PAGE_PRESENT);
    forall q | q in tree && !Client(q) ensures EntryOf(m1, tree - {p}, q) == EntryOf(m1, tree, q) {
      if q.Sub? && q.parent == p { ClientChild(q); }
    }
  }

  lemma StackedKernel(m: Memory, cr3: Frame, t: State, base: nat, x: Frame)
    requires Wired(m, cr3, t.tree) && base + |t.stack| < 0x1000_0000 && SlotPath(base, |t.stack|) in t.tree
    ensures KernelKept(m, Stacked(m, t, base, x), t.tree, t.tree)
  {
    assert Closed(t.tree);
    hide Wired, SlotPath, EntryOf, Client, Stacked, Apart;
    forall q | q in t.tree && !Client(q) ensures EntryOf(Stacked(m, t, base, x), t.tree, q) == EntryOf(m, t.tree, q) {
      if q.Sub? {
        SlotsApart(m, cr3, t, base, q);
        StackedEntry(m, t, base, x, q);
      } else {
        NoEntryOfTop(m, Stacked(m, t, base, x), t.tree, t.tree);
      }
    }
  }

  /** UnmapPage level by level. */
  lemma ReleaseLevels(s: State, u: Setup, v: bv64, level: nat)
    requires Steady(s, u) && 1 <= level <= 4 && 256 <= P4Slot(v) <= 509
    requires NodeAt(v, level) in s.tree && Children(s.tree, NodeAt(v, level)) == {} && NodeAt(v, level).Sub?
    ensures var p := NodeAt(v, level);
      var t := Push(s.(tree := s.tree - {p}), u.base, s.tree[p]);
      && (level > 1 ==> NodeAt(v, level - 1) in t.tree)
      && Release(s, u.base, p)
         == if level > 1 && Children(t.tree, p.parent) == {} then Release(t, u.base, NodeAt(v, level - 1)) else t
  {
    hide Steady, Push, Children, NodeAt, P4Slot, TopSlot, Node, Depth, Low9, Held;
    NodeAtMeaning(v, level);
    ReleaseStep(s, u, NodeAt(v, level));
    if level > 1 {
      NodeAtMeaning(v, level - 1);
      ParentOf(s, u, NodeAt(v, level));
    }
  }

  /** A page other than v keeps its translation when the tree keeps its node. */
  lemma SameTranslation(m: Memory, m': Memory, cr3: Frame, t: Tree, t': Tree, w: bv64)
    requires Wired(m, cr3, t) && Complete(m, t) && Wired(m', cr3, t') && Complete(m', t')
    requires P4Slot(w) != 510
    requires PathOf(w) in t' <==> PathOf(w) in t
    requires PathOf(w) in t ==> t'[PathOf(w)] == t[PathOf(w)]
    ensures Translate(m', cr3, w) == Translate(m, cr3, w)
  {
    hide Wired, Complete, UpperHalf, P4Slot, PathOf, PageAt;
    if Canonical(w) {
      TranslateIsTree(m, cr3, t, w);
      TranslateIsTree(m', cr3, t', w);
    }
  }

  /** Outside the recursive window only the page of v may translate differently: in both halves of the address space. */
  ghost predicate SameButPage(m: Memory, m': Memory, cr3: Frame, v: bv64) {
    forall w :: P4Slot(w) != 510 && PageOf(w) != PageOf(v) ==> Translate(m', cr3, w) == Translate(m, cr3, w)
  }

  /** One call changes the translation of no other page. */
  lemma OthersKept(m: Memory, m': Memory, cr3: Frame, s: State, t: State, u: Setup, op: Op, v: bv64)
    requires Sound(m, cr3, s, u.base) && Sound(m', cr3, t, u.base) && Steady(s, u)
    requires op.page == PathOf(v) && Enabled(s, op) && t == Step(s, u.base, op) && UpperHalf(v)
    ensures SameButPage(m, m', cr3, v)
  {
    SoundIsWired(m, cr3, s, u.base);
    SoundIsWired(m', cr3, t, u.base);
    StepKeeps(s, u, op);
    hide Sound, Wired, Complete, UpperHalf, P4Slot, PathOf, Steady, PageOf, Enabled, Step, Depth, PageAt;
    forall w | P4Slot(w) != 510 && PageOf(w) != PageOf(v)
      ensures Translate(m', cr3, w) == Translate(m, cr3, w)
    {
      if Canonical(w) {
        if PathOf(w) == PathOf(v) { PathDeterminesPage(w, v); }
        PathIsNode(w);
        SameTranslation(m, m', cr3, s.tree, t.tree, w);
      }
    }
  }

  /** Flags are kept in an int: only the low 32 bits survive each step. */
  function AsInt(x: bv64): bv64 {
    if x & 0x80000000 != 0 then x | 0xFFFFFFFF00000000 else x & 0xFFFFFFFF
  }

  function AllocateFlags(exec: bool, write: bool, user: bool): bv64 {
    var f0: bv64 := 0;
    var f1 := if !exec then AsInt(f0 | PAGE_NOEXECUTE) else f0;
    var f2 := if write then AsInt(f1 | PAGE_WRITE) else f1;
    if user then AsInt(f2 | PAGE_USER) else f2
  }

  lemma AllocateFlagsOk(exec: bool, write: bool, user: bool)
    ensures FlagsOk(AllocateFlags(exec, write, user), 4) && Writable(AllocateFlags(exec, write, user)) == write
    ensures UserMode(AllocateFlags(exec, write, user)) == user
  {}

  /** The no-execute request has no effect: bit 63 does not fit an int. */
  lemma NoExecuteIsLost(write: bool, user: bool)
    ensures AllocateFlags(false, write, user) == AllocateFlags(true, write, user)
  {}

  /** The page's own entry gives the rights that were asked for; it never forbids execution. */
  ghost predicate Granted(m: Memory, cr3: Frame, p: Path, write: bool, user: bool) {
    p.Sub? && match EntryAt(m, cr3, p)
              case None => false
              case Some(e) => Present(e) && (Writable(e) <==> write) && (UserMode(e) <==> user) && !NoExecute(e)
  }

  lemma AllocateRights(paddr: bv64, exec: bool, write: bool, user: bool)
    ensures var e := NewEntry(paddr & 0x7FFFF000, AllocateFlags(exec, write, user));
      Present(e) && (Writable(e) <==> write) && (UserMode(e) <==> user) && !NoExecute(e)
  {}

  lemma MadeIsGranted(m: Memory, cr3: Frame, s: State, base: nat, p: Path, exec: bool, write: bool, user: bool)
    requires Sound(m, cr3, s, base) && p.Sub? && Made(m, s.tree, p, AllocateFlags(exec, write, user))
    ensures Granted(m, cr3, p, write, user)
  {
    assert p in s.tree && Good(s.tree[p].paddr);
    AllocateRights(s.tree[p].paddr, exec, write, user);
    hide Present, Writable, UserMode, NoExecute, NewEntry, AllocateFlags, Complete;
    WalkToNode(m, cr3, s.tree, p);
  }

  /** The walk to the new page p may be used for writing exactly when that was asked for, for executing exactly when
      no table that was there on the way forbids it, and in user mode exactly when that was asked for and every
      table that was there on the way is open to it. */
  ghost predicate Reached(m: Memory, m': Memory, cr3: Frame, tree: Tree, p: Path, write: bool, user: bool) {
    var above := RightsAt(m, cr3, Lowest(tree, p));
    RightsAt(m', cr3, p) == Rights(write, above.execute, above.user && user)
  }

  lemma IsReached(m: Memory, m': Memory, cr3: Frame, s: State, t: State, base: nat, p: Path, exec: bool, write: bool,
                  user: bool)
    requires Sound(m, cr3, s, base) && Sound(m', cr3, t, base) && RightsKept(m, m', s.tree, t.tree)
    requires NewLike(m', s.tree, t.tree, AllocateFlags(exec, write, user)) && p in t.tree && p !in s.tree
    requires Depth(p) == 4
    ensures Reached(m, m', cr3, s.tree, p, write, user)
  {
    SoundIsWired(m, cr3, s, base);
    SoundIsWired(m', cr3, t, base);
    LowestIsTable(m, cr3, s.tree, p);
    hide Sound, Wired, Complete, RightsKept, NewLike, RightsAt, AllocateFlags, Writable, UserMode, Depth;
    AllocateFlagsOk(exec, write, user);
    RightsAsked(m, m', cr3, s.tree, t.tree, p, AllocateFlags(exec, write, user));
    TableMayBeWritten(m, cr3, s.tree, Lowest(s.tree, p));
  }

  lemma {:induction false} LowestAbove(tree: Tree, p: Path)
    requires p !in tree && p != Top
    ensures Depth(Lowest(tree, p)) < Depth(p)
  {
    if p.parent !in tree && p.parent != Top { LowestAbove(tree, p.parent); }
  }

  lemma LowestIsTable(m: Memory, cr3: Frame, tree: Tree, p: Path)
    requires Wired(m, cr3, tree) && p !in tree && Depth(p) == 4
    ensures Lowest(tree, p) in tree && Depth(Lowest(tree, p)) < 4
  {
    assert Top in tree;
    LowestAbove(tree, p);
  }

  // ----- From the image to the running system -----

  lemma ImageNumbers(tree: Tree, n: nat, tables: nat, first: nat, end: nat, p: Path)
    requires Image(tree, n, tables, first, end) && n <= first <= end && p in tree
    ensures Good(tree[p].paddr) && PageNumber(tree[p].paddr) < end && ImageNode(p)
  {
    hide Good, PageNumber, ImageNode;
    if IsPageNode(p) { assert PageOfNode(p) < n; }
  }

  lemma ImageIsKernel(p: Path)
    requires ImageNode(p)
    ensures !Client(p)
  {
    assert TopSlot(Sub(Top, 511)) == 511 && TopSlot(ImageTable()) == 511;
    if IsPageNode(p) {
      assert TopSlot(p) == TopSlot(p.parent) == TopSlot(p.parent.parent);
    } else if IsTableNode(p) {
      assert TopSlot(p) == TopSlot(p.parent);
    }
  }

  /** Every node of the image has a frame below the first frame that the memory map supplies. */
  lemma ImageBelow(tree: Tree, n: nat, tables: nat, first: nat, end: nat, limit: bv64, p: Path)
    requires Image(tree, n, tables, first, end) && n <= first <= end && Good(limit) && PageNumber(limit) == end
    requires p in tree
    ensures Before(tree[p].paddr, limit) && !Client(p)
  {
    hide Image, Good, PageNumber, Before, ImageNode, Client;
    ImageNumbers(tree, n, tables, first, end, p);
    ImageIsKernel(p);
    PageOrder(tree[p].paddr, limit);
  }

  lemma FramesNoRepeats(r: seq<bv64>)
    requires Increasing(r)
    ensures NoRepeats(FramesOf(r))
  {
    hide PageNumber;
    var s := FramesOf(r);
    forall i, j | 0 <= i < j < |s| ensures s[i] != s[j] {
      assert PageNumber(r[i]) < PageNumber(r[j]);
    }
  }

  lemma SuppliedDistinct(tree: Tree, n: nat, tables: nat, first: nat, end: nat, limit: bv64, r: seq<bv64>)
    requires Image(tree, n, tables, first, end) && n <= first <= end && Good(limit) && PageNumber(limit) == end
    requires Injective(tree) && Increasing(r) && AllFrom(r, 0, limit)
    ensures Distinct(State(tree, [], FramesOf(r)))
  {
    hide Image, Good, PageNumber, Before, Client, Increasing, Injective, NoRepeats, AllFrom;
    FramesNoRepeats(r);
    NothingRepeats();
    forall p | p in tree ensures tree[p] !in FramesOf(r) {
      ImageBelow(tree, n, tables, first, end, limit, p);
      NotSupplied(r, limit, tree[p]);
    }
  }

  lemma NotSupplied(r: seq<bv64>, limit: bv64, f: Frame)
    requires AllFrom(r, 0, limit) && Before(f.paddr, limit)
    ensures f !in FramesOf(r)
  {
    hide Good, PageNumber, Before;
  }

  lemma NothingRepeats()
    ensures NoRepeats([])
  {}

  lemma SuppliedGood(limit: bv64, r: seq<bv64>)
    requires Good(limit) && 0 < PageNumber(limit) && AllFrom(r, 0, limit)
    ensures forall f :: f in FramesOf(r) ==> Good(f.paddr) && f.paddr != 0
  {
    hide Good, PageNumber, Before;
    ZeroPage();
    PageOrder(0, limit);
    forall f | f in FramesOf(r) ensures Good(f.paddr) && f.paddr != 0 {
      NotZero(f.paddr, limit);
    }
  }

  lemma ImageHasRam(m: Memory, tree: Tree, n: nat, tables: nat, first: nat, end: nat, p: Path)
    requires Image(tree, n, tables, first, end) && n <= first <= end && Covers(m, end) && p in tree
    ensures Good(tree[p].paddr) && tree[p] in m
  {
    hide Image, Good, PageNumber, Covers, ImageNode;
    ImageNumbers(tree, n, tables, first, end, p);
    CoversFrame(m, end, tree[p].paddr);
  }

  lemma SuppliedUsable(m: Memory, tree: Tree, n: nat, tables: nat, first: nat, end: nat, limit: bv64, r: seq<bv64>)
    requires Image(tree, n, tables, first, end) && n <= first <= end && 0 < end && Good(limit)
    requires PageNumber(limit) == end
    requires AllFrom(r, 0, limit) && Covers(m, end) && forall f :: f in FramesOf(r) ==> f in m
    ensures Usable(State(tree, [], FramesOf(r)), m)
  {
    hide Image, Good, PageNumber, Before, Covers, AllFrom;
    SuppliedGood(limit, r);
    forall p | p in tree ensures Good(tree[p].paddr) && tree[p] in m { ImageHasRam(m, tree, n, tables, first, end, p); }
  }

  lemma AllFromZero(r: seq<bv64>, lowest: nat, limit: bv64)
    requires AllFrom(r, lowest, limit)
    ensures AllFrom(r, 0, limit)
  {
    hide Good, PageNumber, Before;
  }

  lemma BuiltParts(m: Memory, cr3: Frame, tree: Tree, c: Code, n: nat, tables: nat, first: nat, end: nat)
    requires Built(m, cr3, tree, c, n, tables, first, end)
    ensures Wired(m, cr3, tree) && Complete(m, tree) && Counted(m, tree) && Closed(tree) && Injective(tree)
    ensures Image(tree, n, tables, first, end)
  {}

  /** The stack starts behind the image, so none of its pages is mapped yet. */
  lemma NoSlotInImage(tree: Tree, n: nat, tables: nat, first: nat, end: nat, base: nat, k: nat)
    requires Image(tree, n, tables, first, end) && base == 512 * n
    ensures SlotPath(base, k) !in tree
  {
    hide Good, PageNumber;
    var q, page := SlotPath(base, k), (base + k) / 512;
    assert page >= n && q == Path4(511, 510 + page / 0x40000, page / 512 % 512, page % 512);
    if q in tree { SlotIsNoImagePage(q, page, n); }
  }

  lemma SlotIsNoImagePage(q: Path, page: nat, n: nat)
    requires q == Path4(511, 510 + page / 0x40000, page / 512 % 512, page % 512) && page >= n
    ensures !ImageNode(q) || (IsPageNode(q) && PageOfNode(q) >= n)
  {
    var t := q.parent.parent;
    assert Depth(q) == 4 by { SlotDepth(511, 510 + page / 0x40000, page / 512 % 512, page % 512); }
    ImageDepths();
    if IsPageNode(q) {
      assert t == Sub(Sub(Top, 511), 510 + page / 0x40000);
      SmallNumber(page);
    }
  }

  lemma SmallNumber(page: nat)
    requires page / 0x40000 == 0
    ensures page / 512 % 512 * 512 + page % 512 == page
  {
    assert page / 512 < 512;
  }

  lemma SlotDepth(a: nat, b: nat, c: nat, d: nat)
    ensures Depth(Path4(a, b, c, d)) == 4
  {
    assert Depth(Path1(a)) == 1;
    assert Depth(Path2(a, b)) == 2;
  }

  lemma ImageDepths()
    ensures Depth(Top) == 0 && Depth(Sub(Top, 511)) == 1 && Depth(ImageTable()) == 2
    ensures forall q :: IsTableNode(q) ==> Depth(q) == 3
  {}

  lemma ImageSlotsWritable(m: Memory, tree: Tree, n: nat, tables: nat, first: nat, end: nat, base: nat)
    requires Image(tree, n, tables, first, end) && base == 512 * n
    ensures SlotsWritable(m, tree, base)
  {
    hide Image, SlotPath;
    forall k: nat ensures SlotPath(base, k) !in tree { NoSlotInImage(tree, n, tables, first, end, base, k); }
  }

  /** The state in which Initialize starts to fill the stack. */
  lemma BootState(m: Memory, cr3: Frame, tree: Tree, c: Code, n: nat, tables: nat, end: nat, limit: bv64, a: bv64,
                  pages: nat, base: nat)
    requires Built(m, cr3, tree, c, n, tables, n, end) && 0 < n <= end && Good(limit) && PageNumber(limit) == end
    requires Fits(a, pages) && base == 512 * n <= 0x8000000 && Covers(m, end)
    requires forall f :: f in FramesOf(NotBefore(Consecutive(a, pages), limit)) ==> f in m
    ensures var s := State(tree, [], FramesOf(NotBefore(Consecutive(a, pages), limit)));
      Sound(m, cr3, s, base) && Counted(m, tree) && Booting(s, base)
  {
    hide Built, Image, Wired, Complete, Counted, Good, PageNumber, Before, Client, Usable, Distinct, Closed, Injective,
      Consecutive, NotBefore,
      Fits, Increasing, AllFrom, SlotsWritable, Covers;
    BuiltParts(m, cr3, tree, c, n, tables, n, end);
    SupplyIncreases(a, pages, limit);
    AllFromZero(NotBefore(Consecutive(a, pages), limit), PageNumber(a), limit);
    SupplyBound(a, pages);
    SuppliedDistinct(tree, n, tables, n, end, limit, NotBefore(Consecutive(a, pages), limit));
    SuppliedUsable(m, tree, n, tables, n, end, limit, NotBefore(Consecutive(a, pages), limit));
    ImageSlotsWritable(m, tree, n, tables, n, end, base);
    forall p | p in tree ensures !Client(p) { ImageBelow(tree, n, tables, n, end, limit, p); }
  }

  /** There is RAM for these frames, as far as they have numbers from `first` on. */
  ghost predicate Backed(m: Memory, r: seq<bv64>, first: nat) {
    forall i :: 0 <= i < |r| && PageNumber(r[i]) >= first ==> Frame(r[i]) in m
  }

  lemma {:induction false} KeptAreOld(r: seq<bv64>, limit: bv64)
    ensures forall a :: a in NotBefore(r, limit) ==> a in r
    decreases |r|
  {
    hide Before;
    if r != [] { KeptAreOld(r[1..], limit); }
  }

  /** The frames that the memory map supplies have RAM. */
  lemma SupplyBacked(m: Memory, m': Memory, a: bv64, pages: nat, first: nat, limit: bv64)
    requires Backed(m, Consecutive(a, pages), first) && RamKept(m, m') && Fits(a, pages)
    requires Good(limit) && PageNumber(limit) == first
    ensures forall f :: f in FramesOf(NotBefore(Consecutive(a, pages), limit)) ==> f in m'
  {
    hide Good, PageNumber, Before, Fits, Consecutive, NotBefore;
    var r, all := NotBefore(Consecutive(a, pages), limit), Consecutive(a, pages);
    SupplyIncreases(a, pages, limit);
    KeptAreOld(all, limit);
    forall i | 0 <= i < |r| ensures Frame(r[i]) in m' {
      if PageNumber(r[i]) < first { PageOrder(r[i], limit); }
      assert r[i] in r && r[i] in all;
      var k :| 0 <= k < |all| && all[k] == r[i];
    }
  }

  lemma BuiltImage(m: Memory, cr3: Frame, tree: Tree, c: Code, n: nat, tables: nat, end: nat)
    requires Built(m, cr3, tree, c, n, tables, n, end)
    ensures Image(tree, n, tables, n, end)
  {}

  lemma BootPointers(entries: seq<MemMapEntry>, a: bv64, size: nat, limit: bv64, bottom: bv64)
    requires MapOk(entries, Some(0)) && KernelWindow(bottom) && PageOf(bottom) == bottom
    ensures PointsAbove(bottom, bottom, 0)
    ensures Supplies(entries, Some(0), a, size, limit,
                     FramesOf(NotBefore(Consecutive(a, PagesLeft(entries, 0, size)), limit)))
  {
    hide KernelWindow, PageOf, WordNumber, WordAligned, Remaining, Consecutive, NotBefore, PagesLeft;
    PageIsWordAligned(bottom);
    RemainingIsConsecutive(entries, 0, a, size, limit);
  }

  /** One turn of the filling loop. */
  lemma FillStep(m: Memory, cr3: Frame, s: State, base: nat)
    requires Sound(m, cr3, s, base) && Booting(s, base)
    ensures var (x, r) := Take(s, MemoryMap);
      r.tree == s.tree &&
      if s.supply == [] then x.None? && r == s && Fill(s, base) == s
      else
        && x == Some(s.supply[0]) && x.value !in Held(r) && Good(x.value.paddr) && x.value.paddr != 0 && x.value in m
        && base + |r.stack| + |r.supply| + 1 < 0x1000_0000 && |r.supply| < |s.supply|
        && Booting(Push(r, base, x.value), base)
        && Fill(Push(r, base, x.value), base) == Fill(s, base)
  {
    hide Sound, Held, Good, Push;
    SoundTake(m, cr3, s, base, MemoryMap);
    if s.supply != [] {
      TakeFirst(s, base);
      PushWhileBooting(s.(supply := s.supply[1..]), base, s.supply[0]);
    }
    hide Booting;
  }

  /** The direct map of the image is still there when the stack has been filled. */
  lemma ImageStays(m0: Memory, m: Memory, cr3: Frame, s: State, base: nat, image: Tree, c: Code, k: bv64, tables: nat,
                   end: nat)
    requires ImageEnd(k) && Sound(m, cr3, s, base)
    requires Image(image, PageNumber(Paddr(Align(k))), tables, PageNumber(Paddr(Align(k))), end)
    requires Wired(m0, cr3, image) && RightsKept(m0, m, image, s.tree)
    requires forall v :: P4Slot(v) != 510 ==> MapsImage(m0, cr3, c, k, v)
    ensures forall v :: KernelWindow(v) && Before(ImagePage(v), Paddr(k)) ==> MapsImage(m, cr3, c, k, v)
  {
    SoundIsWired(m, cr3, s, base);
    hide Sound, Wired, Complete, Image, KernelWindow, UpperHalf, PathOf, P4Slot, P3Slot, PageNumber, ImagePage,
      Translate, IsPageNode, RightsAt, IsCode, Before, Paddr, Align, ImageEnd, EndsLow, Good, RightsKept;
    EndFacts(k);
    forall v | KernelWindow(v) && Before(ImagePage(v), Paddr(k))
      ensures MapsImage(m, cr3, c, k, v)
    {
      ImagePageGood(v);
      BeforeEnd(ImagePage(v), k);
      WindowIsUpper(v);
      PointerDigits(v);
      ImageAddress(image, PageNumber(Paddr(Align(k))), tables, PageNumber(Paddr(Align(k))), end, v);
      RightsKeptNode(m0, m, image, s.tree, PathOf(v));
      TranslateIsTree(m, cr3, s.tree, v);
      RightsFollow(m0, m, cr3, image, s.tree, PathOf(v));
    }
  }

  /** The pages of the image keep their contents. */
  lemma ImageContents(m0: Memory, m: Memory, cr3: Frame, s: State, base: nat, image: Tree, n: nat, tables: nat,
                      end: nat)
    requires Sound(m, cr3, s, base) && Wired(m0, cr3, image) && Image(image, n, tables, n, end) && base == 512 * n
    requires RightsKept(m0, m, image, s.tree) && PagesKept(m0, m, image, s.tree, base)
    ensures LowKept(m0, m, n)
  {
    SoundIsWired(m, cr3, s, base);
    hide Sound, Complete, Good, PageNumber, RightsKept, PagesKept, Word;
    forall f | f in m0 && Good(f.paddr) && PageNumber(f.paddr) < n ensures f in m && m[f] == m0[f] {
      var q := PageNode(PageNumber(f.paddr) / 512, PageNumber(f.paddr) % 512);
      ImageNodeOf(image, n, tables, n, end, f);
      RightsKeptNode(m0, m, image, s.tree, q);
      ImageOffStack(image, n, tables, end, base, q);
      KeptAt(m0, m, image, s.tree, base, q);
      SameWords(m0, m, f);
    }
  }

  lemma ImageNodeOf(image: Tree, n: nat, tables: nat, first: nat, end: nat, f: Frame)
    requires Image(image, n, tables, first, end) && Good(f.paddr) && PageNumber(f.paddr) < n
    ensures var q := PageNode(PageNumber(f.paddr) / 512, PageNumber(f.paddr) % 512);
            q in image && image[q] == f && Depth(q) == 4
  {
    hide Good, PageNumber, ImageNode;
    var j, k := PageNumber(f.paddr) / 512, PageNumber(f.paddr) % 512;
    var q := PageNode(j, k);
    assert j * 512 + k < n && k < 512;
    assert IsPageNode(q) && PageOfNode(q) == PageNumber(f.paddr);
    PageInjective(image[q].paddr, f.paddr);
    PageNodeDepth(q);
  }

  lemma ImageOffStack(image: Tree, n: nat, tables: nat, end: nat, base: nat, q: Path)
    requires Image(image, n, tables, n, end) && base == 512 * n && q in image
    ensures OffStack(base, q)
  {
    hide Image, SlotPath;
    forall k: nat ensures q != SlotPath(base, k) { NoSlotInImage(image, n, tables, n, end, base, k); }
  }

  lemma KeptAt(m: Memory, m': Memory, tree: Tree, tree': Tree, base: nat, q: Path)
    requires PagesKept(m, m', tree, tree', base) && q in tree && q in tree' && Depth(q) == 4 && OffStack(base, q)
    ensures PageKept(m, m', tree, tree', q)
  {}

  lemma SameWords(m: Memory, m': Memory, f: Frame)
    requires Ram(m) && Ram(m') && f in m && f in m' && forall j: nat :: Word(m', f, j) == Word(m, f, j)
    ensures m'[f] == m[f]
  {
    forall j | 0 <= j < 512 ensures m'[f][j] == m[f][j] {
      assert Word(m', f, j) == Word(m, f, j);
    }
  }

  lemma NoFrameBelow(base: bv64, n: nat, limit: bv64)
    requires base <= 0xFFFFFFFFFFFFF000 && Fits(Align(base), n)
    ensures forall f :: f in FramesOf(NotBefore(Consecutive(Align(base), n), limit)) ==> !Before(f.paddr, base)
  {
    hide Good, PageNumber, Before, Align, Fits, Consecutive, NotBefore;
    NoneBelowBase(base, n, limit);
    var r := NotBefore(Consecutive(Align(base), n), limit);
    forall f | f in FramesOf(r) ensures !Before(f.paddr, base) {
      var i :| 0 <= i < |FramesOf(r)| && FramesOf(r)[i] == f;
      assert r[i] in r;
    }
  }

  lemma BuiltIsWired(m: Memory, cr3: Frame, tree: Tree, c: Code, n: nat, tables: nat, first: nat, end: nat)
    requires Built(m, cr3, tree, c, n, tables, first, end)
    ensures Wired(m, cr3, tree)
  {}

  lemma RightsKeptNode(m: Memory, m': Memory, tree: Tree, tree': Tree, q: Path)
    requires RightsKept(m, m', tree, tree') && q in tree
    ensures q in tree' && tree'[q] == tree[q]
  {}

  /** Storing a frame in its slot changes no entry. */
  lemma StackedRights(m0: Memory, m: Memory, cr3: Frame, s0: State, s: State, base: nat, x: Frame)
    requires Sound(m, cr3, s, base) && SlotPath(base, |s.stack|) in s.tree && RightsKept(m0, m, s0.tree, s.tree)
    requires base + |s.stack| < 0x1000_0000
    ensures RightsKept(m0, Stacked(m, s, base, x), s0.tree, s.tree)
  {
    hide EntryOf, Writable, NoExecute, Sound, Wired, Complete, SlotPath, RightsKept, SetWord;
    SoundIsWired(m, cr3, s, base);
    SlotPathIsKernel(base, |s.stack|);
    PageWriteRights(m, cr3, s.tree, SlotPath(base, |s.stack|), (base + |s.stack|) % 512, x.paddr);
    RightsKeptTwice(m0, m, Stacked(m, s, base, x), s0.tree, s.tree, s.tree);
  }

  /** It changes that page of the stack alone. */
  lemma StackedContents(m0: Memory, m: Memory, cr3: Frame, s0: State, s: State, base: nat, x: Frame)
    requires Sound(m, cr3, s, base) && SlotPath(base, |s.stack|) in s.tree && RightsKept(m0, m, s0.tree, s.tree)
    requires PagesKept(m0, m, s0.tree, s.tree, base)
    ensures PagesKept(m0, Stacked(m, s, base, x), s0.tree, s.tree, base)
  {
    RightsGrow(m0, m, s0.tree, s.tree);
    hide Sound, Wired, Complete, SlotPath, RightsKept, PagesKept, Stacked;
    SoundIsWired(m, cr3, s, base);
    StackedPagesKept(m, cr3, s, base, x);
    PagesKeptTwice(m0, m, Stacked(m, s, base, x), s0.tree, s.tree, s.tree, base);
  }

  lemma PageWriteRights(m: Memory, cr3: Frame, tree: Tree, p: Path, i: nat, w: bv64)
    requires Wired(m, cr3, tree) && p in tree && Depth(p) == 4 && i < 512
    ensures RightsKept(m, SetWord(m, tree[p], i, w), tree, tree)
  {
    assert Closed(tree);
    hide EntryOf, SameRights, Wired, Complete, Counted, SetWord, Depth;
    PageWriteKeeps(m, cr3, tree, p, i, w);
    forall q | q in tree && q.Sub?
      ensures SameRights(EntryOf(m, tree, q), EntryOf(SetWord(m, tree[p], i, w), tree, q))
    {
      RightsOfItself(EntryOf(m, tree, q));
    }
  }

  lemma RightsOfItself(e: bv64)
    ensures SameRights(e, e)
  {}

  lemma NoEntryNoSupply(entries: seq<MemMapEntry>, current: Option<nat>, addr: bv64, size: nat, limit: bv64,
                        supply: seq<Frame>)
    requires Supplies(entries, current, addr, size, limit, supply) && current.None?
    ensures supply == []
  {}

  lemma FilledPool(m: Memory, cr3: Frame, s: State, base: nat)
    requires Sound(m, cr3, s, base)
    ensures base + |Elements(s.stack)| < 0x1000_0000 && forall f :: f in Elements(s.stack) ==> f.paddr != 0
  {
    SizeOfElements(s.stack);
    hide Wired, Complete, Good;
  }

  lemma SupplyBound(a: bv64, pages: nat)
    requires Fits(a, pages)
    ensures pages <= 0x80000
  {}

  /** The image has n pages and as many P1 tables as `tables` says; p1 is the last of them. */
  ghost predicate BuildingAt(m: Memory, tableEnd: bv64, c: Code, first: nat, tree: Tree, p4: bv64, p3: bv64, p2: bv64,
                             p1: bv64, n: nat, tables: nat) {
    && Built(m, Frame(p4), tree, c, n, tables, first, first + 3 + tables)
    && Good(tableEnd) && PageNumber(tableEnd) == first + 3 + tables
    && Sub(Top, 511) in tree && tree[Sub(Top, 511)] == Frame(p3)
    && ImageTable() in tree && tree[ImageTable()] == Frame(p2)
    && (tables > 0 ==> TableNode(tables - 1) in tree && tree[TableNode(tables - 1)] == Frame(p1))
  }

  /** The number of the first frame behind the image and its tables. */
  function TablesEnd(first: nat): nat { first + 3 + (first + 511) / 512 }

  lemma TablesFit(n: nat, first: nat, j: nat)
    requires n < first && 512 * j <= n
    ensures n < TablesEnd(first) && first + 3 + j < TablesEnd(first)
  {}

  lemma SlotsOfPage(addr: bv64, n: nat, j: nat, k: nat)
    requires Good(addr) && PageNumber(addr) == n == 512 * j + k && k < 512 && n < 0x40000
    ensures P2Slot(addr) == j < 512 && P1Slot(addr) == k && n / 512 == j && n % 512 == k
  {
    hide Good, PageNumber, P2Slot, P1Slot;
    FrameSlots(addr);
  }

  /** Whether page n has its P1 table, and what making one does; j is the number of that table. */
  lemma TableNeeded(m: Memory, tableEnd: bv64, c: Code, first: nat, tree: Tree, p4: bv64, p3: bv64, p2: bv64, p1: bv64,
                    n: nat, addr: bv64, j: nat, tables: nat)
    requires 512 * j <= n < 512 * j + 512 && tables == (if n == 512 * j then j else j + 1)
    requires BuildingAt(m, tableEnd, c, first, tree, p4, p3, p2, p1, n, tables) && Covers(m, TablesEnd(first))
    requires n < first <= 0x40000 && Good(addr) && PageNumber(addr) == n
    ensures Present(Word(m, Frame(p2), P2Slot(addr))) ==> tables == j + 1
    ensures !Present(Word(m, Frame(p2), P2Slot(addr))) ==>
      var m' := TableMade(m, Frame(p3), Frame(p2), P2Slot(addr), tableEnd);
      && BuildingAt(m', NextPage(tableEnd), c, first, tree[TableNode(j) := Frame(tableEnd)], p4, p3, p2, tableEnd, n,
                    j + 1)
      && Covers(m', TablesEnd(first)) && RamKept(m, m') && LowKept(m, m', first)
  {
    hide Covers, RamKept, LowKept, Built, Good, PageNumber, TableMade, Word, NextPage, P2Slot, Present, TablesEnd;
    TablesAbove(m, tableEnd, c, first, tree, p4, p3, p2, p1, n, tables);
    TablesFit(n, first, j);
    SlotsOfPage(addr, n, j, n - 512 * j);
    TablePresent(m, Frame(p4), tree, c, n, tables, first, first + 3 + tables, j, Frame(p2));
    if !Present(Word(m, Frame(p2), P2Slot(addr))) {
      TableBlock(m, Frame(p4), tree, c, n, tables, first, first + 3 + tables, Frame(p3), Frame(p2), tableEnd,
                 TablesEnd(first));
      TableMadeLow(m, Frame(p3), Frame(p2), P2Slot(addr), tableEnd, first);
      PageAdvance(tableEnd);
    }
  }

  /** Mapping page n, in slot k of table j. */
  lemma PageMapped(m: Memory, tableEnd: bv64, c: Code, first: nat, tree: Tree, p4: bv64, p3: bv64, p2: bv64, p1: bv64,
                   n: nat, addr: bv64, j: nat, k: nat)
    requires n == 512 * j + k && k < 512
    requires BuildingAt(m, tableEnd, c, first, tree, p4, p3, p2, p1, n, j + 1) && Covers(m, TablesEnd(first))
    requires n < first <= 0x40000 && Good(addr) && PageNumber(addr) == n
    ensures var m' := PageMade(m, Frame(p2), Frame(p1), P2Slot(addr), P1Slot(addr), LeafEntry(c, addr));
      && BuildingAt(m', tableEnd, c, first, tree[PageNode(j, k) := Frame(addr)], p4, p3, p2, p1, n + 1, j + 1)
      && Covers(m', TablesEnd(first)) && RamKept(m, m') && LowKept(m, m', first)
  {
    hide Covers, RamKept, LowKept, Built, Good, PageNumber, PageMade, LeafEntry, P2Slot, P1Slot, TablesEnd;
    TablesAbove(m, tableEnd, c, first, tree, p4, p3, p2, p1, n, j + 1);
    TablesFit(n, first, j);
    SlotsOfPage(addr, n, j, k);
    PageBlock(m, Frame(p4), tree, c, n, j + 1, first, first + 4 + j, Frame(p2), Frame(p1), addr, TablesEnd(first));
    PageMadeLow(m, Frame(p2), Frame(p1), P2Slot(addr), P1Slot(addr), LeafEntry(c, addr), first);
  }

  /** The tables lie behind the image. */
  lemma TablesAbove(m: Memory, tableEnd: bv64, c: Code, first: nat, tree: Tree, p4: bv64, p3: bv64, p2: bv64, p1: bv64,
                    n: nat, tables: nat)
    requires BuildingAt(m, tableEnd, c, first, tree, p4, p3, p2, p1, n, tables)
    ensures PageNumber(p3) >= first && PageNumber(p2) >= first && PageNumber(tableEnd) >= first
    ensures tables > 0 ==> PageNumber(p1) >= first
  {
    hide Represents, Entries, Good, PageNumber;
    assert !IsPageNode(Sub(Top, 511)) && !IsPageNode(ImageTable());
    assert tables > 0 ==> !IsPageNode(TableNode(tables - 1));
  }

  lemma StillInRam(m: Memory, m': Memory, f: Frame)
    requires RamKept(m, m') && f in m
    ensures f in m'
  {}

  lemma RamKeptTwice(m: Memory, m1: Memory, m2: Memory)
    requires RamKept(m, m1) && RamKept(m1, m2)
    ensures RamKept(m, m2)
  {}

  lemma RoundUp(n: nat)
    ensures (n + 511) / 512 == (if n % 512 == 0 then n / 512 else n / 512 + 1) && (n + 1 + 511) / 512 == n / 512 + 1
    ensures n == 512 * (n / 512) + n % 512
  {}

  lemma SameLow(m: Memory, n: nat)
    ensures LowKept(m, m, n)
  {}

  /** Every frame that begins below the end of the image keeps its contents. */
  ghost predicate ImageKept(m: Memory, m': Memory, end: bv64) {
    forall f :: f in m && Good(f.paddr) && Before(f.paddr, Paddr(end)) ==> f in m' && m'[f] == m[f]
  }

  lemma LowIsImage(m: Memory, m': Memory, k: bv64)
    requires ImageEnd(k)
    ensures LowKept(m, m', PageNumber(Paddr(Align(k)))) <==> ImageKept(m, m', k)
  {
    hide Good, PageNumber, Paddr, Align, Before, EndsLow, ImageEnd;
    EndFacts(k);
    forall f: Frame | Good(f.paddr)
      ensures Before(f.paddr, Paddr(k)) <==> PageNumber(f.paddr) < PageNumber(Paddr(Align(k)))
    {
      BeforeEnd(f.paddr, k);
    }
  }

  lemma SameRam(m: Memory)
    ensures RamKept(m, m)
  {}

  /** What the walk finds for v when the image up to the address `end` is mapped: the page of v's own number,
      read-only and executable when it is code, and otherwise writable and not executable; in no case open to
      user mode. */
  ghost predicate MapsImage(m: Memory, cr3: Frame, c: Code, end: bv64, v: bv64) {
    if KernelWindow(v) && Before(ImagePage(v), Paddr(end)) then
      && Translate(m, cr3, v) == Some(Frame(ImagePage(v)))
      && RightsAt(m, cr3, PathOf(v)) == Rights(!IsCode(c, ImagePage(v)), IsCode(c, ImagePage(v)), false)
    else Translate(m, cr3, v) == None
  }

  lemma ImageIsMapped(m: Memory, cr3: Frame, tree: Tree, c: Code, k: bv64, tables: nat, first: nat, end: nat, v: bv64)
    requires ImageEnd(k) && P4Slot(v) != 510
    requires Built(m, cr3, tree, c, PageNumber(Paddr(Align(k))), tables, first, end)
    ensures MapsImage(m, cr3, c, k, v)
  {
    hide Built, PageNumber, KernelWindow, UpperHalf, P4Slot, PageAt, RightsAt, ImagePage, IsCode, PathOf, Paddr, Align,
      Good, Before, EndsLow, ImageEnd, Canonical, PageOf, Translate;
    EndFacts(k);
    ImagePageGood(v);
    BeforeEnd(ImagePage(v), k);
    if Canonical(v) {
      DirectMap(m, cr3, tree, c, PageNumber(Paddr(Align(k))), tables, first, end, v);
    } else {
      NotCanonical(m, cr3, v);
    }
  }

  lemma NotCanonical(m: Memory, cr3: Frame, v: bv64)
    requires !Canonical(v)
    ensures !KernelWindow(v) && Translate(m, cr3, v) == None
  {
    hide KernelWindow, PageAt, PathOf;
    if KernelWindow(v) { WindowIsUpper(v); }
  }

  /** The entry of node p was cleared and its frame put on the stack. */
  ghost predicate EntryCleared(m0: Memory, m: Memory, s0: State, s: State, base: nat, p: Path) {
    && p in s0.tree
    && s == State(s0.tree - {p}, s0.stack + [s0.tree[p]], [])
    && s == Push(s0.(tree := s0.tree - {p}), base, s0.tree[p])
    && m == Stacked(SetEntry(m0, s0.tree, p, !PAGE_PRESENT), State(s0.tree - {p}, s0.stack, []), base, s0.tree[p])
  }

  class Manager {
    /** Physical memory and the page-table register. */
    var mem: Memory
    var cr3: Frame

    var frameStack: bv64
    var mmapEntry: Option<nat>
    var mmapAddr: bv64
    var mmapSize: nat
    /** Physical address of kernel_page_table_end. */
    var tableEnd: bv64

    const memmap: seq<MemMapEntry>
    const kernelStart: bv64
    const kernelData: bv64
    const kernelEnd: bv64

    ghost var s: State
    ghost var setup: Setup

    constructor (ram: Memory, memmap: seq<MemMapEntry>, kernelStart: bv64, kernelData: bv64, kernelEnd: bv64)
      ensures mem == ram && this.memmap == memmap && this.kernelStart == kernelStart
      ensures this.kernelData == kernelData && this.kernelEnd == kernelEnd
    {
      mem := ram;
      cr3, tableEnd, frameStack, mmapAddr := Frame(0), 0, 0, 0;
      mmapEntry, mmapSize := None, 0;
      this.memmap := memmap;
      this.kernelStart := kernelStart;
      this.kernelData := kernelData;
      this.kernelEnd := kernelEnd;
      s := State(map[], [], []);
      setup := Setup(0, map[], {});
    }

    /** Number of the word at which the frame stack starts. */
    ghost function Base(): nat { WordNumber(Align(kernelEnd)) }

    ghost predicate Valid()
      reads this
    {
      && Sound(mem, cr3, s, Base())
      && PointsAbove(Align(kernelEnd), frameStack, |s.stack|)
      && Supplies(memmap, mmapEntry, mmapAddr, mmapSize, tableEnd, s.supply)
    }

    ghost predicate CountsOk()
      reads this
    {
      Counted(mem, s.tree)
    }

    /** Number of pages from physical address 0 to the end of the kernel image. */
    ghost function ImageSize(): nat { PageNumber(Paddr(Align(kernelEnd))) }

    ghost function KernelCode(): Code { Code(kernelStart, kernelData) }

    /** The kernel ends below 1 GiB, and there is RAM for the image and its tables. */
    ghost predicate Bootable()
      reads this
    {
      ImageEnd(kernelEnd) && Covers(mem, TablesEnd(ImageSize()))
    }

    /** The state of the construction loop before page n. */
    ghost predicate Building(tree: Tree, p4: bv64, p3: bv64, p2: bv64, p1: bv64, n: nat)
      reads this
    {
      BuildingAt(mem, tableEnd, KernelCode(), ImageSize(), tree, p4, p3, p2, p1, n, (n + 511) / 512)
    }

    /** P4, P3 and P2, right after the kernel image. */
    method StartTables() returns (p4: bv64, p3: bv64, p2: bv64, ghost tree: Tree)
      requires Bootable()
      modifies `mem, `tableEnd
      ensures Bootable() && Building(tree, p4, p3, p2, 0, 0) && p4 == Paddr(Align(kernelEnd))
      ensures RamKept(old(mem), mem) && LowKept(old(mem), mem, ImageSize())
    {
      hide Built, Good, PageNumber, SetWord, Word, IncEntryCount, TableEntry, NextPage, KernelWindow, Paddr, Align,
        PageOf, Covers, RamKept, LowKept, ImageEnd, EndsLow;
      EndFacts(kernelEnd);
      p4 := Paddr(Align(kernelEnd));
      PageAdvance(p4);
      p3 := NextPage(p4);
      PageAdvance(p3);
      p2 := NextPage(p3);
      PageAdvance(p2);
      tableEnd := NextPage(p2);
      StartBuilt(mem, p4, p3, p2, KernelCode(), ImageSize());
      mem := mem[Frame(p4) := EmptyTable()][Frame(p3) := EmptyTable()][Frame(p2) := EmptyTable()];
      mem := SetWord(mem, Frame(p4), 510, TableEntry(p4));
      mem := SetWord(mem, Frame(p4), 511, TableEntry(p3));
      mem := SetWord(mem, Frame(p3), 510, TableEntry(p2));
      mem := SetWord(mem, Frame(p4), 511, IncEntryCount(Word(mem, Frame(p4), 511)));
      tree := StartTree(Frame(p4), Frame(p3), Frame(p2));
    }

    /** The first block of the construction loop: a P1 table for page n, if it has none yet. */
    method MakeTable(addr: bv64, p4: bv64, p3: bv64, p2: bv64, p1: bv64, ghost tree: Tree, ghost n: nat, ghost j: nat)
      returns (p1': bv64, ghost tree': Tree)
      requires Bootable() && Building(tree, p4, p3, p2, p1, n) && n < ImageSize() && Good(addr) && PageNumber(addr) == n
      requires j == n / 512
      modifies `mem, `tableEnd
      ensures Bootable() && BuildingAt(mem, tableEnd, KernelCode(), ImageSize(), tree', p4, p3, p2, p1', n, j + 1)
      ensures RamKept(old(mem), mem) && LowKept(old(mem), mem, ImageSize())
    {
      hide Covers, RamKept, LowKept, BuildingAt, Good, PageNumber, SetWord, Word, IncEntryCount, TableEntry, NextPage;
      hide P2Slot, Present, KernelWindow, Paddr, Align, PageOf, TablesEnd, ImageEnd, EndsLow;
      EndFacts(kernelEnd);
      p1', tree' := p1, tree;
      RoundUp(n);
      TableNeeded(mem, tableEnd, KernelCode(), ImageSize(), tree, p4, p3, p2, p1, n, addr, j, (n + 511) / 512);
      SameRam(mem);
      SameLow(mem, ImageSize());
      if !Present(Word(mem, Frame(p2), P2Slot(addr))) {
        p1' := tableEnd;
        tableEnd := NextPage(tableEnd);
        mem := SetWord(mem, Frame(p2), P2Slot(addr), TableEntry(p1'));
        mem := mem[Frame(p1') := EmptyTable()];
        mem := SetWord(mem, Frame(p3), 510, IncEntryCount(Word(mem, Frame(p3), 510)));
        tree' := tree[TableNode(j) := Frame(p1')];
      }
    }

    /** The second block: page n in slot k of table j. */
    method MapLeaf(addr: bv64, p4: bv64, p3: bv64, p2: bv64, p1: bv64, ghost tree: Tree, ghost n: nat, ghost j: nat,
                   ghost k: nat)
      returns (ghost tree': Tree)
      requires Bootable() && BuildingAt(mem, tableEnd, KernelCode(), ImageSize(), tree, p4, p3, p2, p1, n, j + 1)
      requires n == 512 * j + k && k < 512 && n < ImageSize() && Good(addr) && PageNumber(addr) == n
      modifies `mem
      ensures Bootable() && BuildingAt(mem, tableEnd, KernelCode(), ImageSize(), tree', p4, p3, p2, p1, n + 1, j + 1)
      ensures RamKept(old(mem), mem) && LowKept(old(mem), mem, ImageSize())
    {
      hide Covers, RamKept, LowKept, BuildingAt, Good, PageNumber, SetWord, Word, IncEntryCount, CodeEntry, DataEntry,
        Before;
      hide P2Slot, P1Slot, KernelWindow, Paddr, Align, PageOf, TablesEnd, ImageEnd, EndsLow;
      EndFacts(kernelEnd);
      PageMapped(mem, tableEnd, KernelCode(), ImageSize(), tree, p4, p3, p2, p1, n, addr, j, k);
      if !Before(addr, Paddr(Align(kernelStart))) && Before(addr, Paddr(Align(kernelData))) {
        mem := SetWord(mem, Frame(p1), P1Slot(addr), CodeEntry(addr));
      } else {
        mem := SetWord(mem, Frame(p1), P1Slot(addr), DataEntry(addr));
      }
      mem := SetWord(mem, Frame(p2), P2Slot(addr), IncEntryCount(Word(mem, Frame(p2), P2Slot(addr))));
      tree' := tree[PageNode(j, k) := Frame(addr)];
    }

    /** The body of the construction loop: map page n of the image, in a new P1 table if need be. */
    method MapImagePage(addr: bv64, p4: bv64, p3: bv64, p2: bv64, p1: bv64, ghost tree: Tree, ghost n: nat)
      returns (p1': bv64, ghost tree': Tree)
      requires Bootable() && Building(tree, p4, p3, p2, p1, n) && n < ImageSize() && Good(addr) && PageNumber(addr) == n
      modifies `mem, `tableEnd
      ensures Bootable() && Building(tree', p4, p3, p2, p1', n + 1)
      ensures RamKept(old(mem), mem) && LowKept(old(mem), mem, ImageSize())
    {
      hide Covers, RamKept, LowKept, BuildingAt, Good, PageNumber, Align, Paddr, TablesEnd, KernelWindow, PageOf,
        ImageEnd, EndsLow;
      ghost var j, k, m0 := n / 512, n % 512, mem;
      RoundUp(n);
      p1', tree' := MakeTable(addr, p4, p3, p2, p1, tree, n, j);
      ghost var m1 := mem;
      tree' := MapLeaf(addr, p4, p3, p2, p1', tree', n, j, k);
      RamKeptTwice(m0, m1, mem);
      LowKeptTwice(m0, m1, mem, ImageSize());
    }

    /** The first half of Initialize: the page tables of the kernel image. Outside the recursive window they map
        exactly the pages that begin below its end, in both halves of the address space; and what lies in those
        pages stays. */
    method BuildTables() returns (ghost tree: Tree)
      requires Bootable()
      modifies `mem, `cr3, `tableEnd
      ensures Bootable() && RamKept(old(mem), mem)
      ensures Built(mem, cr3, tree, KernelCode(), ImageSize(), (ImageSize() + 511) / 512, ImageSize(),
                    PageNumber(tableEnd))
      ensures Good(tableEnd) && PageNumber(tableEnd) == TablesEnd(ImageSize())
      ensures forall v :: P4Slot(v) != 510 ==> MapsImage(mem, cr3, KernelCode(), kernelEnd, v)
      ensures ImageKept(old(mem), mem, kernelEnd)
    {
      hide Covers, RamKept, LowKept, Built, Good, PageNumber, Before, NextPage, KernelWindow, Paddr, Align, PageOf,
        P4Slot, MapsImage, ImageEnd, EndsLow, ImageKept;
      EndFacts(kernelEnd);
      var p4, p3, p2, p1, addr: bv64, limit := 0, 0, 0, 0, 0, Paddr(Align(kernelEnd));
      p4, p3, p2, tree := StartTables();
      ZeroPage();
      ghost var n := 0;
      while Before(addr, limit)
        invariant n <= ImageSize() && Bootable() && Building(tree, p4, p3, p2, p1, n) && RamKept(old(mem), mem)
        invariant Good(addr) && PageNumber(addr) == n && LowKept(old(mem), mem, ImageSize())
        decreases ImageSize() - n
      {
        LoopGuard(addr, limit);
        ghost var m1 := mem;
        p1, tree := MapImagePage(addr, p4, p3, p2, p1, tree, n);
        RamKeptTwice(old(mem), m1, mem);
        LowKeptTwice(old(mem), m1, mem, ImageSize());
        PageAdvance(addr);
        addr := NextPage(addr);
        n := n + 1;
      }
      LoopGuard(addr, limit);
      cr3 := Frame(p4);
      LowIsImage(old(mem), mem, kernelEnd);
      forall v | P4Slot(v) != 510 ensures MapsImage(mem, cr3, KernelCode(), kernelEnd, v) {
        ImageIsMapped(mem, cr3, tree, KernelCode(), kernelEnd, (n + 511) / 512, n, PageNumber(tableEnd), v);
      }
    }

    /** Called again and again this returns exactly the frames of Remaining, in order, then 0 forever. */
    method PopMemMapFrame() returns (paddr: bv64)
      requires MapOk(memmap, mmapEntry)
      modifies `mmapEntry, `mmapAddr, `mmapSize
      ensures MapOk(memmap, mmapEntry)
      ensures var before := old(Remaining(memmap, mmapEntry, mmapAddr, mmapSize, tableEnd));
        var now := Remaining(memmap, mmapEntry, mmapAddr, mmapSize, tableEnd);
        if before == [] then paddr == 0 && now == [] && mmapEntry.None? else paddr == before[0] && now == before[1..]
    {
      hide Before, NextPage;
      while mmapEntry.Some? && memmap[mmapEntry.value].kind != 0
        invariant MapOk(memmap, mmapEntry)
        invariant Remaining(memmap, mmapEntry, mmapAddr, mmapSize, tableEnd)
                  == old(Remaining(memmap, mmapEntry, mmapAddr, mmapSize, tableEnd))
        decreases if mmapEntry.None? then 0 else |memmap| - mmapEntry.value, mmapSize
      {
        if memmap[mmapEntry.value].kind != MAP_AVAILABLE || mmapSize < 0x1000 {
          mmapEntry := Some(mmapEntry.value + 1);
          mmapSize := memmap[mmapEntry.value].size;
          continue;
        }
        var addr := mmapAddr;
        mmapAddr := NextPage(mmapAddr);
        mmapSize := mmapSize - 0x1000;
        if Before(addr, tableEnd) {
          continue;
        }
        return addr;
      }
      mmapEntry := None;
      return 0;
    }

    method PopStackFrame() returns (paddr: bv64)
      requires Valid()
      modifies `frameStack, `s
      ensures Valid() && s == Take(old(s), FrameStack).1
      ensures paddr == (match Take(old(s), FrameStack).0 case None => 0 case Some(f) => f.paddr)
    {
      hide KernelWindow, WordAligned, WordNumber, Before, SlotPath, Down, Wired, Complete, Distinct, Usable, Remaining,
        Word, SlotsWritable;
      hide Accessible, RightsAt, LoadWord, StoreWord, Supplies;
      ghost var base, n := Base(), |s.stack|;
      if n == 0 {
        PointerInjective(frameStack, Align(kernelEnd));
        NotBeforeItself(frameStack);
      } else {
        PointerOrder(Align(kernelEnd), frameStack);
      }
      if Before(Align(kernelEnd), frameStack) {
        PointerBelow(Align(kernelEnd), frameStack);
        frameStack := Down(frameStack);
        PointerReaches(mem, cr3, s, base, frameStack, n - 1, SlotPath(base, n - 1), (base + n - 1) % 512);
        paddr := LoadWord(mem, cr3, frameStack);
        SoundTake(mem, cr3, s, base, FrameStack);
        s := Take(s, FrameStack).1;
        return;
      }
      return 0;
    }

    /** The frame source that MapPage is given. */
    method Pop(from: Source) returns (paddr: bv64)
      requires Valid()
      modifies `frameStack, `mmapEntry, `mmapAddr, `mmapSize, `s
      ensures Valid() && s == Take(old(s), from).1
      ensures paddr == (match Take(old(s), from).0 case None => 0 case Some(f) => f.paddr)
    {
      hide KernelWindow, WordAligned, WordNumber, Remaining, Sound, Align, MapOk;
      match from
      case FrameStack =>
        paddr := PopStackFrame();
      case MemoryMap =>
        SoundTake(mem, cr3, s, Base(), MemoryMap);
        SuppliedFrames(Remaining(memmap, mmapEntry, mmapAddr, mmapSize, tableEnd));
        paddr := PopMemMapFrame();
        s := Take(s, MemoryMap).1;
    }

    /** One of the four blocks of MapPage: make the entry of a level present. A new table whose entry is read-only
        cannot be cleared. */
    method MapLevel(vaddr: bv64, level: nat, flags: bv64, from: Source) returns (err: Err)
      requires Valid() && UpperHalf(vaddr) && P4Slot(vaddr) != 510 && 1 <= level <= 4
      requires NodeAt(vaddr, level).Sub? && NodeAt(vaddr, level).parent in s.tree
      requires FlagsOk(flags, level) && (Writable(flags) || Client(NodeAt(vaddr, level)))
      modifies this
      ensures cr3 == old(cr3) && tableEnd == old(tableEnd) && setup == old(setup)
      ensures err != Fault ==> Valid()
      ensures LevelDone(old(mem), mem, old(s), s, NodeAt(vaddr, level), level < 4, flags, from, err)
      ensures err != Fault && old(CountsOk()) ==> CountsOk()
    {
      ghost var p, base, m0, s0 := NodeAt(vaddr, level), Base(), mem, s;
      hide PointsAbove, Supplies, Wired, Complete, Distinct, Usable, Stored, SlotsWritable, UpperHalf, P4Slot, NodeAt,
        Window, Index, Client;
      hide FlagsOk, Counted, EntryPointer, Levelled, Accessible, RightsAt, LoadWord, StoreWord, ClearPage, SetEntry,
        EntryOf, Present, Linkable;
      hide NewEntry, IncEntryCount, Made, Writable, RamKept, LevelDone, Take, RightsKept, NewLike, AllPagesKept;
      SameRam(mem);
      EntryThroughWindow(mem, cr3, s.tree, vaddr, level);
      PresentIsMapped(mem, cr3, s.tree, vaddr, level);
      if Present(LoadWord(mem, cr3, EntryPointer(vaddr, level))) {
        LevelSkips(m0, s0, p, level < 4, flags, from);
        return Ok;
      }
      SoundTake(mem, cr3, s, base, from);
      TakeKeepsTree(s, from);
      var paddr := Pop(from);
      if paddr == 0 {
        LevelStarves(m0, s0, s, p, level < 4, flags, from);
        return NoMemory;
      }
      ghost var x, m, tree, e := Frame(paddr), mem, s.tree, NewEntry(paddr, flags);
      if level < 4 && !Writable(flags) {
        ReadOnlyTable(mem, cr3, s, base, vaddr, level, x, flags);
        StoreKeepsRam(m, cr3, vaddr, level, e);
      } else {
        FreshIsLinkable(mem, cr3, s, base, vaddr, level, x, flags);
        LevelThroughWindow(m, cr3, tree, vaddr, level, x, e);
      }
      mem := StoreWord(mem, cr3, EntryPointer(vaddr, level), NewEntry(paddr, flags));
      if level < 4 {
        if !MayWrite(mem, cr3, Window(vaddr, level + 1)) {
          LevelFaults(m0, mem, s0, s, p, flags, from);
          return Fault;
        }
        mem := ClearPage(mem, cr3, Window(vaddr, level + 1));
      }
      if level > 1 {
        mem := StoreWord(mem, cr3, EntryPointer(vaddr, level - 1),
                         IncEntryCount(LoadWord(mem, cr3, EntryPointer(vaddr, level - 1))));
      }
      NewEntryWritable(paddr, flags);
      SoundLevel(m, cr3, s, base, p, x, e);
      MadeEntry(m, cr3, tree, p, x, flags);
      LevelledKeepsRam(m, tree, p, x, e);
      LevelledRights(m, cr3, tree, p, x, e);
      LevelledNew(m, cr3, tree, p, x, flags, level);
      LevelledPagesKept(m, cr3, tree, p, x, e);
      LevelMakes(m0, mem, s0, s, p, x, level < 4, flags, from);
      s := s.(tree := s.tree[p := x]);
      return Ok;
    }

    /** Mapping a page: every missing table on the way, then the page itself. It faults exactly when it has to make
        a table without the write flag and a frame is there for it. */
    method MapPage(vaddr: bv64, flags: bv64, from: Source) returns (err: Err)
      requires Valid() && UpperHalf(vaddr) && P4Slot(vaddr) != 510 && FlagsOk(flags, 4)
      requires Writable(flags) || 256 <= P4Slot(vaddr) <= 509
      modifies this
      ensures cr3 == old(cr3) && tableEnd == old(tableEnd) && setup == old(setup)
      ensures err != Fault ==> Valid()
      ensures PageDone(old(mem), mem, old(s), s, PathOf(vaddr), flags, from, err)
      ensures err != Fault && old(CountsOk()) ==> CountsOk()
    {
      ghost var s0, m0 := s, mem;
      hide Sound, PointsAbove, Supplies, CountsOk, UpperHalf, P4Slot, NodeAt, PathOf, Low9, FlagsOk, LevelFlags;
      hide Writable, SameGrant, Client, LevelDone, PageDone, UpTo, Closed;
      LevelParents(s, vaddr);
      LevelClients(vaddr);
      AllFlags(flags);
      PageFlags(flags);
      NothingUpToTop(mem, cr3, s, Base(), flags, from);
      err := MapLevel(vaddr, 1, LevelFlags(flags, 1), from);
      OneMoreLevel(m0, m0, mem, s0, s0, s, NodeAt(vaddr, 1), flags, LevelFlags(flags, 1), from, err);
      if err != Ok {
        Stopped(m0, mem, s0, s, vaddr, 1, flags, from, err);
        return;
      }
      ghost var s1, m1 := s, mem;
      err := MapLevel(vaddr, 2, LevelFlags(flags, 2), from);
      OneMoreLevel(m0, m1, mem, s0, s1, s, NodeAt(vaddr, 2), flags, LevelFlags(flags, 2), from, err);
      if err != Ok {
        Stopped(m0, mem, s0, s, vaddr, 2, flags, from, err);
        return;
      }
      ghost var s2, m2 := s, mem;
      err := MapLevel(vaddr, 3, LevelFlags(flags, 3), from);
      OneMoreLevel(m0, m2, mem, s0, s2, s, NodeAt(vaddr, 3), flags, LevelFlags(flags, 3), from, err);
      if err != Ok {
        Stopped(m0, mem, s0, s, vaddr, 3, flags, from, err);
        return;
      }
      ghost var s3, m3 := s, mem;
      err := MapLevel(vaddr, 4, LevelFlags(flags, 4), from);
      PageLevel(m0, m3, mem, s0, s3, s, NodeAt(vaddr, 4), flags, from, err);
    }

    /** Give a frame back; it is dropped when its slot cannot be mapped. */
    method PushStackFrame(paddr: bv64)
      requires Valid() && Frame(paddr) !in Held(s) && Good(paddr) && paddr != 0 && Frame(paddr) in mem
      requires Base() + |s.stack| + |s.supply| + 1 < 0x1000_0000
      modifies this
      ensures Valid() && cr3 == old(cr3) && tableEnd == old(tableEnd) && setup == old(setup)
      ensures s == Push(old(s), Base(), Frame(paddr))
      ensures old(CountsOk()) ==> CountsOk()
      ensures SlotPath(Base(), |old(s.stack)|) in old(s.tree) ==>
        mem == Stacked(old(mem), State(old(s.tree), old(s.stack), []), Base(), Frame(paddr))
      ensures RightsKept(old(mem), mem, old(s.tree), s.tree)
      ensures PagesKept(old(mem), mem, old(s.tree), s.tree, Base())
    {
      ghost var base, n, x, s0 := Base(), |s.stack|, Frame(paddr), s;
      hide KernelWindow, WordAligned, WordNumber, SlotPath, UpperHalf, P4Slot, PathOf, Supplies, Up, Low9, Good,
        FlagsOk;
      hide Sound, Counted, Establish, Held, Accessible, RightsAt, StoreWord, Stacked, Writable, RamKept, RightsKept,
        AllPagesKept, PagesKept, NewLike;
      PointerPath(frameStack, base, n);
      PushFlagsOk();
      PushTarget(mem, cr3, s, base);
      ghost var m0 := mem;
      var err := MapPage(frameStack, PAGE_WRITE | PAGE_GLOBAL, MemoryMap);
      AllIsMore(m0, mem, s0.tree, s.tree, base);
      if err != Ok {
        return;
      }
      StillInRam(m0, mem, x);
      PushReaches(mem, cr3, s, base, frameStack, x);
      SoundPush(mem, cr3, s, base, x);
      StackedIgnoresSupply(mem, s, base, x);
      PointerAdvance(frameStack);
      StackedRights(m0, mem, cr3, s0, s, base, x);
      StackedContents(m0, mem, cr3, s0, s, base, x);
      mem := StoreWord(mem, cr3, frameStack, paddr);
      frameStack := Up(frameStack);
      s := s.(stack := s.stack + [x]);
    }

    /** What a running system keeps besides Valid and the counts. */
    ghost predicate Circulates()
      reads this
    {
      && Steady(s, setup) && setup.base == Base() && Base() + |setup.pool| < 0x1000_0000
      && (forall f :: f in setup.pool ==> f.paddr != 0)
    }

    /** What holds from the end of Initialize on, before and after every call. */
    ghost predicate Running()
      reads this
    {
      Valid() && CountsOk() && Circulates()
    }

    /** First half of an UnmapPage block: clear the entry of a level, give back the frame it led to.
        Between the halves the count in the entry above is one too high. */
    method ClearLevel(vaddr: bv64, level: nat)
      requires Running() && UpperHalf(vaddr) && 256 <= P4Slot(vaddr) <= 509 && 1 <= level <= 4
      requires NodeAt(vaddr, level) in s.tree && Children(s.tree, NodeAt(vaddr, level)) == {}
      modifies this
      ensures Valid() && Circulates() && setup == old(setup) && cr3 == old(cr3)
      ensures level == 1 ==> CountsOk()
      ensures EntryCleared(old(mem), mem, old(s), s, Base(), NodeAt(vaddr, level))
    {
      hide PointsAbove, Supplies, SlotPath, UpperHalf, P4Slot, PathOf, Low9, Good;
      hide Sound, Counted, Steady, Held, Accessible, RightsAt, StoreWord, LoadWord, Stacked, NodeAt, Children,
        EntryPointer, Push;
      hide HasEntries, DecEntryCount, Masked, SetEntry, EntryOf, SlotOf;
      UnmapStart(mem, cr3, s, setup, vaddr, level);
      ghost var p := NodeAt(vaddr, level);
      var entry := EntryPointer(vaddr, level);
      var paddr := Masked(LoadWord(mem, cr3, entry));
      mem := StoreWord(mem, cr3, entry, !PAGE_PRESENT);
      s := s.(tree := s.tree - {p});
      PushStackFrame(paddr);
    }

    /** One of the four blocks of UnmapPage: clear the entry of a level, give back the frame it led
        to, and lower the count of the entry above; true when that leaves the table above empty. */
    method UnmapLevel(vaddr: bv64, level: nat) returns (last: bool)
      requires Running() && UpperHalf(vaddr) && 256 <= P4Slot(vaddr) <= 509 && 1 <= level <= 4
      requires NodeAt(vaddr, level) in s.tree && Children(s.tree, NodeAt(vaddr, level)) == {}
      modifies this
      ensures Running() && setup == old(setup) && cr3 == old(cr3)
      ensures LevelUndone(old(s), s, Base(), vaddr, level, last)
      ensures KernelKept(old(mem), mem, old(s).tree, s.tree)
      ensures PagesKept(old(mem), mem, old(s).tree, s.tree, Base()) && (forall q :: q in s.tree ==> q in old(s).tree)
    {
      hide PointsAbove, Supplies, SlotPath, UpperHalf, P4Slot, PathOf, Low9, Good;
      hide Sound, Counted, Steady, Held, Accessible, RightsAt, StoreWord, LoadWord, Stacked, NodeAt, Children,
        EntryPointer, Push;
      hide HasEntries, DecEntryCount, Masked, SetEntry, EntryOf, SlotOf, KernelKept, PagesKept, Client, Wired,
        Complete;
      ghost var m0, s0, x := mem, s, s.tree[NodeAt(vaddr, level)];
      UnmapReady(mem, cr3, s, setup, vaddr, level);
      ClearedKernel(mem, cr3, s, Base(), NodeAt(vaddr, level), x);
      ClearedPages(mem, cr3, s, Base(), NodeAt(vaddr, level), x);
      ClearLevel(vaddr, level);
      ghost var m1 := mem;
      if level == 1 {
        last := false;
        return;
      }
      LowerThroughWindow(m0, mem, cr3, s0, Base(), vaddr, level, x);
      var above := EntryPointer(vaddr, level - 1);
      mem := StoreWord(mem, cr3, above, DecEntryCount(LoadWord(mem, cr3, above)));
      KernelKeptTwice(m0, m1, mem, s0.tree, s.tree, s.tree);
      PagesKeptTwice(m0, m1, mem, s0.tree, s.tree, s.tree, Base());
      last := !HasEntries(LoadWord(mem, cr3, above));
    }

    /** Unmapping a page: the page, then every table it leaves empty. Without a P1 table the first read faults. */
    method UnmapPage(vaddr: bv64) returns (err: Err)
      requires Running() && UpperHalf(vaddr) && 256 <= P4Slot(vaddr) <= 509
      modifies this
      ensures Running() && setup == old(setup) && cr3 == old(cr3) && PathOf(vaddr).Sub?
      ensures err == if PathOf(vaddr).parent in old(s).tree then Ok else Fault
      ensures err == Ok ==> s == Unmap(old(s), Base(), PathOf(vaddr))
      ensures err == Fault ==> s == old(s) && mem == old(mem)
      ensures PathOf(vaddr) !in old(s).tree ==> s == old(s) && mem == old(mem)
      ensures KernelKept(old(mem), mem, old(s).tree, s.tree)
      ensures PagesKept(old(mem), mem, old(s).tree, s.tree, Base())
    {
      hide Sound, CountsOk, Steady, PointsAbove, Supplies, UpperHalf, P4Slot, NodeAt, PathOf, Push, Children, Wired,
        Complete, KernelKept, PagesKept, AllPagesKept;
      ghost var m0, t0 := mem, s.tree;
      KernelUnchanged(mem, s.tree);
      NoPageChanged(mem, s.tree);
      AllIsMore(mem, mem, s.tree, s.tree, Base());
      hide EntryPointer, LoadWord, Accessible, RightsAt, Present, EntryOf, Depth, Node, TopSlot;
      P1Needed(mem, cr3, s, Base(), vaddr);
      if !Accessible(mem, cr3, EntryPointer(vaddr, 4)) {
        return Fault;
      }
      PageEntry(mem, cr3, s, setup, vaddr);
      if !Present(LoadWord(mem, cr3, EntryPointer(vaddr, 4))) {
        return Ok;
      }
      ReleaseLevels(s, setup, vaddr, 4);
      err := Ok;
      var last := UnmapLevel(vaddr, 4);
      if !last { return; }
      ghost var m1, t1 := mem, s.tree;
      ReleaseLevels(s, setup, vaddr, 3);
      last := UnmapLevel(vaddr, 3);
      KernelKeptTwice(m0, m1, mem, t0, t1, s.tree);
      PagesKeptTwice(m0, m1, mem, t0, t1, s.tree, Base());
      if !last { return; }
      m1, t1 := mem, s.tree;
      ReleaseLevels(s, setup, vaddr, 2);
      last := UnmapLevel(vaddr, 2);
      KernelKeptTwice(m0, m1, mem, t0, t1, s.tree);
      PagesKeptTwice(m0, m1, mem, t0, t1, s.tree, Base());
      if !last { return; }
      m1, t1 := mem, s.tree;
      ReleaseLevels(s, setup, vaddr, 1);
      last := UnmapLevel(vaddr, 1);
      KernelKeptTwice(m0, m1, mem, t0, t1, s.tree);
      PagesKeptTwice(m0, m1, mem, t0, t1, s.tree, Base());
    }

    /** The last loop of Initialize: every frame of the memory map onto the stack. */
    method FillStack(ghost boot: State) returns (ghost lost: set<Frame>)
      requires Valid() && CountsOk() && s == boot && Booting(s, Base())
      modifies this
      ensures Running() && cr3 == old(cr3) && tableEnd == old(tableEnd)
      ensures s == Fill(boot, Base())
      ensures Held(boot) == Held(s) + lost && Held(s) !! lost && |lost| <= 1
      ensures RightsKept(old(mem), mem, boot.tree, s.tree) && PagesKept(old(mem), mem, boot.tree, s.tree, Base())
    {
      hide Sound, Counted, Booting, Fill, Push, Supplies, PointsAbove, Take, Held, Steady, Good, RightsKept,
        PagesKept, AllPagesKept;
      RightsUnchanged(mem, s.tree);
      NoPageChanged(mem, s.tree);
      AllIsMore(mem, mem, s.tree, s.tree, Base());
      while mmapEntry.Some?
        invariant Valid() && CountsOk() && Booting(s, Base()) && Fill(s, Base()) == Fill(boot, Base())
        invariant RightsKept(old(mem), mem, boot.tree, s.tree) && PagesKept(old(mem), mem, boot.tree, s.tree, Base())
        invariant cr3 == old(cr3) && tableEnd == old(tableEnd)
        decreases |s.supply|, mmapEntry.Some?
      {
        FillStep(mem, cr3, s, Base());
        var addr := Pop(MemoryMap);
        if addr == 0 {
          break;
        }
        ghost var m0, t0 := mem, s.tree;
        PushStackFrame(addr);
        RightsGrow(old(mem), m0, boot.tree, t0);
        RightsKeptTwice(old(mem), m0, mem, boot.tree, t0, s.tree);
        PagesKeptTwice(old(mem), m0, mem, boot.tree, t0, s.tree, Base());
      }
      FillStep(mem, cr3, s, Base());
      if mmapEntry.None? {
        NoEntryNoSupply(memmap, mmapEntry, mmapAddr, mmapSize, tableEnd, s.supply);
      }
      lost := FillMeaning(boot, Base());
      setup := Setup(Base(), s.tree, Elements(s.stack));
      FilledPool(mem, cr3, s, Base());
    }

    /** Boot: the page tables of the image, then every frame of the memory map onto the stack.
        At most one frame finds no place, when the memory map cannot feed the last push. */
    method Initialize() returns (ghost boot: State, ghost lost: set<Frame>)
      requires Bootable() && MapOk(memmap, Some(0))
      requires Fits(Align(memmap[0].base), PagesLeft(memmap, 0, memmap[0].size))
      requires Backed(mem, Consecutive(Align(memmap[0].base), PagesLeft(memmap, 0, memmap[0].size)),
                      TablesEnd(ImageSize()))
      modifies this
      ensures Running()
      ensures Image(boot.tree, ImageSize(), (ImageSize() + 511) / 512, ImageSize(), PageNumber(tableEnd))
      ensures boot.stack == []
      ensures boot.supply ==
              FramesOf(NotBefore(Consecutive(Align(memmap[0].base), PagesLeft(memmap, 0, memmap[0].size)), tableEnd))
      ensures s == Fill(boot, Base())
      ensures Held(boot) == Held(s) + lost && Held(s) !! lost && |lost| <= 1
      ensures memmap[0].base <= 0xFFFFFFFFFFFFF000 ==> forall f :: f in boot.supply ==> !Before(f.paddr, memmap[0].base)
      ensures forall v :: KernelWindow(v) && Before(ImagePage(v), Paddr(kernelEnd)) ==>
        MapsImage(mem, cr3, KernelCode(), kernelEnd, v)
      ensures ImageKept(old(mem), mem, kernelEnd)
    {
      hide Built, Image, Good, PageNumber, KernelWindow, PageOf, UpperHalf, P4Slot, Translate, RightsAt, ImagePage,
        IsCode, PathOf, Held, Steady;
      hide Sound, Counted, Booting, Fill, Supplies, PointsAbove, Fits, PagesLeft, Consecutive, NotBefore, WordNumber,
        Paddr, Align;
      hide Covers, RamKept, LowKept, Backed, MapsImage, RightsKept, PagesKept, Wired, ImageEnd, EndsLow, ImageKept,
        Before;
      EndFacts(kernelEnd);
      ghost var tree := BuildTables();
      SupplyBacked(old(mem), mem, Align(memmap[0].base), PagesLeft(memmap, 0, memmap[0].size), TablesEnd(ImageSize()),
                   tableEnd);
      frameStack := Align(kernelEnd);
      mmapEntry := Some(0);
      mmapAddr := Align(memmap[0].base);
      mmapSize := memmap[0].size;
      boot := State(tree, [], FramesOf(NotBefore(Consecutive(mmapAddr, PagesLeft(memmap, 0, mmapSize)), tableEnd)));
      s := boot;
      BuiltImage(mem, cr3, tree, KernelCode(), ImageSize(), (ImageSize() + 511) / 512, PageNumber(tableEnd));
      FirstWord(Align(kernelEnd));
      BootState(mem, cr3, tree, KernelCode(), ImageSize(), (ImageSize() + 511) / 512, PageNumber(tableEnd), tableEnd,
                mmapAddr, PagesLeft(memmap, 0, mmapSize), Base());
      BootPointers(memmap, mmapAddr, mmapSize, tableEnd, Align(kernelEnd));
      ghost var m0 := mem;
      BuiltIsWired(m0, cr3, tree, KernelCode(), ImageSize(), (ImageSize() + 511) / 512, ImageSize(),
                   PageNumber(tableEnd));
      lost := FillStack(boot);
      ImageStays(m0, mem, cr3, s, Base(), tree, KernelCode(), kernelEnd, (ImageSize() + 511) / 512,
                 PageNumber(tableEnd));
      ImageContents(m0, mem, cr3, s, Base(), tree, ImageSize(), (ImageSize() + 511) / 512, PageNumber(tableEnd));
      LowIsImage(old(mem), m0, kernelEnd);
      LowKeptTwice(old(mem), m0, mem, ImageSize());
      LowIsImage(old(mem), mem, kernelEnd);
      if memmap[0].base <= 0xFFFFFFFFFFFFF000 {
        NoFrameBelow(memmap[0].base, PagesLeft(memmap, 0, memmap[0].size), tableEnd);
      }
    }

    /** Map a page for a caller. It faults exactly when the write request is missing and a table has to be made
        for which a frame is there; otherwise it succeeds or the stack is empty. */
    method Allocate(addr: bv64, exec: bool, write: bool, user: bool) returns (err: Err)
      requires Running() && UpperHalf(addr) && 256 <= P4Slot(addr) <= 509
      modifies this
      ensures setup == old(setup) && cr3 == old(cr3) && PathOf(addr).Sub?
      ensures err == Fault <==> !Completes(old(s), PathOf(addr), write)
      ensures err != Fault ==> Running() && s == Step(old(s), Base(), Op.Allocate(PathOf(addr), write))
      ensures err != Fault ==> (err == Ok <==> Translate(mem, cr3, addr).Some?)
      ensures old(Translate(mem, cr3, addr)).Some? ==>
        err == Ok && Translate(mem, cr3, addr) == old(Translate(mem, cr3, addr)) && s == old(s)
      ensures old(Translate(mem, cr3, addr)).None? && err == Ok ==>
        |s.stack| < |old(s.stack)| && Translate(mem, cr3, addr) == Some(old(s.stack)[|s.stack|])
      ensures old(Translate(mem, cr3, addr)).None? && err == Ok ==> Granted(mem, cr3, PathOf(addr), write, user)
      ensures err == NoMemory ==> s.stack == []
      ensures old(Translate(mem, cr3, addr)).None? && err == Ok ==>
        Reached(old(mem), mem, cr3, old(s).tree, PathOf(addr), write, user)
      ensures err != Fault ==> SameButPage(old(mem), mem, cr3, addr) && RightsStay(old(mem), mem, cr3)
      ensures err != Fault ==> AllPagesKept(old(mem), mem, old(s).tree, s.tree)
    {
      ghost var p, m0, s0 := PathOf(addr), mem, s;
      hide Sound, PointsAbove, Supplies, UpperHalf, P4Slot, PathOf, FlagsOk, AllocateFlags, Steady, Wired, Complete,
        Counted, Establish;
      hide ClientPage, Translate, PageOf, Granted, Made, SameButPage, Writable, RamKept, RightsKept, RightsStay,
        NewLike, AllPagesKept, Reached, Depth, UserMode;
      AllocateFlagsOk(exec, write, user);
      ClientPageOf(addr);
      AllocateMeaning(s, setup, p);
      TranslatesNow(m0, cr3, s0, Base(), addr);
      NotBlocked(s, setup, p, AllocateFlags(exec, write, user), write);
      err := MapPage(addr, AllocateFlags(exec, write, user), FrameStack);
      if err == Fault { return; }
      AllRights(m0, mem, cr3, s0, s, Base());
      AllocateTranslates(m0, mem, cr3, s0, setup, addr, write);
      if p !in s0.tree && err == Ok {
        MadeIsGranted(mem, cr3, s, Base(), p, exec, write, user);
        PageDepth(addr);
        IsReached(m0, mem, cr3, s0, s, Base(), p, exec, write, user);
      }
    }

    /** Unmap a page for a caller. It faults exactly when the page has no P1 table. */
    method Free(addr: bv64) returns (err: Err)
      requires Running() && UpperHalf(addr) && 256 <= P4Slot(addr) <= 509
      modifies this
      ensures Running() && setup == old(setup) && cr3 == old(cr3) && PathOf(addr).Sub?
      ensures err == if PathOf(addr).parent in old(s).tree then Ok else Fault
      ensures err == Ok ==> FreeDone(old(mem), mem, cr3, old(s), s, Base(), addr)
      ensures old(Translate(mem, cr3, addr)).None? ==> s == old(s) && mem == old(mem)
      ensures KernelRightsStay(old(mem), mem, cr3) && PagesKept(old(mem), mem, old(s).tree, s.tree, Base())
      ensures err == Fault ==> s == old(s) && mem == old(mem)
    {
      ghost var p, base, m0, s0 := PathOf(addr), Base(), mem, s;
      ClientPageOf(addr);
      if PathOf(addr).parent in s.tree { FreeIsEnabled(s, addr); }
      hide Sound, PointsAbove, Supplies, UpperHalf, P4Slot, PathOf, Steady, Wired, Complete, Counted, Unmap, Node,
        Depth, TopSlot;
      hide Translate, Enabled, PageOf, SameButPage, FreeDone, KernelKept, KernelRightsStay, PagesKept;
      TranslatesNow(mem, cr3, s, base, addr);
      FreeMeaning(s, setup, p);
      err := UnmapPage(addr);
      KernelRights(m0, mem, cr3, s0, s, base);
      if err == Fault { return; }
      FreeTranslates(m0, mem, cr3, s0, s, setup, addr);
    }
  }

  /** What Free leaves: the page is unmapped and no other translation has changed. */
  ghost predicate FreeDone(m: Memory, m': Memory, cr3: Frame, s: State, t: State, base: nat, v: bv64) {
    && PathOf(v).Sub? && t == Step(s, base, Op.Free(PathOf(v)))
    && Translate(m', cr3, v).None? && SameButPage(m, m', cr3, v)
  }

  /** Every page that was mapped outside the window has the rights that it had. */
  ghost predicate RightsStay(m: Memory, m': Memory, cr3: Frame) {
    forall v :: Canonical(v) && P4Slot(v) != 510 && Translate(m, cr3, v).Some? ==>
      RightsAt(m', cr3, PathOf(v)) == RightsAt(m, cr3, PathOf(v))
  }

  /** So has every page of the kernel's own: its image and the frame stack. */
  ghost predicate KernelRightsStay(m: Memory, m': Memory, cr3: Frame) {
    forall v :: Canonical(v) && P4Slot(v) == 511 && Translate(m, cr3, v).Some? ==>
      RightsAt(m', cr3, PathOf(v)) == RightsAt(m, cr3, PathOf(v))
  }

  lemma AllRights(m: Memory, m': Memory, cr3: Frame, s: State, t: State, base: nat)
    requires Sound(m, cr3, s, base) && Sound(m', cr3, t, base) && RightsKept(m, m', s.tree, t.tree)
    ensures RightsStay(m, m', cr3)
  {
    SoundIsWired(m, cr3, s, base);
    SoundIsWired(m', cr3, t, base);
    hide Sound, Wired, Complete, Canonical, P4Slot, PathOf, Translate, RightsAt, RightsKept;
    forall v | Canonical(v) && P4Slot(v) != 510 && Translate(m, cr3, v).Some?
      ensures RightsAt(m', cr3, PathOf(v)) == RightsAt(m, cr3, PathOf(v))
    {
      TranslateIsTree(m, cr3, s.tree, v);
      RightsFollow(m, m', cr3, s.tree, t.tree, PathOf(v));
    }
  }

  lemma KernelRights(m: Memory, m': Memory, cr3: Frame, s: State, t: State, base: nat)
    requires Sound(m, cr3, s, base) && Sound(m', cr3, t, base) && KernelKept(m, m', s.tree, t.tree)
    ensures KernelRightsStay(m, m', cr3)
  {
    SoundIsWired(m, cr3, s, base);
    SoundIsWired(m', cr3, t, base);
    hide Sound, Wired, Complete, Canonical, P4Slot, PathOf, Translate, RightsAt, KernelKept, TopSlot, Node, Depth;
    forall v | Canonical(v) && P4Slot(v) == 511 && Translate(m, cr3, v).Some?
      ensures RightsAt(m', cr3, PathOf(v)) == RightsAt(m, cr3, PathOf(v))
    {
      TranslateIsTree(m, cr3, s.tree, v);
      PathIsNode(v);
      KernelRightsFollow(m, m', cr3, s.tree, t.tree, PathOf(v));
    }
  }

  /** A store of a caller's in a page that Allocate gave it keeps the system running, and every other page as it
  was. */
  lemma CallerStore(m: Memory, cr3: Frame, s: State, base: nat, v: bv64, w: bv64)
    requires Sound(m, cr3, s, base) && UpperHalf(v) && 256 <= P4Slot(v) <= 509 && MayWrite(m, cr3, v)
    ensures var m' := StoreWord(m, cr3, v, w);
      && Sound(m', cr3, s, base)
      && (Counted(m, s.tree) ==> Counted(m', s.tree))
      && (forall q, j: nat :: q in s.tree && q != PathOf(v) ==> Word(m', s.tree[q], j) == Word(m, s.tree[q], j))
  {
    PathIsNode(v);
    hide Sound, UpperHalf, P4Slot, PathOf, Wired, Complete, Counted, Translate, RightsAt, Word, SetWord, Depth, TopSlot,
      Node, WordOf;
    SoundIsWired(m, cr3, s, base);
    TranslateIsTree(m, cr3, s.tree, v);
    ClientWrite(m, cr3, s, base, PathOf(v), WordOf(v), w);
  }

  lemma FreeIsEnabled(s: State, v: bv64)
    requires 256 <= P4Slot(v) <= 509 && PathOf(v).parent in s.tree
    ensures Enabled(s, Op.Free(PathOf(v))) && ClientPage(PathOf(v)) && PathOf(v).Sub?
  {
    PathIsNode(v);
  }

  lemma FreeTranslates(m: Memory, m': Memory, cr3: Frame, s: State, t: State, u: Setup, v: bv64)
    requires Sound(m, cr3, s, u.base) && Sound(m', cr3, t, u.base) && Steady(s, u)
    requires UpperHalf(v) && P4Slot(v) != 510 && PathOf(v).Sub? && Enabled(s, Op.Free(PathOf(v)))
    requires t == Unmap(s, u.base, PathOf(v)) && PathOf(v) !in t.tree
    ensures FreeDone(m, m', cr3, s, t, u.base, v)
  {
    hide Sound, UpperHalf, P4Slot, PathOf, Steady, Wired, Complete, Unmap, Enabled, Translate, SameButPage;
    SoundIsWired(m', cr3, t, u.base);
    TranslateIsTree(m', cr3, t.tree, v);
    OthersKept(m, m', cr3, s, t, u, Op.Free(PathOf(v)), v);
  }

  lemma TranslatesNow(m: Memory, cr3: Frame, s: State, base: nat, v: bv64)
    requires Sound(m, cr3, s, base) && UpperHalf(v) && P4Slot(v) != 510
    ensures Translate(m, cr3, v).Some? <==> PathOf(v) in s.tree
  {
    hide Wired, Complete, UpperHalf, P4Slot, PathOf, Translate;
    TranslateIsTree(m, cr3, s.tree, v);
  }

  /** A page that is there has its tables. */
  lemma NotBlocked(s: State, u: Setup, p: Path, flags: bv64, write: bool)
    requires Steady(s, u) && p.Sub? && Writable(flags) == write
    ensures Blocked(s, p.parent, flags, FrameStack) <==> !Completes(s, p, write)
    ensures p in s.tree ==> Completes(s, p, write)
  {
    hide Writable, Held, SlotPath, Client;
  }

  /** What Allocate does to translations. */
  lemma AllocateTranslates(m: Memory, m': Memory, cr3: Frame, s: State, u: Setup, v: bv64, write: bool)
    requires UpperHalf(v) && 256 <= P4Slot(v) <= 509 && Steady(s, u) && PathOf(v).Sub? && Completes(s, PathOf(v), write)
    requires Sound(m, cr3, s, u.base) && Sound(m', cr3, Establish(s, PathOf(v), FrameStack).1, u.base)
    ensures var (ok, t) := Establish(s, PathOf(v), FrameStack);
      && (ok <==> Translate(m', cr3, v).Some?)
      && (Translate(m, cr3, v).Some? ==> t == s && Translate(m', cr3, v) == Translate(m, cr3, v))
      && (Translate(m, cr3, v).None? && ok ==>
          |t.stack| < |s.stack| && Translate(m', cr3, v) == Some(s.stack[|t.stack|]))
      && SameButPage(m, m', cr3, v)
  {
    hide Sound, UpperHalf, P4Slot, PathOf, Steady, Wired, Complete, Establish, ClientPage, Translate, PageOf;
    var t := Establish(s, PathOf(v), FrameStack).1;
    ClientPageOf(v);
    AllocateMeaning(s, u, PathOf(v));
    SoundIsWired(m, cr3, s, u.base);
    SoundIsWired(m', cr3, t, u.base);
    TranslateIsTree(m, cr3, s.tree, v);
    TranslateIsTree(m', cr3, t.tree, v);
    OthersKept(m, m', cr3, s, t, u, Op.Allocate(PathOf(v), write), v);
  }

  lemma AllocateMeaning(s: State, u: Setup, p: Path)
    requires Steady(s, u) && ClientPage(p)
    ensures var (ok, t) := Establish(s, p, FrameStack);
      && Steady(t, u)
      && (ok <==> p in t.tree)
      && (p in s.tree ==> t == s)
      && (p !in s.tree && ok ==> |t.stack| < |s.stack| && t.tree[p] == s.stack[|t.stack|])
      && (!ok ==> t.stack == [])
  {
    EstablishSteady(s, u, p);
    EstablishMeaning(s, p, FrameStack);
    if p in s.tree {
      EstablishPresent(s, p, FrameStack);
    } else if Establish(s, p, FrameStack).0 {
      EstablishGivesLastPopped(s, u, p);
    }
    hide Steady, Establish, Held, Client, Node;
  }

  lemma FreeMeaning(s: State, u: Setup, p: Path)
    requires Steady(s, u) && ClientPage(p)
    ensures p !in Unmap(s, u.base, p).tree
  {
    if p in s.tree {
      PagesHaveNoChildren(s, u, p);
      ReleaseMeaning(s, u, p);
    }
  }

  /** Lowering the count above, through the window. */
  lemma LowerThroughWindow(m: Memory, m2: Memory, cr3: Frame, s: State, base: nat, v: bv64, level: nat, x: Frame)
    requires UpperHalf(v) && P4Slot(v) != 510 && 1 < level <= 4 && Client(NodeAt(v, level - 1))
    requires Represents(m, cr3, s.tree) && NodeAt(v, level) in s.tree && SlotOf(s.tree, NodeAt(v, level))
    requires Children(s.tree, NodeAt(v, level)) == {}
    requires base + |s.stack| < 0x1000_0000 && SlotPath(base, |s.stack|) in s.tree - {NodeAt(v, level)}
    requires m2 == Stacked(SetEntry(m, s.tree, NodeAt(v, level), !PAGE_PRESENT),
                           State(s.tree - {NodeAt(v, level)}, s.stack, []), base, x)
    requires Sound(m2, cr3, State(s.tree - {NodeAt(v, level)}, s.stack + [x], []), base)
    ensures var above, t := EntryPointer(v, level - 1), State(s.tree - {NodeAt(v, level)}, s.stack + [x], []);
      && MayWrite(m2, cr3, above)
      && var m3 := StoreWord(m2, cr3, above, DecEntryCount(LoadWord(m2, cr3, above)));
      && Sound(m3, cr3, t, base) && Counted(m3, t.tree)
      && MayWrite(m3, cr3, above) && KernelKept(m2, m3, t.tree, t.tree)
      && PagesKept(m2, m3, t.tree, t.tree, base)
      && (HasEntries(LoadWord(m3, cr3, above)) <==> Children(t.tree, NodeAt(v, level - 1)) != {})
  {
    var p, t := NodeAt(v, level), State(s.tree - {NodeAt(v, level)}, s.stack + [x], []);
    NodeAtMeaning(v, level);
    NodeAtMeaning(v, level - 1);
    ParentSlot(m, cr3, s.tree, p);
    hide Sound, Counted, Wired, Complete, Accessible, RightsAt, StoreWord, LoadWord, Stacked, NodeAt, Children,
      EntryPointer, SlotPath, Node, TopSlot, Depth;
    hide HasEntries, DecEntryCount, SetEntry, EntryOf, SlotOf, UpperHalf, P4Slot, Client, KernelKept, PagesKept,
      AllPagesKept;
    SoundIsWired(m2, cr3, t, base);
    EntryThroughWindow(m2, cr3, t.tree, v, level - 1);
    UnmapCounts(m, cr3, s, base, p, x);
    SoundRecount(m2, cr3, t, base, NodeAt(v, level - 1));
    var m3 := SetEntry(m2, t.tree, NodeAt(v, level - 1), DecEntryCount(EntryOf(m2, t.tree, NodeAt(v, level - 1))));
    SoundIsWired(m3, cr3, t, base);
    EntryThroughWindow(m3, cr3, t.tree, v, level - 1);
    ClientEntryKeeps(m2, cr3, t.tree, NodeAt(v, level - 1), DecEntryCount(EntryOf(m2, t.tree, NodeAt(v, level - 1))));
    EntryPagesKept(m2, cr3, t.tree, NodeAt(v, level - 1), DecEntryCount(EntryOf(m2, t.tree, NodeAt(v, level - 1))),
                   t.tree);
    AllIsMore(m2, m3, t.tree, t.tree, base);
  }

  lemma SoundIsWired(m: Memory, cr3: Frame, s: State, base: nat)
    requires Sound(m, cr3, s, base)
    ensures Wired(m, cr3, s.tree) && Complete(m, s.tree)
  {}

  /** What MapPage does for the next slot of the stack. */
  lemma PushTarget(m: Memory, cr3: Frame, s: State, base: nat)
    requires Sound(m, cr3, s, base)
    ensures var p := SlotPath(base, |s.stack|); var (ok, t) := Establish(s, p, MemoryMap);
      && t.stack == s.stack && |t.supply| <= |s.supply| && Held(t) == Held(s)
      && (ok <==> p in t.tree) && (p in s.tree ==> ok && t == s)
  {
    SlotPathIsKernel(base, |s.stack|);
    EstablishMeaning(s, SlotPath(base, |s.stack|), MemoryMap);
    if SlotPath(base, |s.stack|) in s.tree { EstablishPresent(s, SlotPath(base, |s.stack|), MemoryMap); }
    hide *;
  }

  /** What `*frame_stack = paddr` does. */
  lemma PushReaches(m: Memory, cr3: Frame, s: State, base: nat, v: bv64, x: Frame)
    requires Sound(m, cr3, s, base) && SlotPath(base, |s.stack|) in s.tree
    requires KernelWindow(v) && WordNumber(v) == base + |s.stack|
    ensures MayWrite(m, cr3, v) && StoreWord(m, cr3, v, x.paddr) == Stacked(m, s, base, x)
  {
    hide Sound, Wired, Complete, SlotPath, KernelWindow, WordNumber, MayWrite, StoreWord, SetWord, LoadWord, Word,
      SlotsWritable;
    assert SlotsWritable(m, s.tree, base) by { SoundSlots(m, cr3, s, base); }
    SoundIsWired(m, cr3, s, base);
    PointerReaches(m, cr3, s, base, v, |s.stack|, SlotPath(base, |s.stack|), (base + |s.stack|) % 512);
  }

  lemma SoundSlots(m: Memory, cr3: Frame, s: State, base: nat)
    requires Sound(m, cr3, s, base)
    ensures SlotsWritable(m, s.tree, base)
  {}

  lemma StackedIgnoresSupply(m: Memory, s: State, base: nat, x: Frame)
    ensures Stacked(m, s, base, x) == Stacked(m, State(s.tree, s.stack, []), base, x)
  {}

  lemma PushFlagsOk()
    ensures FlagsOk(PAGE_WRITE | PAGE_GLOBAL, 4) && Writable(PAGE_WRITE | PAGE_GLOBAL)
  {}

  /** MapPage is about to make a table that it may not clear. */
  ghost predicate Blocked(s: State, p: Path, flags: bv64, from: Source) {
    p !in s.tree && !Writable(flags) && Take(s, from).0.Some?
  }

  /** What one block of MapPage does to the node p; only a block that makes a table can fault. */
  ghost predicate LevelDone(m: Memory, m': Memory, s: State, t: State, p: Path, table: bool, flags: bv64, from: Source,
                            err: Err) {
    && (err == Fault <==> table && Blocked(s, p, flags, from))
    && (err != Fault ==> (err == Ok, t) == Level(s, p, from))
    && (err == Ok && p !in s.tree ==> Made(m', t.tree, p, flags))
    && (p in s.tree ==> m' == m)
    && (err != Fault ==> RightsKept(m, m', s.tree, t.tree) && AllPagesKept(m, m', s.tree, t.tree))
    && (err != Fault ==> NewLike(m', s.tree, t.tree, flags))
    && RamKept(m, m')
  }

  lemma LevelSkips(m: Memory, s: State, p: Path, table: bool, flags: bv64, from: Source)
    requires p in s.tree
    ensures LevelDone(m, m, s, s, p, table, flags, from, Ok)
  {
    RightsUnchanged(m, s.tree);
    NothingNew(m, s.tree, flags);
    NoPageChanged(m, s.tree);
    hide RightsKept, NewLike, AllPagesKept;
  }

  lemma LevelStarves(m: Memory, s: State, t: State, p: Path, table: bool, flags: bv64, from: Source)
    requires p !in s.tree && Take(s, from) == (None, t)
    ensures LevelDone(m, m, s, t, p, table, flags, from, NoMemory)
  {
    TakeKeepsTree(s, from);
    RightsUnchanged(m, s.tree);
    NothingNew(m, s.tree, flags);
    NoPageChanged(m, s.tree);
    hide Take, Writable, RightsKept, NewLike, AllPagesKept;
  }

  lemma LevelFaults(m: Memory, m': Memory, s: State, t: State, p: Path, flags: bv64, from: Source)
    requires p !in s.tree && Take(s, from).0.Some? && !Writable(flags) && RamKept(m, m')
    ensures LevelDone(m, m', s, t, p, true, flags, from, Fault)
  {
    hide Take, Writable, RamKept, RightsKept, NewLike, AllPagesKept;
  }

  lemma LevelMakes(m: Memory, m': Memory, s: State, u: State, p: Path, x: Frame, table: bool, flags: bv64, from: Source)
    requires p !in s.tree && Take(s, from) == (Some(x), u) && (table ==> Writable(flags))
    requires Made(m', u.tree[p := x], p, flags) && RamKept(m, m') && RightsKept(m, m', s.tree, u.tree[p := x])
    requires NewLike(m', s.tree, u.tree[p := x], flags) && AllPagesKept(m, m', s.tree, u.tree[p := x])
    ensures LevelDone(m, m', s, u.(tree := u.tree[p := x]), p, table, flags, from, Ok)
  {
    hide Take, Writable, RamKept, Made, RightsKept, NewLike, AllPagesKept;
  }

  lemma TakeKeepsTree(s: State, from: Source)
    ensures Take(s, from).1.tree == s.tree
  {}

  /** What MapPage has done when it has dealt with the tables down to the node q. Without the write flag it has
      made none. */
  ghost predicate UpTo(m: Memory, m': Memory, s: State, t: State, q: Path, flags: bv64, from: Source, err: Err) {
    && (err == Fault <==> Blocked(s, q, flags, from))
    && (err != Fault ==> (err == Ok, t) == Establish(s, q, from))
    && (q in s.tree ==> m' == m && t == s && err == Ok)
    && (err == Ok ==> q in t.tree && forall x :: x in t.tree && Depth(x) > Depth(q) ==> x in s.tree)
    && (!Writable(flags) && err == Ok ==> t == s)
    && (!Writable(flags) && err == NoMemory ==> Take(s, from).0.None?)
    && (err != Fault ==> RightsKept(m, m', s.tree, t.tree) && AllPagesKept(m, m', s.tree, t.tree))
    && (err != Fault ==> NewLike(m', s.tree, t.tree, flags))
    && RamKept(m, m')
  }

  /** What MapPage has done when it comes to its end with the page p. */
  ghost predicate PageDone(m: Memory, m': Memory, s: State, t: State, p: Path, flags: bv64, from: Source, err: Err) {
    && p.Sub?
    && (err == Fault <==> Blocked(s, p.parent, flags, from))
    && (err != Fault ==> (err == Ok, t) == Establish(s, p, from))
    && (err == Ok && p !in s.tree ==> Made(m', t.tree, p, flags))
    && (p in s.tree ==> m' == m && t == s && err == Ok)
    && (err != Fault ==> RightsKept(m, m', s.tree, t.tree) && AllPagesKept(m, m', s.tree, t.tree))
    && (err != Fault ==> NewLike(m', s.tree, t.tree, flags))
    && RamKept(m, m')
  }

  lemma NothingUpToTop(m: Memory, cr3: Frame, s: State, base: nat, flags: bv64, from: Source)
    requires Sound(m, cr3, s, base)
    ensures Closed(s.tree) && Top in s.tree && UpTo(m, m, s, s, Top, flags, from, Ok)
  {
    RightsUnchanged(m, s.tree);
    NothingNew(m, s.tree, flags);
    NoPageChanged(m, s.tree);
    hide Writable, Complete, Distinct, Usable, Stored, SlotsWritable, RightsKept, NewLike, AllPagesKept;
  }

  lemma SameWritable(own: bv64, flags: bv64)
    requires SameGrant(own, flags)
    ensures Writable(own) == Writable(flags)
  {}

  lemma LikeOwn(m: Memory, tree: Tree, tree': Tree, own: bv64, flags: bv64)
    requires NewLike(m, tree, tree', own) && SameGrant(own, flags)
    ensures NewLike(m, tree, tree', flags)
  {
    hide EntryOf, Writable, NoExecute, UserMode;
  }

  /** Two steps of MapPage, one after the other. */
  lemma TwoSteps(m0: Memory, m: Memory, m': Memory, tree0: Tree, tree: Tree, tree': Tree, flags: bv64)
    requires RightsKept(m0, m, tree0, tree) && RightsKept(m, m', tree, tree')
    requires NewLike(m, tree0, tree, flags) && NewLike(m', tree, tree', flags)
    requires AllPagesKept(m0, m, tree0, tree) && AllPagesKept(m, m', tree, tree')
    ensures RightsKept(m0, m', tree0, tree') && NewLike(m', tree0, tree', flags) && AllPagesKept(m0, m', tree0, tree')
  {
    RightsGrow(m0, m, tree0, tree);
    hide RightsKept, NewLike, AllPagesKept;
    RightsKeptTwice(m0, m, m', tree0, tree, tree');
    NewLikeTwice(m, m', tree0, tree, tree', flags);
    AllPagesKeptTwice(m0, m, m', tree0, tree, tree');
  }

  lemma RightsGrow(m: Memory, m': Memory, tree: Tree, tree': Tree)
    requires RightsKept(m, m', tree, tree')
    ensures forall q :: q in tree ==> q in tree'
  {}

  lemma OneMoreLevel(m0: Memory, m: Memory, m': Memory, s0: State, s: State, t: State, p: Path, flags: bv64, own: bv64,
                     from: Source, err: Err)
    requires Closed(s0.tree) && p.Sub? && UpTo(m0, m, s0, s, p.parent, flags, from, Ok)
    requires LevelDone(m, m', s, t, p, true, own, from, err) && SameGrant(own, flags)
    ensures UpTo(m0, m', s0, t, p, flags, from, err) && (err == Ok ==> p in t.tree)
  {
    SameWritable(own, flags);
    hide Writable, UserMode, SameGrant, Made, RightsKept, NewLike, AllPagesKept;
    if err != Fault {
      LikeOwn(m', s.tree, t.tree, own, flags);
      TwoSteps(m0, m, m', s0.tree, s.tree, t.tree, flags);
    }
    TakeKeepsTree(s, from);
    hide Take;
  }

  lemma PageLevel(m0: Memory, m: Memory, m': Memory, s0: State, s: State, t: State, p: Path, flags: bv64, from: Source,
                  err: Err)
    requires Closed(s0.tree) && p.Sub? && UpTo(m0, m, s0, s, p.parent, flags, from, Ok)
    requires LevelDone(m, m', s, t, p, false, flags, from, err)
    ensures PageDone(m0, m', s0, t, p, flags, from, err)
  {
    hide Writable, Made, RightsKept, NewLike, AllPagesKept;
    if err != Fault { TwoSteps(m0, m, m', s0.tree, s.tree, t.tree, flags); }
    TakeKeepsTree(s, from);
    hide Take;
  }

  /** Once stopped, nothing more happens. */
  lemma StaysStopped(m: Memory, m': Memory, s: State, t: State, p: Path, flags: bv64, from: Source, err: Err)
    requires Closed(s.tree) && p.Sub? && UpTo(m, m', s, t, p.parent, flags, from, err) && err != Ok
    ensures UpTo(m, m', s, t, p, flags, from, err) && PageDone(m, m', s, t, p, flags, from, err)
  {
    hide Writable, Made, Take, RightsKept, NewLike, AllPagesKept;
  }

  lemma Stopped(m: Memory, m': Memory, s: State, t: State, v: bv64, level: nat, flags: bv64, from: Source, err: Err)
    requires Closed(s.tree) && P4Slot(v) != 510 && 1 <= level <= 3 && err != Ok
    requires UpTo(m, m', s, t, NodeAt(v, level), flags, from, err)
    ensures PageDone(m, m', s, t, PathOf(v), flags, from, err)
  {
    hide UpTo, PageDone, NodeAt, PathOf, P4Slot, Closed;
    LevelParents(s, v);
    if level <= 1 { StaysStopped(m, m', s, t, NodeAt(v, 2), flags, from, err); }
    if level <= 2 { StaysStopped(m, m', s, t, NodeAt(v, 3), flags, from, err); }
    StaysStopped(m, m', s, t, NodeAt(v, 4), flags, from, err);
  }

  lemma LevelClients(v: bv64)
    requires P4Slot(v) != 510
    ensures 256 <= P4Slot(v) <= 509 ==>
      Client(NodeAt(v, 1)) && Client(NodeAt(v, 2)) && Client(NodeAt(v, 3)) && Client(NodeAt(v, 4))
  {
    hide P4Slot, NodeAt, TopSlot, Node, Depth, Low9;
    NodeAtMeaning(v, 1);
    NodeAtMeaning(v, 2);
    NodeAtMeaning(v, 3);
    NodeAtMeaning(v, 4);
  }

  lemma AllFlags(flags: bv64)
    requires FlagsOk(flags, 4)
    ensures FlagsOk(LevelFlags(flags, 1), 1) && FlagsOk(LevelFlags(flags, 2), 2)
    ensures FlagsOk(LevelFlags(flags, 3), 3) && FlagsOk(LevelFlags(flags, 4), 4)
    ensures SameGrant(LevelFlags(flags, 1), flags) && SameGrant(LevelFlags(flags, 2), flags)
    ensures SameGrant(LevelFlags(flags, 3), flags) && SameGrant(LevelFlags(flags, 4), flags)
    ensures Writable(LevelFlags(flags, 1)) == Writable(flags) && Writable(LevelFlags(flags, 2)) == Writable(flags)
    ensures Writable(LevelFlags(flags, 3)) == Writable(flags) && Writable(LevelFlags(flags, 4)) == Writable(flags)
  {
    hide FlagsOk, LevelFlags, Writable, UserMode;
    LevelFlagsOk(flags, 1);
    LevelFlagsOk(flags, 2);
    LevelFlagsOk(flags, 3);
    LevelFlagsOk(flags, 4);
    LevelFlagsGrant(flags, 1);
    LevelFlagsGrant(flags, 2);
    LevelFlagsGrant(flags, 3);
    LevelFlagsGrant(flags, 4);
  }

  lemma PageFlags(flags: bv64)
    ensures LevelFlags(flags, 4) == flags
  {}

  lemma LevelParents(s: State, v: bv64)
    requires P4Slot(v) != 510
    ensures NodeAt(v, 1).Sub? && NodeAt(v, 1).parent == Top
    ensures NodeAt(v, 2).Sub? && NodeAt(v, 2).parent == NodeAt(v, 1)
    ensures NodeAt(v, 3).Sub? && NodeAt(v, 3).parent == NodeAt(v, 2)
    ensures NodeAt(v, 4).Sub? && NodeAt(v, 4).parent == NodeAt(v, 3) && NodeAt(v, 4) == PathOf(v)
  {}

  /** An entry is present exactly when its node is in the tree. */
  lemma PresentIsMapped(m: Memory, cr3: Frame, tree: Tree, v: bv64, level: nat)
    requires Wired(m, cr3, tree) && Complete(m, tree) && 1 <= level <= 4 && P4Slot(v) != 510
    requires NodeAt(v, level).Sub? && NodeAt(v, level).parent in tree
    ensures Present(EntryOf(m, tree, NodeAt(v, level))) <==> NodeAt(v, level) in tree
  {
    hide EntryOf, NodeAt, SelfEntry, P4Slot, Present, Low9;
    NodeAtMeaning(v, level);
    assert SlotOf(tree, NodeAt(v, level));
  }

  lemma LoopGuard(a: bv64, limit: bv64)
    requires Good(a) && Good(limit) && PageNumber(a) <= PageNumber(limit)
    ensures Before(a, limit) <==> PageNumber(a) < PageNumber(limit)
  {
    hide Good, PageNumber, Before;
    if PageNumber(a) < PageNumber(limit) {
      PageOrder(a, limit);
    } else {
      PageInjective(a, limit);
      NotBeforeItself(a);
    }
  }

  /** The memory after the first writes of Initialize. */
  function StartWrites(m: Memory, f4: Frame, f3: Frame, f2: Frame): Memory {
    StartMemory(m[f4 := EmptyTable()][f3 := EmptyTable()][f2 := EmptyTable()], f4, f3, f2)
  }

  lemma StartBuilt(m: Memory, p4: bv64, p3: bv64, p2: bv64, c: Code, first: nat)
    requires Good(p4) && Good(p3) && Good(p2) && Covers(m, TablesEnd(first))
    requires PageNumber(p4) == first && PageNumber(p3) == first + 1 && PageNumber(p2) == first + 2
    ensures var m' := StartWrites(m, Frame(p4), Frame(p3), Frame(p2));
      && Built(m', Frame(p4), StartTree(Frame(p4), Frame(p3), Frame(p2)), c, 0, 0, first, first + 3)
      && Covers(m', TablesEnd(first)) && RamKept(m, m') && LowKept(m, m', first)
  {
    hide Good, PageNumber, Covers, RamKept, LowKept, StartMemory, StartTree, Represents, Entries, Image, TablesEnd;
    StartCovers(m, TablesEnd(first), Frame(p4), Frame(p3), Frame(p2));
    ThreeFrames(m, p4, p3, p2, first);
    StartImage(Frame(p4), Frame(p3), Frame(p2), first);
    var cleared := m[Frame(p4) := EmptyTable()][Frame(p3) := EmptyTable()][Frame(p2) := EmptyTable()];
    Start(cleared, Frame(p4), Frame(p3), Frame(p2), c);
    ThreeCleared(m, Frame(p4), Frame(p3), Frame(p2), first);
    StartMemoryLow(cleared, Frame(p4), Frame(p3), Frame(p2), first);
    LowKeptTwice(m, cleared, StartWrites(m, Frame(p4), Frame(p3), Frame(p2)), first);
  }

  lemma ThreeCleared(m: Memory, f4: Frame, f3: Frame, f2: Frame, n: nat)
    requires PageNumber(f4.paddr) >= n && PageNumber(f3.paddr) >= n && PageNumber(f2.paddr) >= n
    ensures LowKept(m, m[f4 := EmptyTable()][f3 := EmptyTable()][f2 := EmptyTable()], n)
  {
    hide PageNumber, LowKept;
    var m1 := m[f4 := EmptyTable()];
    var m2 := m1[f3 := EmptyTable()];
    ClearedLow(m, f4, n);
    ClearedLow(m1, f3, n);
    ClearedLow(m2, f2, n);
    LowKeptTwice(m, m1, m2, n);
    LowKeptTwice(m, m2, m2[f2 := EmptyTable()], n);
  }

  lemma ThreeFrames(m: Memory, p4: bv64, p3: bv64, p2: bv64, first: nat)
    requires PageNumber(p4) == first && PageNumber(p3) == first + 1 && PageNumber(p2) == first + 2
    ensures Frame(p4) != Frame(p3) && Frame(p4) != Frame(p2) && Frame(p3) != Frame(p2)
    ensures var cleared := m[Frame(p4) := EmptyTable()][Frame(p3) := EmptyTable()][Frame(p2) := EmptyTable()];
      && Frame(p4) in cleared && Frame(p3) in cleared && Frame(p2) in cleared
      && cleared[Frame(p4)] == cleared[Frame(p3)] == cleared[Frame(p2)] == EmptyTable()
  {
    hide PageNumber;
    assert p4 != p3 && p4 != p2 && p3 != p2;
  }

  lemma StartCovers(m: Memory, end: nat, f4: Frame, f3: Frame, f2: Frame)
    requires Covers(m, end)
    ensures var cleared := m[f4 := EmptyTable()][f3 := EmptyTable()][f2 := EmptyTable()];
      var m' := StartMemory(cleared, f4, f3, f2);
      Ram(cleared) && Covers(m', end) && RamKept(m, m')
  {
    hide Good, PageNumber, TableEntry, IncEntryCount, SetWord, Word;
    var m0 := m[f4 := EmptyTable()][f3 := EmptyTable()][f2 := EmptyTable()];
    var m1 := SetWord(m0, f4, 510, TableEntry(f4.paddr));
    var m2 := SetWord(m1, f4, 511, TableEntry(f3.paddr));
    var m3 := SetWord(m2, f3, 510, TableEntry(f2.paddr));
    WriteCovers(m0, end, f4, 510, TableEntry(f4.paddr));
    WriteCovers(m1, end, f4, 511, TableEntry(f3.paddr));
    WriteCovers(m2, end, f3, 510, TableEntry(f2.paddr));
    WriteCovers(m3, end, f4, 511, IncEntryCount(Word(m3, f4, 511)));
  }

  lemma WriteCovers(m: Memory, end: nat, f: Frame, i: nat, w: bv64)
    requires Covers(m, end)
    ensures Covers(SetWord(m, f, i, w), end) && RamKept(m, SetWord(m, f, i, w))
  {
    hide Good, PageNumber;
  }
}
