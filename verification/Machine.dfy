/** The memory manager's memory as a whole: the tables, the stacked frames in their pages, and what
the virtual addresses computed by the code reach in them. */
module Machine {
  import opened Options
  import opened Words
  import opened Paging
  import opened Frames
  import opened Tables

  // ----- The four levels of an address -----

  function NodeAt(v: bv64, level: nat): Path {
    if level == 1 then Path1(P4Slot(v))
    else if level == 2 then Path2(P4Slot(v), P3Slot(v))
    else if level == 3 then Path3(P4Slot(v), P3Slot(v), P2Slot(v))
    else PathOf(v)
  }

  /** The window address of the table that holds the entry of a level. */
  function Window(v: bv64, level: nat): bv64 {
    if level == 1 then GetP4Table(v)
    else if level == 2 then GetP3Table(v)
    else if level == 3 then GetP2Table(v)
    else GetP1Table(v)
  }

  function Index(v: bv64, level: nat): bv64 {
    if level == 1 then GetP4EntryIndex(v)
    else if level == 2 then GetP3EntryIndex(v)
    else if level == 3 then GetP2EntryIndex(v)
    else GetP1EntryIndex(v)
  }

  function EntryPointer(v: bv64, level: nat): bv64 { EntryAddress(Window(v, level), Index(v, level)) }

  lemma NodeAtMeaning(v: bv64, level: nat)
    requires 1 <= level <= 4 && P4Slot(v) != 510
    ensures Node(NodeAt(v, level)) && Depth(NodeAt(v, level)) == level && NodeAt(v, level).Sub?
    ensures NodeAt(v, level).slot == Low9(Index(v, level)) < 512
    ensures NodeAt(v, level).parent == if level == 1 then Top else NodeAt(v, level - 1)
    ensures TopSlot(NodeAt(v, level)) == P4Slot(v)
  {
    hide Low9, GetP4EntryIndex, GetP3EntryIndex, GetP2EntryIndex, GetP1EntryIndex;
    var (a, b, c, d) := (P4Slot(v), P3Slot(v), P2Slot(v), P1Slot(v));
    assert Node(Path1(a)) && Depth(Path1(a)) == 1 && TopSlot(Path1(a)) == a;
    assert Node(Path2(a, b)) && Depth(Path2(a, b)) == 2 && TopSlot(Path2(a, b)) == a;
    assert Node(Path3(a, b, c)) && Depth(Path3(a, b, c)) == 3 && TopSlot(Path3(a, b, c)) == a;
    assert Node(Path4(a, b, c, d)) && Depth(Path4(a, b, c, d)) == 4 && TopSlot(Path4(a, b, c, d)) == a;
  }

  lemma WindowTheoremAt(m: Memory, cr3: Frame, v: bv64, level: nat)
    requires SelfEntry(m, cr3) && UpperHalf(v) && 1 <= level <= 4
    ensures Translate(m, cr3, Window(v, level)) ==
            if level == 1 then Some(cr3) else PageAt(m, cr3, NodeAt(v, level - 1))
  {
    hide SelfEntry, UpperHalf, PageAt, Translate, P4Slot, P3Slot, P2Slot, PathOf;
    hide GetP4Table, GetP3Table, GetP2Table, GetP1Table;
    WindowTheorem(m, cr3, v);
  }

  lemma WindowRightsAt(m: Memory, cr3: Frame, v: bv64, level: nat)
    requires SelfEntry(m, cr3) && 1 <= level <= 4
    ensures RightsAt(m, cr3, PathOf(Window(v, level))).write
            == (level == 1 || RightsAt(m, cr3, NodeAt(v, level - 1)).write)
  {
    hide SelfEntry, RightsAt, P4Slot, P3Slot, P2Slot, PathOf;
    hide GetP4Table, GetP3Table, GetP2Table, GetP1Table;
    WindowRights(m, cr3, v);
  }

  /** The window of a table of the tree may be written. */
  lemma WindowMayBeWritten(m: Memory, cr3: Frame, tree: Tree, v: bv64, level: nat)
    requires Wired(m, cr3, tree) && 1 <= level <= 4 && P4Slot(v) != 510
    requires NodeAt(v, level).Sub? && NodeAt(v, level).parent in tree
    ensures RightsAt(m, cr3, PathOf(Window(v, level))).write
  {
    hide Wired, P4Slot, SelfEntry, NodeAt, Window, Low9, TopSlot, Node, RightsAt, PathOf;
    NodeAtMeaning(v, level);
    WiredBasics(m, cr3, tree);
    WindowRightsAt(m, cr3, v, level);
    if level > 1 {
      NodeAtMeaning(v, level - 1);
      TableMayBeWritten(m, cr3, tree, NodeAt(v, level - 1));
    }
  }

  /** Where a window address leads: the frame of the node above the level. */
  lemma WindowReaches(m: Memory, cr3: Frame, tree: Tree, v: bv64, level: nat)
    requires Wired(m, cr3, tree) && UpperHalf(v) && 1 <= level <= 4 && P4Slot(v) != 510
    requires NodeAt(v, level).Sub? && NodeAt(v, level).parent in tree
    ensures Translate(m, cr3, Window(v, level)) == Some(tree[NodeAt(v, level).parent])
  {
    hide Wired, P4Slot, UpperHalf, PageAt, SelfEntry, NodeAt, Window, Translate, Low9, TopSlot, Node;
    NodeAtMeaning(v, level);
    WiredBasics(m, cr3, tree);
    WindowTheoremAt(m, cr3, v, level);
    WalkToNode(m, cr3, tree, NodeAt(v, level).parent);
  }

  lemma WiredBasics(m: Memory, cr3: Frame, tree: Tree)
    requires Wired(m, cr3, tree)
    ensures SelfEntry(m, cr3) && Top in tree && tree[Top] == cr3 && Ram(m)
    ensures forall p :: p in tree ==> tree[p] in m
  {}

  lemma WindowIsPage(v: bv64, level: nat)
    requires UpperHalf(v)
    ensures PageOf(Window(v, level)) == Window(v, level) && UpperHalf(Window(v, level))
    ensures Index(v, level) & 0x1FF == Index(v, level)
  {
    hide GetP4Table, GetP3Table, GetP2Table, GetP1Table, UpperHalf, PageOf;
    hide GetP4EntryIndex, GetP3EntryIndex, GetP2EntryIndex, GetP1EntryIndex;
    WindowAligned(v);
    WindowStaysUpper(v);
    IndexIsNineBits(v);
  }

  lemma SamePathSameFrame(m: Memory, cr3: Frame, v: bv64, w: bv64)
    requires PathOf(v) == PathOf(w) && UpperHalf(v) && UpperHalf(w)
    ensures Translate(m, cr3, v) == Translate(m, cr3, w)
  {
    hide PathOf, UpperHalf, PageAt;
  }

  /** Reading and writing through the window is reading and writing the entry of the level. */
  lemma EntryThroughWindow(m: Memory, cr3: Frame, tree: Tree, v: bv64, level: nat)
    requires Wired(m, cr3, tree) && UpperHalf(v) && 1 <= level <= 4 && P4Slot(v) != 510
    requires NodeAt(v, level).Sub? && NodeAt(v, level).parent in tree
    ensures MayWrite(m, cr3, EntryPointer(v, level))
    ensures LoadWord(m, cr3, EntryPointer(v, level)) == EntryOf(m, tree, NodeAt(v, level))
    ensures forall w :: StoreWord(m, cr3, EntryPointer(v, level), w) == SetEntry(m, tree, NodeAt(v, level), w)
  {
    hide Wired, P4Slot, UpperHalf, PathOf, NodeAt, Window, Index, PageOf, Low9, SelfEntry, WordOf, EntryAddress;
    hide Translate, Word, SetWord, Node, Depth, TopSlot, RightsAt;
    NodeAtMeaning(v, level);
    WiredBasics(m, cr3, tree);
    WindowReaches(m, cr3, tree, v, level);
    WindowMayBeWritten(m, cr3, tree, v, level);
    WindowIsPage(v, level);
    EntryAddressMeaning(Window(v, level), Index(v, level));
    SamePathSameFrame(m, cr3, EntryPointer(v, level), Window(v, level));
  }

  /** Without the P1 table its window leads nowhere. */
  lemma NoTableNoEntry(m: Memory, cr3: Frame, tree: Tree, v: bv64)
    requires Wired(m, cr3, tree) && Complete(m, tree) && UpperHalf(v) && P4Slot(v) != 510 && NodeAt(v, 3) !in tree
    ensures !Accessible(m, cr3, EntryPointer(v, 4))
  {
    hide Wired, Complete, P4Slot, UpperHalf, PathOf, NodeAt, Window, Index, PageOf, Low9, SelfEntry, WordOf,
      EntryAddress, Translate, Node, Depth, TopSlot, PageAt, TableAt;
    NodeAtMeaning(v, 3);
    NodeAtMeaning(v, 4);
    WiredBasics(m, cr3, tree);
    WindowTheoremAt(m, cr3, v, 4);
    WalkToNothing(m, cr3, tree, NodeAt(v, 3));
    WindowIsPage(v, 4);
    EntryAddressMeaning(Window(v, 4), Index(v, 4));
    SamePathSameFrame(m, cr3, EntryPointer(v, 4), Window(v, 4));
  }

  // ----- The frame stack in its pages -----

  /** Slot k of the stack holds the address of the k-th free frame. */
  ghost predicate Stored(m: Memory, s: State, base: nat) {
    forall k: nat :: k < |s.stack| ==>
      SlotPath(base, k) in s.tree && Word(m, s.tree[SlotPath(base, k)], (base + k) % 512) == s.stack[k].paddr
  }

  ghost predicate Usable(s: State, m: Memory) {
    && (forall f :: f in Held(s) ==> Good(f.paddr) && f in m)
    && (forall f :: f in s.stack ==> f.paddr != 0)
    && (forall f :: f in s.supply ==> f.paddr != 0)
  }

  /** The pages of the frame stack may be written. */
  ghost predicate SlotsWritable(m: Memory, tree: Tree, base: nat) {
    forall k: nat :: SlotPath(base, k) in tree ==> Writable(EntryOf(m, tree, SlotPath(base, k)))
  }

  ghost predicate Sound(m: Memory, cr3: Frame, s: State, base: nat) {
    && Wired(m, cr3, s.tree) && Complete(m, s.tree)
    && Distinct(s) && Stored(m, s, base) && Usable(s, m) && SlotsWritable(m, s.tree, base)
    && base + |s.stack| + |s.supply| < 0x1000_0000
  }

  /** Memory after one level of MapPage. */
  function Levelled(m: Memory, tree: Tree, p: Path, frame: Frame, e: bv64): Memory {
    var m' := Linked(m, tree, p, frame, e);
    var tree' := tree[p := frame];
    if p.Sub? && p.parent.Sub? then SetEntry(m', tree', p.parent, IncEntryCount(EntryOf(m', tree', p.parent))) else m'
  }

  lemma LevelledTables(m: Memory, cr3: Frame, tree: Tree, p: Path, frame: Frame, e: bv64)
    requires Linkable(m, cr3, tree, p, frame, e)
    ensures var m', tree' := Levelled(m, tree, p, frame, e), tree[p := frame];
      Wired(m', cr3, tree') && Complete(m', tree') && (Counted(m, tree) ==> Counted(m', tree'))
  {
    LinkableFacts(m, cr3, tree, p, frame, e);
    hide Linkable, Wired, Complete, Counted, Linked, SetEntry, IncEntryCount, EntryOf;
    if p.parent.Sub? {
      LinkAndCount(m, cr3, tree, p, frame, e);
    } else {
      LinkOnly(m, cr3, tree, p, frame, e);
    }
  }

  lemma LevelledPages(m: Memory, cr3: Frame, tree: Tree, p: Path, frame: Frame, e: bv64, q: Path, i: nat)
    requires Linkable(m, cr3, tree, p, frame, e) && q in tree && Depth(q) == 4 && i < 512
    ensures Word(Levelled(m, tree, p, frame, e), tree[q], i) == Word(m, tree[q], i)
  {
    assert tree[q] in tree.Values;
    LinkableFacts(m, cr3, tree, p, frame, e);
    LinkedKeeps(m, cr3, tree, p, frame, e);
    assert SlotOf(tree, p) && Wired(m, cr3, tree);
    hide Linkable, Wired, Complete, SetEntry, IncEntryCount, EntryOf, Word, SlotOf;
    TableWriteKeepsPages(m, cr3, tree, p, e, q, i);
    ClearedWord(SetEntry(m, tree, p, e), frame, tree[q], i);
    if p.parent.Sub? {
      var m', tree' := Linked(m, tree, p, frame, e), tree[p := frame];
      TableWriteKeepsPages(m', cr3, tree', p.parent, IncEntryCount(EntryOf(m', tree', p.parent)), q, i);
    }
  }

  lemma LevelledEntry(m: Memory, cr3: Frame, tree: Tree, p: Path, frame: Frame, e: bv64, q: Path)
    requires Linkable(m, cr3, tree, p, frame, e) && p.Sub? && q in tree[p := frame] && q.Sub? && q.slot < 512
    requires q.parent in tree
    ensures EntryOf(Levelled(m, tree, p, frame, e), tree[p := frame], q)
            == if q == p then e
               else if q == p.parent then IncEntryCount(EntryOf(m, tree, q))
               else EntryOf(m, tree, q)
  {
    LinkableFacts(m, cr3, tree, p, frame, e);
    hide Linkable, Wired, Complete, Linked, SetEntry, EntryOf, IncEntryCount, SlotOf;
    var m', tree' := Linked(m, tree, p, frame, e), tree[p := frame];
    LinkedKeeps(m, cr3, tree, p, frame, e);
    LinkedEntry(m, cr3, tree, p, frame, e, q);
    if p.parent.Sub? {
      LinkedEntry(m, cr3, tree, p, frame, e, p.parent);
      SetEntryMeaning(m', cr3, tree', p.parent, IncEntryCount(EntryOf(m', tree', p.parent)), q);
    }
  }

  lemma SetEntryRam(m: Memory, tree: Tree, p: Path, e: bv64, f: Frame)
    ensures f in SetEntry(m, tree, p, e) <==> f in m
  {}

  lemma LevelledRam(m: Memory, tree: Tree, p: Path, frame: Frame, e: bv64, f: Frame)
    requires f in m
    ensures f in Levelled(m, tree, p, frame, e)
  {
    hide SetEntry, EntryOf, IncEntryCount;
    SetEntryRam(m, tree, p, e, f);
    var m', tree' := Linked(m, tree, p, frame, e), tree[p := frame];
    if p.Sub? && p.parent.Sub? {
      SetEntryRam(m', tree', p.parent, IncEntryCount(EntryOf(m', tree', p.parent)), f);
    }
  }

  // ----- Rights stay -----

  /** The nodes of a tree are still there, and their entries grant the same rights. */
  ghost predicate RightsKept(m: Memory, m': Memory, tree: Tree, tree': Tree) {
    forall q :: q in tree ==>
      && q in tree' && tree'[q] == tree[q]
      && (q.Sub? ==> SameRights(EntryOf(m, tree, q), EntryOf(m', tree', q)))
  }

  predicate SameRights(e: bv64, e': bv64) { SameGrant(e', e) && NoExecute(e') == NoExecute(e) }

  lemma RightsKeptTwice(m: Memory, m': Memory, m'': Memory, tree: Tree, tree': Tree, tree'': Tree)
    requires RightsKept(m, m', tree, tree') && RightsKept(m', m'', tree', tree'')
    ensures RightsKept(m, m'', tree, tree'')
  {
    hide EntryOf, Writable, NoExecute, UserMode;
  }

  lemma RightsUnchanged(m: Memory, tree: Tree)
    ensures RightsKept(m, m, tree, tree)
  {
    hide EntryOf, Writable, NoExecute, UserMode;
  }

  /** One level of MapPage keeps the rights of every node that was there. */
  lemma LevelledRights(m: Memory, cr3: Frame, tree: Tree, p: Path, frame: Frame, e: bv64)
    requires Linkable(m, cr3, tree, p, frame, e)
    ensures RightsKept(m, Levelled(m, tree, p, frame, e), tree, tree[p := frame])
  {
    LinkableFacts(m, cr3, tree, p, frame, e);
    assert Closed(tree);
    hide Linkable, Wired, Levelled, EntryOf, IncEntryCount, Writable, NoExecute, UserMode, Depth;
    forall q | q in tree && q.Sub?
      ensures SameRights(EntryOf(m, tree, q), EntryOf(Levelled(m, tree, p, frame, e), tree[p := frame], q))
    {
      LevelledEntry(m, cr3, tree, p, frame, e, q);
      IncKeepsRights(EntryOf(m, tree, q));
    }
  }

  /** A walk to a node that was there has the rights that it had. */
  lemma {:induction false} RightsFollow(m: Memory, m': Memory, cr3: Frame, tree: Tree, tree': Tree, q: Path)
    requires Wired(m, cr3, tree) && Wired(m', cr3, tree') && RightsKept(m, m', tree, tree') && q in tree
    ensures RightsAt(m', cr3, q) == RightsAt(m, cr3, q)
  {
    hide Wired, EntryOf, EntryAt, Writable, NoExecute, UserMode;
    if q.Sub? {
      WalkToNode(m, cr3, tree, q);
      WalkToNode(m', cr3, tree', q);
      RightsFollow(m, m', cr3, tree, tree', q.parent);
    }
  }

  /** An entry that grants what the flags say and does not forbid execution. */
  predicate MadeLike(e: bv64, flags: bv64) { SameGrant(e, flags) && !NoExecute(e) }

  /** The nodes that are new in a tree have such entries. */
  ghost predicate NewLike(m': Memory, tree: Tree, tree': Tree, flags: bv64) {
    forall q :: q in tree' && q !in tree && q.Sub? ==> MadeLike(EntryOf(m', tree', q), flags)
  }

  lemma NothingNew(m: Memory, tree: Tree, flags: bv64)
    ensures NewLike(m, tree, tree, flags)
  {}

  lemma NewLikeTwice(m': Memory, m'': Memory, tree: Tree, tree': Tree, tree'': Tree, flags: bv64)
    requires NewLike(m', tree, tree', flags) && RightsKept(m', m'', tree', tree'') && NewLike(m'', tree', tree'', flags)
    ensures NewLike(m'', tree, tree'', flags)
  {
    hide EntryOf, Writable, NoExecute, UserMode;
  }

  /** One level of MapPage makes an entry with its flags. */
  lemma LevelledNew(m: Memory, cr3: Frame, tree: Tree, p: Path, frame: Frame, flags: bv64, level: nat)
    requires Linkable(m, cr3, tree, p, frame, NewEntry(frame.paddr, flags))
    requires Good(frame.paddr) && FlagsOk(flags, level)
    ensures NewLike(Levelled(m, tree, p, frame, NewEntry(frame.paddr, flags)), tree, tree[p := frame], flags)
  {
    LinkableFacts(m, cr3, tree, p, frame, NewEntry(frame.paddr, flags));
    hide Linkable, Levelled, EntryOf, NewEntry, Writable, NoExecute, UserMode, Good, FlagsOk;
    LevelledEntry(m, cr3, tree, p, frame, NewEntry(frame.paddr, flags), p);
    NewEntryGrants(frame.paddr, flags, level);
  }

  /** The lowest table or page on the way to q that the tree has. */
  function Lowest(tree: Tree, q: Path): (r: Path)
    ensures r == Top || r in tree
  {
    if q == Top || q in tree then q else Lowest(tree, q.parent)
  }

  /** The walk to a node that is new grants what the walk to the lowest table that was there did and what was asked
  for. */
  lemma {:induction false} RightsAsked(m: Memory, m': Memory, cr3: Frame, tree: Tree, tree': Tree, q: Path, flags: bv64)
    requires Wired(m, cr3, tree) && Wired(m', cr3, tree') && RightsKept(m, m', tree, tree')
    requires NewLike(m', tree, tree', flags) && q in tree' && q !in tree
    ensures var above := RightsAt(m, cr3, Lowest(tree, q));
            RightsAt(m', cr3, q) ==
            Rights(above.write && Writable(flags), above.execute, above.user && UserMode(flags))
  {
    assert Top in tree;
    hide Wired, EntryOf, EntryAt, Writable, NoExecute, UserMode;
    WalkToNode(m', cr3, tree', q);
    if q.parent in tree {
      RightsFollow(m, m', cr3, tree, tree', q.parent);
    } else {
      RightsAsked(m, m', cr3, tree, tree', q.parent, flags);
    }
  }

  /** The nodes of the kernel's own half of a tree are still there, with the same entries. */
  ghost predicate KernelKept(m: Memory, m': Memory, tree: Tree, tree': Tree) {
    forall q :: q in tree && !Client(q) ==>
      q in tree' && tree'[q] == tree[q] && EntryOf(m', tree', q) == EntryOf(m, tree, q)
  }

  lemma KernelKeptTwice(m: Memory, m': Memory, m'': Memory, tree: Tree, tree': Tree, tree'': Tree)
    requires KernelKept(m, m', tree, tree') && KernelKept(m', m'', tree', tree'')
    ensures KernelKept(m, m'', tree, tree'')
  {
    hide EntryOf, Client;
  }

  lemma KernelUnchanged(m: Memory, tree: Tree)
    ensures KernelKept(m, m, tree, tree)
  {}

  lemma ClientChild(q: Path)
    requires q.Sub? && Client(q.parent)
    ensures Client(q)
  {}

  /** Writing the entry of a caller's node. */
  lemma ClientEntryKeeps(m: Memory, cr3: Frame, tree: Tree, p: Path, w: bv64)
    requires Wired(m, cr3, tree) && SlotOf(tree, p) && Client(p)
    ensures KernelKept(m, SetEntry(m, tree, p, w), tree, tree)
  {
    assert Closed(tree);
    hide Wired, SetEntry, EntryOf, SlotOf, Client, Depth;
    forall q | q in tree && !Client(q) ensures EntryOf(SetEntry(m, tree, p, w), tree, q) == EntryOf(m, tree, q) {
      if q.Sub? {
        SetEntryMeaning(m, cr3, tree, p, w, q);
      } else {
        NoEntryOfTop(m, SetEntry(m, tree, p, w), tree, tree);
      }
    }
  }

  lemma NoEntryOfTop(m: Memory, m': Memory, tree: Tree, tree': Tree)
    ensures EntryOf(m, tree, Top) == EntryOf(m', tree', Top)
  {}

  lemma {:induction false} KernelRightsFollow(m: Memory, m': Memory, cr3: Frame, tree: Tree, tree': Tree, q: Path)
    requires Wired(m, cr3, tree) && Wired(m', cr3, tree') && KernelKept(m, m', tree, tree') && q in tree && !Client(q)
    ensures RightsAt(m', cr3, q) == RightsAt(m, cr3, q)
  {
    hide Wired, EntryOf, EntryAt, Writable, NoExecute, UserMode, Client;
    if q.Sub? {
      WalkToNode(m, cr3, tree, q);
      WalkToNode(m', cr3, tree', q);
      if Client(q.parent) { ClientChild(q); }
      KernelRightsFollow(m, m', cr3, tree, tree', q.parent);
    }
  }

  // ----- The contents of pages stay -----

  /** The page of the node is not one of the frame stack. */
  ghost predicate OffStack(base: nat, q: Path) { forall k: nat :: q != SlotPath(base, k) }

  /** No page of a caller's is. */
  lemma ClientOffStack(base: nat, q: Path)
    requires Client(q)
    ensures OffStack(base, q)
  {
    forall k: nat ensures q != SlotPath(base, k) { SlotTop(base, k); }
  }

  lemma SlotTop(base: nat, k: nat)
    ensures SlotPath(base, k).Sub? && TopSlot(SlotPath(base, k)) == 511
  {
    var page := (base + k) / 512;
    assert TopSlot(Path1(511)) == 511;
    assert TopSlot(Path2(511, 510 + page / 0x40000)) == 511;
    assert TopSlot(Path3(511, 510 + page / 0x40000, page / 512 % 512)) == 511;
  }

  /** The page of node q is still there, with the same frame and contents. */
  ghost predicate PageKept(m: Memory, m': Memory, tree: Tree, tree': Tree, q: Path)
    requires q in tree && q in tree'
  {
    tree'[q] == tree[q] && forall j: nat :: Word(m', tree[q], j) == Word(m, tree[q], j)
  }

  /** All pages that both trees have kept their contents. */
  ghost predicate AllPagesKept(m: Memory, m': Memory, tree: Tree, tree': Tree) {
    forall q :: q in tree && q in tree' && Depth(q) == 4 ==> PageKept(m, m', tree, tree', q)
  }

  /** All but those of the frame stack. */
  ghost predicate PagesKept(m: Memory, m': Memory, tree: Tree, tree': Tree, base: nat) {
    forall q :: q in tree && q in tree' && Depth(q) == 4 && OffStack(base, q) ==> PageKept(m, m', tree, tree', q)
  }

  lemma NoPageChanged(m: Memory, tree: Tree)
    ensures AllPagesKept(m, m, tree, tree)
  {}

  lemma AllPagesKeptTwice(m: Memory, m': Memory, m'': Memory, tree: Tree, tree': Tree, tree'': Tree)
    requires AllPagesKept(m, m', tree, tree') && AllPagesKept(m', m'', tree', tree'')
    requires forall q :: q in tree && q in tree'' ==> q in tree'
    ensures AllPagesKept(m, m'', tree, tree'')
  {
    hide Word, Depth;
  }

  lemma PagesKeptTwice(m: Memory, m': Memory, m'': Memory, tree: Tree, tree': Tree, tree'': Tree, base: nat)
    requires PagesKept(m, m', tree, tree', base) && PagesKept(m', m'', tree', tree'', base)
    requires forall q :: q in tree && q in tree'' ==> q in tree'
    ensures PagesKept(m, m'', tree, tree'', base)
  {
    hide Word, Depth, OffStack;
  }

  lemma AllIsMore(m: Memory, m': Memory, tree: Tree, tree': Tree, base: nat)
    requires AllPagesKept(m, m', tree, tree')
    ensures PagesKept(m, m', tree, tree', base)
  {
    hide Word, Depth, OffStack, PageKept;
  }

  lemma NoWordBeyond(m: Memory, f: Frame, j: nat)
    requires Ram(m) && j >= 512
    ensures Word(m, f, j) == 0
  {}

  /** One level of MapPage changes no page. */
  lemma LevelledPagesKept(m: Memory, cr3: Frame, tree: Tree, p: Path, frame: Frame, e: bv64)
    requires Linkable(m, cr3, tree, p, frame, e)
    ensures AllPagesKept(m, Levelled(m, tree, p, frame, e), tree, tree[p := frame])
  {
    LinkableFacts(m, cr3, tree, p, frame, e);
    LevelledTables(m, cr3, tree, p, frame, e);
    var m' := Levelled(m, tree, p, frame, e);
    assert Wired(m, cr3, tree) && Ram(m) && Ram(m');
    hide Linkable, Levelled, Wired, Ram, Word, Depth;
    forall q, j: nat | q in tree && Depth(q) == 4 ensures Word(m', tree[q], j) == Word(m, tree[q], j) {
      if j < 512 {
        LevelledPages(m, cr3, tree, p, frame, e, q, j);
      } else {
        NoWordBeyond(m, tree[q], j);
        NoWordBeyond(m', tree[q], j);
      }
    }
  }

  /** Storing a frame in its slot changes that page of the stack alone. */
  lemma StackedPagesKept(m: Memory, cr3: Frame, s: State, base: nat, frame: Frame)
    requires Wired(m, cr3, s.tree) && SlotPath(base, |s.stack|) in s.tree
    ensures PagesKept(m, Stacked(m, s, base, frame), s.tree, s.tree, base)
  {
    var p, i := SlotPath(base, |s.stack|), (base + |s.stack|) % 512;
    assert Ram(m) && Injective(s.tree) && s.tree[p] in m;
    hide Wired, Word, SetWord, Depth, SlotPath, Ram;
    forall q, j: nat | q in s.tree && OffStack(base, q)
      ensures Word(Stacked(m, s, base, frame), s.tree[q], j) == Word(m, s.tree[q], j)
    {
      assert q != p;
      SetWordMeaning(m, s.tree[p], i, frame.paddr, s.tree[q], j);
    }
  }

  /** Writing an entry changes no page. */
  lemma EntryPagesKept(m: Memory, cr3: Frame, tree: Tree, p: Path, e: bv64, tree': Tree)
    requires Wired(m, cr3, tree) && SlotOf(tree, p) && forall q :: q in tree' ==> q in tree && tree'[q] == tree[q]
    ensures AllPagesKept(m, SetEntry(m, tree, p, e), tree, tree')
  {
    hide Wired, Word, SetEntry, SlotOf, Depth;
    forall q, j: nat | q in tree && Depth(q) == 4
      ensures Word(SetEntry(m, tree, p, e), tree[q], j) == Word(m, tree[q], j)
    {
      TableWriteKeepsPages(m, cr3, tree, p, e, q, j);
    }
  }

  // ----- Every kind of step keeps the memory sound -----

  /** The stacked frames are untouched when the pages that hold them are. */
  lemma StoredKept(m: Memory, m': Memory, s: State, s': State, base: nat)
    requires Stored(m, s, base) && s'.stack == s.stack && base + |s.stack| < 0x1000_0000
    requires forall q :: q in s.tree && Depth(q) == 4 && q.parent.Sub? && TopSlot(q) == 511 ==>
             q in s'.tree && s'.tree[q] == s.tree[q]
    requires forall q, i: nat :: q in s.tree && Depth(q) == 4 && q.parent.Sub? && TopSlot(q) == 511 && i < 512 ==>
             Word(m', s.tree[q], i) == Word(m, s.tree[q], i)
    ensures Stored(m', s', base)
  {
    hide Word, SlotPath;
    forall k: nat | k < |s.stack|
      ensures SlotPath(base, k) in s'.tree && Word(m', s'.tree[SlotPath(base, k)], (base + k) % 512) == s.stack[k].paddr
    {
      SlotPathIsKernel(base, k);
      SlotPathShape(base, k);
    }
  }

  lemma SlotPathShape(base: nat, k: nat)
    ensures SlotPath(base, k).Sub? && SlotPath(base, k).parent.Sub?
  {}

  lemma UsableKept(s: State, m: Memory, s': State, m': Memory)
    requires Usable(s, m) && Held(s') <= Held(s) && (forall f :: f in m ==> f in m')
    requires (forall f :: f in s'.stack ==> f in s.stack) && (forall f :: f in s'.supply ==> f in s.supply)
    ensures Usable(s', m')
  {
    hide Held, Good;
  }

  lemma UsableMore(s: State, m: Memory, s': State, m': Memory, frame: Frame)
    requires Usable(s, m) && Held(s') <= Held(s) + {frame} && (forall f :: f in m ==> f in m')
    requires Good(frame.paddr) && frame in m
    requires forall f :: f in s'.stack ==> f in s.stack || (f == frame && frame.paddr != 0)
    requires forall f :: f in s'.supply ==> f in s.supply
    ensures Usable(s', m')
  {
    hide Held, Good;
  }

  lemma SoundLevel(m: Memory, cr3: Frame, s: State, base: nat, p: Path, frame: Frame, e: bv64)
    requires Sound(m, cr3, s, base) && Linkable(m, cr3, s.tree, p, frame, e) && frame !in Held(s) && Good(frame.paddr)
    requires Writable(e) || Client(p)
    ensures var m', s' := Levelled(m, s.tree, p, frame, e), s.(tree := s.tree[p := frame]);
      Sound(m', cr3, s', base) && (Counted(m, s.tree) ==> Counted(m', s'.tree))
  {
    var m', s' := Levelled(m, s.tree, p, frame, e), s.(tree := s.tree[p := frame]);
    hide Linkable, Wired, Complete, Counted, Levelled, Word, Good, Held, Distinct, Usable, Stored, SlotsWritable,
      Writable, Client;
    LevelledTables(m, cr3, s.tree, p, frame, e);
    LevelledSlots(m, cr3, s.tree, base, p, frame, e);
    NewNode(m, cr3, s, p, frame, e);
    forall q, i: nat | q in s.tree && Depth(q) == 4 && i < 512
      ensures Word(m', s.tree[q], i) == Word(m, s.tree[q], i)
    {
      LevelledPages(m, cr3, s.tree, p, frame, e, q, i);
    }
    StoredKept(m, m', s, s', base);
    forall f | f in m ensures f in m' { LevelledRam(m, s.tree, p, frame, e, f); }
    UsableMore(s, m, s', m', frame);
  }

  /** The entries of the stack's pages are those of old, but for a new one. */
  ghost predicate SlotEntriesKept(m: Memory, m': Memory, tree: Tree, tree': Tree, base: nat) {
    forall k: nat :: SlotPath(base, k) in tree' ==>
      SlotPath(base, k) in tree && EntryOf(m', tree', SlotPath(base, k)) == EntryOf(m, tree, SlotPath(base, k))
  }

  lemma SlotsStayWritable(m: Memory, m': Memory, tree: Tree, tree': Tree, base: nat)
    requires SlotsWritable(m, tree, base) && SlotEntriesKept(m, m', tree, tree', base)
    ensures SlotsWritable(m', tree', base)
  {
    hide SlotPath, EntryOf, Writable;
  }

  lemma SlotInTree(tree: Tree, base: nat, k: nat)
    requires Closed(tree) && SlotPath(base, k) in tree
    ensures var q := SlotPath(base, k); q.Sub? && q.slot < 512 && q.parent in tree && Depth(q) == 4 && !Client(q)
  {
    var page := (base + k) / 512;
    var (b, c) := (510 + page / 0x40000, page / 512 % 512);
    assert Depth(Path1(511)) == 1 && TopSlot(Path1(511)) == 511;
    assert Depth(Path2(511, b)) == 2 && TopSlot(Path2(511, b)) == 511;
    assert Depth(Path3(511, b, c)) == 3 && TopSlot(Path3(511, b, c)) == 511;
  }

  lemma LevelledSlots(m: Memory, cr3: Frame, tree: Tree, base: nat, p: Path, frame: Frame, e: bv64)
    requires Linkable(m, cr3, tree, p, frame, e) && SlotsWritable(m, tree, base) && (Writable(e) || Client(p))
    ensures SlotsWritable(Levelled(m, tree, p, frame, e), tree[p := frame], base)
  {
    LinkableFacts(m, cr3, tree, p, frame, e);
    LevelledTables(m, cr3, tree, p, frame, e);
    var m', tree' := Levelled(m, tree, p, frame, e), tree[p := frame];
    assert Closed(tree');
    hide Linkable, Wired, Complete, Counted, Levelled, EntryOf, SlotPath, Writable, Closed, Client, IncEntryCount;
    forall k: nat | SlotPath(base, k) in tree' ensures Writable(EntryOf(m', tree', SlotPath(base, k))) {
      SlotInTree(tree', base, k);
      ParentStays(tree, p, frame, SlotPath(base, k));
      LevelledEntry(m, cr3, tree, p, frame, e, SlotPath(base, k));
    }
  }

  lemma ParentStays(tree: Tree, p: Path, frame: Frame, q: Path)
    requires Closed(tree) && p.Sub? && p.parent in tree && Depth(p.parent) < 4 && p !in tree
    requires q in tree[p := frame] && q.Sub? && Depth(q) == 4
    ensures q.parent in tree && q != p.parent
  {}

  lemma NewNode(m: Memory, cr3: Frame, s: State, p: Path, frame: Frame, e: bv64)
    requires Linkable(m, cr3, s.tree, p, frame, e) && frame !in Held(s) && Distinct(s)
    ensures p !in s.tree && frame in m
    ensures var s' := s.(tree := s.tree[p := frame]); Distinct(s') && Held(s') == Held(s) + {frame}
  {
    AddNode(s, p, frame);
  }

  lemma SlotsDiffer(base: nat, j: nat, k: nat)
    requires j < k && base + k < 0x1000_0000
    ensures SlotPath(base, j) != SlotPath(base, k) || (base + j) % 512 != (base + k) % 512
  {
    if SlotPath(base, j) == SlotPath(base, k) {
      SamePageNumber((base + j) / 512, (base + k) / 512);
    }
  }

  lemma SamePageNumber(a: nat, b: nat)
    requires a / 0x40000 == b / 0x40000 && a / 512 % 512 == b / 512 % 512 && a % 512 == b % 512
    ensures a == b
  {
    assert a / 0x40000 == a / 512 / 512 && b / 0x40000 == b / 512 / 512;
  }

  /** Memory after `*frame_stack = paddr`. */
  function Stacked(m: Memory, s: State, base: nat, frame: Frame): Memory {
    var p := SlotPath(base, |s.stack|);
    if p in s.tree then SetWord(m, s.tree[p], (base + |s.stack|) % 512, frame.paddr) else m
  }

  lemma StackedStores(m: Memory, cr3: Frame, s: State, base: nat, frame: Frame)
    requires Wired(m, cr3, s.tree) && Stored(m, s, base) && SlotPath(base, |s.stack|) in s.tree
    requires base + |s.stack| < 0x1000_0000
    ensures Stored(Stacked(m, s, base, frame), s.(stack := s.stack + [frame]), base)
  {
    WiredBasics(m, cr3, s.tree);
    assert Injective(s.tree);
    var n := |s.stack|;
    var m' := Stacked(m, s, base, frame);
    hide Word, SlotPath, Wired, SetWord;
    forall k: nat | k < n + 1
      ensures SlotPath(base, k) in s.tree
      ensures Word(m', s.tree[SlotPath(base, k)], (base + k) % 512) == (s.stack + [frame])[k].paddr
    {
      SetWordMeaning(m, s.tree[SlotPath(base, n)], (base + n) % 512, frame.paddr, s.tree[SlotPath(base, k)],
                     (base + k) % 512);
      if k < n { SlotsDiffer(base, k, n); }
    }
  }

  lemma SoundPush(m: Memory, cr3: Frame, s: State, base: nat, frame: Frame)
    requires Sound(m, cr3, s, base) && SlotPath(base, |s.stack|) in s.tree
    requires frame !in Held(s) && Good(frame.paddr) && frame.paddr != 0 && frame in m
    requires base + |s.stack| + |s.supply| + 1 < 0x1000_0000
    ensures var m', s' := Stacked(m, s, base, frame), s.(stack := s.stack + [frame]);
      && Sound(m', cr3, s', base)
      && (Counted(m, s.tree) ==> Counted(m', s.tree))
  {
    var m', s' := Stacked(m, s, base, frame), s.(stack := s.stack + [frame]);
    hide Wired, Complete, Counted, Distinct, Held, Good, SlotPath, Stored, Usable, Stacked, SlotsWritable;
    StackedTables(m, cr3, s, base, frame);
    StackedSlots(m, cr3, s, base, frame);
    StackedStores(m, cr3, s, base, frame);
    AppendKeepsDistinct(s, frame);
    UsableMore(s, m, s', m', frame);
  }

  /** A store of a caller's in a page that it was given leaves tables, stacked frames and ownership consistent, and
  every other page as it was. */
  lemma ClientWrite(m: Memory, cr3: Frame, s: State, base: nat, p: Path, i: nat, w: bv64)
    requires Sound(m, cr3, s, base) && p in s.tree && Depth(p) == 4 && Client(p) && i < 512
    ensures var m' := SetWord(m, s.tree[p], i, w);
      && Sound(m', cr3, s, base)
      && (Counted(m, s.tree) ==> Counted(m', s.tree))
      && (forall q, j: nat :: q in s.tree && q != p ==> Word(m', s.tree[q], j) == Word(m, s.tree[q], j))
  {
    var m' := SetWord(m, s.tree[p], i, w);
    WiredBasics(m, cr3, s.tree);
    assert Closed(s.tree) && Injective(s.tree);
    hide Wired, Complete, Counted, Distinct, Held, SlotPath, Stored, Usable, SlotsWritable, Word, SetWord, EntryOf,
      Depth, TopSlot, Closed, Writable, Ram;
    PageWriteKeeps(m, cr3, s.tree, p, i, w);
    OtherPages(m, s.tree, p, i, w);
    StoredKept(m, m', s, s, base);
    UsableKept(s, m, s, m');
    forall k: nat | SlotPath(base, k) in s.tree
      ensures EntryOf(m', s.tree, SlotPath(base, k)) == EntryOf(m, s.tree, SlotPath(base, k))
    {
      SlotInTree(s.tree, base, k);
    }
    SlotsStayWritable(m, m', s.tree, s.tree, base);
  }

  lemma OtherPages(m: Memory, tree: Tree, p: Path, i: nat, w: bv64)
    requires Ram(m) && Injective(tree) && p in tree && tree[p] in m && i < 512
    ensures forall f :: f in m ==> f in SetWord(m, tree[p], i, w)
    ensures forall q, j: nat :: q in tree && q != p ==>
            Word(SetWord(m, tree[p], i, w), tree[q], j) == Word(m, tree[q], j)
  {
    hide Word, SetWord, Ram;
    forall q, j: nat | q in tree && q != p
      ensures Word(SetWord(m, tree[p], i, w), tree[q], j) == Word(m, tree[q], j)
    {
      SetWordMeaning(m, tree[p], i, w, tree[q], j);
    }
    forall f | f in m ensures f in SetWord(m, tree[p], i, w) { SetWordMeaning(m, tree[p], i, w, f, 0); }
  }

  lemma StackedTables(m: Memory, cr3: Frame, s: State, base: nat, frame: Frame)
    requires Wired(m, cr3, s.tree) && SlotPath(base, |s.stack|) in s.tree && base + |s.stack| < 0x1000_0000
    ensures var m' := Stacked(m, s, base, frame);
      && Wired(m', cr3, s.tree)
      && (Complete(m, s.tree) ==> Complete(m', s.tree))
      && (Counted(m, s.tree) ==> Counted(m', s.tree))
      && (forall f :: f in m ==> f in m')
  {
    hide Wired, Complete, Counted, SlotPath, SetWord, Node;
    var p, i := SlotPath(base, |s.stack|), (base + |s.stack|) % 512;
    SlotPathIsKernel(base, |s.stack|);
    PageWriteKeeps(m, cr3, s.tree, p, i, frame.paddr);
    forall f | f in m ensures f in Stacked(m, s, base, frame) { SetWordRam(m, s.tree[p], i, frame.paddr, f); }
  }

  lemma StackedSlots(m: Memory, cr3: Frame, s: State, base: nat, frame: Frame)
    requires Wired(m, cr3, s.tree) && SlotPath(base, |s.stack|) in s.tree && base + |s.stack| < 0x1000_0000
    requires SlotsWritable(m, s.tree, base)
    ensures SlotsWritable(Stacked(m, s, base, frame), s.tree, base)
  {
    WiredBasics(m, cr3, s.tree);
    assert Closed(s.tree);
    hide Wired, SlotPath, Stacked, EntryOf, Writable, Closed, SlotsWritable, Ram;
    var m' := Stacked(m, s, base, frame);
    forall k: nat | SlotPath(base, k) in s.tree
      ensures EntryOf(m', s.tree, SlotPath(base, k)) == EntryOf(m, s.tree, SlotPath(base, k))
    {
      SlotInTree(s.tree, base, k);
      SlotsApart(m, cr3, s, base, SlotPath(base, k));
      StackedEntry(m, s, base, frame, SlotPath(base, k));
    }
    SlotsStayWritable(m, m', s.tree, s.tree, base);
  }

  lemma SetWordRam(m: Memory, g: Frame, i: nat, w: bv64, f: Frame)
    ensures f in SetWord(m, g, i, w) <==> f in m
  {}

  lemma AppendKeepsDistinct(s: State, frame: Frame)
    requires Distinct(s) && frame !in Held(s)
    ensures var s' := s.(stack := s.stack + [frame]); Distinct(s') && Held(s') == Held(s) + {frame}
  {
    assert Elements(s.stack + [frame]) == Elements(s.stack) + {frame};
    assert forall p :: p in s.tree ==> s.tree[p] in s.tree.Values;
  }

  lemma SoundTake(m: Memory, cr3: Frame, s: State, base: nat, from: Source)
    requires Sound(m, cr3, s, base)
    ensures var (x, t) := Take(s, from);
      && Sound(m, cr3, t, base)
      && (x.Some? ==> x.value !in Held(t) && Good(x.value.paddr) && x.value in m && x.value.paddr != 0)
  {
    hide Wired, Complete, Distinct, Held, Good, SlotPath, Stored, Usable, SlotsWritable;
    TakeMeaning(s, from);
    var (x, t) := Take(s, from);
    TakeStores(m, s, base, from);
    if x.Some? {
      assert x.value in s.stack || x.value in s.supply;
      UsableFrame(s, m, x.value);
    }
    UsableKept(s, m, t, m);
  }

  lemma UsableFrame(s: State, m: Memory, f: Frame)
    requires Usable(s, m) && (f in s.stack || f in s.supply)
    ensures Good(f.paddr) && f in m && f.paddr != 0
  {
    hide Good;
    assert f in Held(s);
  }

  lemma TakeStores(m: Memory, s: State, base: nat, from: Source)
    requires Stored(m, s, base)
    ensures Stored(m, Take(s, from).1, base)
  {
    hide Word, SlotPath;
  }

  lemma WiredIsClosed(m: Memory, cr3: Frame, tree: Tree, p: Path)
    requires Wired(m, cr3, tree) && SlotOf(tree, p)
    ensures Closed(tree) && p.Sub? && Depth(p) <= 4
  {}

  lemma UnlinkedSlots(m: Memory, cr3: Frame, tree: Tree, base: nat, p: Path)
    requires Wired(m, cr3, tree) && p in tree && SlotOf(tree, p) && Children(tree, p) == {} && TopSlot(p) != 511
    requires SlotsWritable(m, tree, base)
    ensures SlotsWritable(SetEntry(m, tree, p, !PAGE_PRESENT), tree - {p}, base)
  {
    assert Closed(tree);
    hide Wired, SlotPath, SetEntry, EntryOf, Writable, Closed, SlotsWritable, Children, SlotOf, TopSlot;
    var m', tree' := SetEntry(m, tree, p, !PAGE_PRESENT), tree - {p};
    forall k: nat | SlotPath(base, k) in tree'
      ensures SlotPath(base, k) in tree && EntryOf(m', tree', SlotPath(base, k)) == EntryOf(m, tree, SlotPath(base, k))
    {
      SlotInTree(tree, base, k);
      NoChildren(tree, p, SlotPath(base, k));
      UnlinkedEntry(m, cr3, tree, p, SlotPath(base, k));
    }
    SlotsStayWritable(m, m', tree, tree', base);
  }

  lemma RecountedSlots(m: Memory, cr3: Frame, tree: Tree, base: nat, p: Path, w: bv64)
    requires Wired(m, cr3, tree) && p in tree && SlotOf(tree, p) && SameTarget(w, EntryOf(m, tree, p))
    requires SlotsWritable(m, tree, base)
    ensures SlotsWritable(SetEntry(m, tree, p, w), tree, base)
  {
    assert Closed(tree);
    LowBitsLead(w, EntryOf(m, tree, p));
    hide Wired, SlotPath, SetEntry, EntryOf, Writable, Closed, SameTarget, SlotOf, Present, Large, FrameIn, Masked;
    var m' := SetEntry(m, tree, p, w);
    forall k: nat | SlotPath(base, k) in tree ensures Writable(EntryOf(m', tree, SlotPath(base, k))) {
      SlotInTree(tree, base, k);
      SetEntryMeaning(m, cr3, tree, p, w, SlotPath(base, k));
    }
  }

  /** The cleared entry alone. */
  lemma SoundClear(m: Memory, cr3: Frame, s: State, base: nat, p: Path)
    requires Sound(m, cr3, s, base) && p in s.tree && SlotOf(s.tree, p) && Children(s.tree, p) == {}
    requires TopSlot(p) != 511
    ensures var m', t := SetEntry(m, s.tree, p, !PAGE_PRESENT), s.(tree := s.tree - {p});
      Sound(m', cr3, t, base) && s.tree[p] !in Held(t)
  {
    var m', t := SetEntry(m, s.tree, p, !PAGE_PRESENT), s.(tree := s.tree - {p});
    hide Wired, Complete, Distinct, Held, Good, Word, SlotPath, SetEntry, Children, Closed, Stored, Usable, SlotOf,
      SlotsWritable;
    WiredIsClosed(m, cr3, s.tree, p);
    UnlinkedSlots(m, cr3, s.tree, base, p);
    RemoveNode(s, p);
    UnlinkWires(m, cr3, s.tree, p);
    forall q, i: nat | q in s.tree && Depth(q) == 4 && i < 512
      ensures Word(m', s.tree[q], i) == Word(m, s.tree[q], i)
    {
      TableWriteKeepsPages(m, cr3, s.tree, p, !PAGE_PRESENT, q, i);
    }
    StoredKept(m, m', s, t, base);
    forall f | f in m ensures f in m' { SetEntryRam(m, s.tree, p, !PAGE_PRESENT, f); }
    UsableKept(s, m, t, m');
  }

  /** Lowering a count. */
  lemma SoundRecount(m: Memory, cr3: Frame, s: State, base: nat, p: Path)
    requires Sound(m, cr3, s, base) && p in s.tree && SlotOf(s.tree, p)
    ensures Sound(SetEntry(m, s.tree, p, DecEntryCount(EntryOf(m, s.tree, p))), cr3, s, base)
  {
    var w := DecEntryCount(EntryOf(m, s.tree, p));
    var m' := SetEntry(m, s.tree, p, w);
    hide Distinct, Held, Good, Word, SlotPath, SetEntry, EntryOf, DecEntryCount, SameTarget, Wired, Complete, Stored,
      Usable, SlotsWritable;
    DecEntryCountMeaning(EntryOf(m, s.tree, p));
    RecountedSlots(m, cr3, s.tree, base, p, w);
    RecountKeeps(m, cr3, s.tree, p, w);
    forall q, i: nat | q in s.tree && Depth(q) == 4 && i < 512
      ensures Word(m', s.tree[q], i) == Word(m, s.tree[q], i)
    {
      TableWriteKeepsPages(m, cr3, s.tree, p, w, q, i);
    }
    StoredKept(m, m', s, s, base);
    forall f | f in m ensures f in m' { SetEntryRam(m, s.tree, p, w, f); }
    UsableKept(s, m, s, m');
  }

  // ----- Stacking a frame between clearing an entry and lowering a count -----

  lemma PageIsNoTable(m: Memory, cr3: Frame, tree: Tree, p: Path, q: Path)
    requires Wired(m, cr3, tree) && p in tree && Depth(p) == 4 && q.Sub? && q.parent in tree && Depth(q) <= 4
    ensures tree[p] != tree[q.parent]
  {
    assert p != q.parent;
    hide Leads, SelfEntry, Closed;
  }

  /** Slot p of the stack is in another frame than the table at q.parent. */
  ghost predicate Apart(s: State, p: Path, q: Path) {
    p in s.tree && q.Sub? && q.parent in s.tree && s.tree[p] != s.tree[q.parent]
  }

  lemma StackedEntry(m: Memory, s: State, base: nat, frame: Frame, q: Path)
    requires Ram(m) && Apart(s, SlotPath(base, |s.stack|), q) && s.tree[SlotPath(base, |s.stack|)] in m
    ensures EntryOf(Stacked(m, s, base, frame), s.tree, q) == EntryOf(m, s.tree, q)
  {
    hide SlotPath, SetWord, Word;
    SetWordMeaning(m, s.tree[SlotPath(base, |s.stack|)], (base + |s.stack|) % 512, frame.paddr, s.tree[q.parent],
                   q.slot);
  }

  lemma SetWordsCommute(m: Memory, f: Frame, i: nat, v: bv64, g: Frame, j: nat, w: bv64)
    requires f != g
    ensures SetWord(SetWord(m, f, i, v), g, j, w) == SetWord(SetWord(m, g, j, w), f, i, v)
  {
    if f in m && i < |m[f]| && g in m && j < |m[g]| {
      assert m[f := m[f][i := v]][g := m[g][j := w]] == m[g := m[g][j := w]][f := m[f][i := v]];
    }
  }

  /** A stacked frame and an entry are different words, so the two writes commute. */
  lemma StackedCommutes(m: Memory, s: State, base: nat, frame: Frame, q: Path, w: bv64)
    requires Apart(s, SlotPath(base, |s.stack|), q)
    ensures SetEntry(Stacked(m, s, base, frame), s.tree, q, w) == Stacked(SetEntry(m, s.tree, q, w), s, base, frame)
  {
    hide SlotPath, SetWord;
    SetWordsCommute(m, s.tree[SlotPath(base, |s.stack|)], (base + |s.stack|) % 512, frame.paddr, s.tree[q.parent],
                    q.slot, w);
  }

  lemma SlotsApart(m: Memory, cr3: Frame, s: State, base: nat, q: Path)
    requires Wired(m, cr3, s.tree) && SlotPath(base, |s.stack|) in s.tree && base + |s.stack| < 0x1000_0000
    requires q.Sub? && q.parent in s.tree && Depth(q) <= 4
    ensures Apart(s, SlotPath(base, |s.stack|), q) && Ram(m) && s.tree[SlotPath(base, |s.stack|)] in m
  {
    hide Wired, SlotPath, Node, Depth;
    SlotPathIsKernel(base, |s.stack|);
    PageIsNoTable(m, cr3, s.tree, SlotPath(base, |s.stack|), q);
    WiredBasics(m, cr3, s.tree);
  }
}
