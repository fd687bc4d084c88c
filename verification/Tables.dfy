/** How memory represents the tree of tables, and what each kind of write does to it. */
module Tables {
  import opened Options
  import opened Words
  import opened Paging
  import opened Frames

  type Tree = map<Path, Frame>

  ghost predicate Leads(e: bv64, frame: Frame, toTable: bool) {
    Present(e) && FrameIn(e) == frame.paddr && Masked(e) == frame.paddr && (toTable ==> !Large(e) && Writable(e))
  }

  /** Slot p.slot of the table at p.parent: the entry that leads, or would lead, to p. */
  function EntryOf(m: Memory, tree: Tree, p: Path): bv64 {
    if p.Sub? && p.parent in tree then Word(m, tree[p.parent], p.slot) else 0
  }

  function SetEntry(m: Memory, tree: Tree, p: Path, e: bv64): Memory {
    if p.Sub? && p.parent in tree then SetWord(m, tree[p.parent], p.slot, e) else m
  }

  /** Every node of the tree is reachable in memory, at the frame the tree gives it. */
  ghost predicate Wired(m: Memory, cr3: Frame, tree: Tree) {
    && Ram(m) && SelfEntry(m, cr3) && Closed(tree) && Injective(tree) && tree[Top] == cr3
    && (forall p :: p in tree ==> tree[p] in m)
    && (forall p :: p in tree && p.Sub? ==> Leads(EntryOf(m, tree, p), tree[p], Depth(p) < 4))
  }

  /** A slot of a table, other than the self entry. */
  ghost predicate SlotOf(tree: Tree, p: Path) {
    p.Sub? && p.parent in tree && Depth(p) <= 4 && p.slot < 512 && p != Path1(510)
  }

  /** Apart from the self entry no other entry is present. */
  ghost predicate Complete(m: Memory, tree: Tree) {
    forall p :: SlotOf(tree, p) && Present(EntryOf(m, tree, p)) ==> p in tree
  }

  /** The hidden count of every table entry is the number of entries present in that table, modulo 512. */
  ghost predicate Counted(m: Memory, tree: Tree) {
    forall p :: p in tree && SlotOf(tree, p) && Depth(p) < 4 ==>
      CountIn(EntryOf(m, tree, p)) == |Children(tree, p)| % 512
  }

  ghost predicate Represents(m: Memory, cr3: Frame, tree: Tree) {
    Wired(m, cr3, tree) && Complete(m, tree) && Counted(m, tree)
  }

  // ----- What the walk finds -----

  lemma {:induction false} WalkToNode(m: Memory, cr3: Frame, tree: Tree, p: Path)
    requires Wired(m, cr3, tree) && p in tree
    ensures Depth(p) < 4 ==> TableAt(m, cr3, p) == Some(tree[p])
    ensures p.Sub? ==>
            p.parent in tree && EntryAt(m, cr3, p) == Some(EntryOf(m, tree, p)) && PageAt(m, cr3, p) == Some(tree[p])
  {
    hide Present, FrameIn, Large, Masked, SelfEntry;
    if p.Sub? {
      WalkToNode(m, cr3, tree, p.parent);
    }
  }

  lemma {:induction false} WalkToNothing(m: Memory, cr3: Frame, tree: Tree, p: Path)
    requires Wired(m, cr3, tree) && Complete(m, tree)
    requires Node(p) && p !in tree && Depth(p) <= 4
    ensures TableAt(m, cr3, p) == None && PageAt(m, cr3, p) == None
  {
    hide Present, FrameIn, Large, Masked, SelfEntry;
    if p.parent in tree {
      WalkToNode(m, cr3, tree, p.parent);
      assert SlotOf(tree, p);
    } else {
      WalkToNothing(m, cr3, tree, p.parent);
    }
  }

  lemma PathIsNode(v: bv64)
    requires P4Slot(v) != 510
    ensures Node(PathOf(v)) && Depth(PathOf(v)) == 4 && TopSlot(PathOf(v)) == P4Slot(v)
  {
    hide Low9;
    var (a, b, c) := (P4Slot(v), P3Slot(v), P2Slot(v));
    assert Node(Path1(a)) && Depth(Path1(a)) == 1 && TopSlot(Path1(a)) == a;
    assert Node(Path2(a, b)) && Depth(Path2(a, b)) == 2 && TopSlot(Path2(a, b)) == a;
    assert Node(Path3(a, b, c)) && Depth(Path3(a, b, c)) == 3 && TopSlot(Path3(a, b, c)) == a;
  }

  /** The hardware translates an address to what the tree holds for it, and to nothing else. */
  lemma TranslateIsTree(m: Memory, cr3: Frame, tree: Tree, v: bv64)
    requires Wired(m, cr3, tree) && Complete(m, tree)
    requires Canonical(v) && P4Slot(v) != 510
    ensures Translate(m, cr3, v) == if PathOf(v) in tree then Some(tree[PathOf(v)]) else None
  {
    hide Wired, Complete, P4Slot, PathOf, Canonical;
    PathIsNode(v);
    if PathOf(v) in tree {
      WalkToNode(m, cr3, tree, PathOf(v));
    } else {
      WalkToNothing(m, cr3, tree, PathOf(v));
    }
  }

  /** Every table of the tree may be written: no entry on the way to it is read-only. */
  lemma {:induction false} TableMayBeWritten(m: Memory, cr3: Frame, tree: Tree, p: Path)
    requires Wired(m, cr3, tree) && p in tree && Depth(p) < 4
    ensures RightsAt(m, cr3, p).write
  {
    hide Present, FrameIn, Large, Masked, SelfEntry, Writable, NoExecute;
    if p.Sub? {
      WalkToNode(m, cr3, tree, p);
      TableMayBeWritten(m, cr3, tree, p.parent);
    }
  }

  /** A page may be written exactly when its own entry says so. */
  lemma PageMayBeWritten(m: Memory, cr3: Frame, tree: Tree, p: Path)
    requires Wired(m, cr3, tree) && p in tree && Depth(p) == 4
    ensures RightsAt(m, cr3, p).write == Writable(EntryOf(m, tree, p))
  {
    hide Present, FrameIn, Large, Masked, SelfEntry, Writable, NoExecute;
    WalkToNode(m, cr3, tree, p);
    TableMayBeWritten(m, cr3, tree, p.parent);
  }

  // ----- Words and entries -----

  lemma SetWordMeaning(m: Memory, f: Frame, i: nat, w: bv64, g: Frame, j: nat)
    requires Ram(m) && f in m && i < 512
    ensures Ram(SetWord(m, f, i, w)) && (g in SetWord(m, f, i, w) <==> g in m)
    ensures Word(SetWord(m, f, i, w), g, j) == if g == f && j == i then w else Word(m, g, j)
  {}

  /** Two nodes that differ hang on different words of memory. */
  lemma SetEntryMeaning(m: Memory, cr3: Frame, tree: Tree, p: Path, e: bv64, q: Path)
    requires Wired(m, cr3, tree) && SlotOf(tree, p) && q.Sub? && q.parent in tree
    ensures EntryOf(SetEntry(m, tree, p, e), tree, q) == if q == p then e else EntryOf(m, tree, q)
  {
    hide Leads, SelfEntry, Word, SetWord;
    SetWordMeaning(m, tree[p.parent], p.slot, e, tree[q.parent], q.slot);
  }

  /** An entry of a slot that no node hangs on: the tree stays wired, and the walk may write through the
  entry exactly when it says so. */
  lemma StrayEntry(m: Memory, cr3: Frame, tree: Tree, p: Path, e: bv64)
    requires Wired(m, cr3, tree) && SlotOf(tree, p) && p !in tree
    ensures var m' := SetEntry(m, tree, p, e);
      Wired(m', cr3, tree) && EntryAt(m', cr3, p) == Some(e) && RightsAt(m', cr3, p).write == Writable(e)
  {
    hide Leads, SelfEntry, SetEntry, Writable, NoExecute;
    var m' := SetEntry(m, tree, p, e);
    SetEntryKeepsRam(m, cr3, tree, p, e);
    forall q: Path | q.Sub? && q.parent in tree
      ensures EntryOf(m', tree, q) == if q == p then e else EntryOf(m, tree, q)
    {
      SetEntryMeaning(m, cr3, tree, p, e, q);
    }
    assert Wired(m', cr3, tree);
    WalkToNode(m', cr3, tree, p.parent);
    TableMayBeWritten(m', cr3, tree, p.parent);
    assert tree[p.parent] in m' && |m'[tree[p.parent]]| == 512;
  }

  lemma SetEntryKeepsRam(m: Memory, cr3: Frame, tree: Tree, p: Path, e: bv64)
    requires Wired(m, cr3, tree) && SlotOf(tree, p)
    ensures var m' := SetEntry(m, tree, p, e); Ram(m') && SelfEntry(m', cr3) && forall f :: f in m ==> f in m'
  {
    hide Leads, Present, Large, FrameIn, Closed;
    assert Top in tree by { TopInTree(m, cr3, tree); }
    SetWordMeaning(m, tree[p.parent], p.slot, e, cr3, 510);
  }

  lemma TopInTree(m: Memory, cr3: Frame, tree: Tree)
    requires Wired(m, cr3, tree)
    ensures Top in tree
  {}

  lemma GrownTree(tree: Tree, p: Path, frame: Frame)
    requires Closed(tree) && Injective(tree) && SlotOf(tree, p) && p !in tree && frame !in tree.Values
    ensures Closed(tree[p := frame]) && Injective(tree[p := frame])
  {
    assert forall q :: q in tree ==> tree[q] in tree.Values;
  }

  // ----- A new entry, and the new table cleared -----

  lemma LinkWires(m: Memory, cr3: Frame, tree: Tree, p: Path, frame: Frame, e: bv64)
    requires Wired(m, cr3, tree) && SlotOf(tree, p) && p !in tree
    requires frame !in tree.Values && frame in m && Leads(e, frame, Depth(p) < 4)
    ensures Wired(SetEntry(m, tree, p, e), cr3, tree[p := frame])
  {
    hide Leads, SelfEntry, Injective, SetEntry, SlotOf, Depth;
    SetEntryKeepsRam(m, cr3, tree, p, e);
    GrownTree(tree, p, frame);
    var m', tree' := SetEntry(m, tree, p, e), tree[p := frame];
    forall q | q in tree' && q.Sub?
      ensures Leads(EntryOf(m', tree', q), tree'[q], Depth(q) < 4)
    {
      SetEntryMeaning(m, cr3, tree, p, e, q);
    }
  }

  lemma LinkCompletes(m: Memory, cr3: Frame, tree: Tree, p: Path, frame: Frame, e: bv64)
    requires Wired(m, cr3, tree) && Complete(m, tree) && SlotOf(tree, p) && p !in tree && Depth(p) == 4
    ensures Complete(SetEntry(m, tree, p, e), tree[p := frame])
  {
    hide Leads, SelfEntry, Injective, SetEntry, Present;
    var m', tree' := SetEntry(m, tree, p, e), tree[p := frame];
    forall q | SlotOf(tree', q) && Present(EntryOf(m', tree', q))
      ensures q in tree'
    {
      SetEntryMeaning(m, cr3, tree, p, e, q);
      assert SlotOf(tree, q);
    }
  }

  lemma ClearedWord(m: Memory, frame: Frame, f: Frame, i: nat)
    requires i < 512
    ensures Word(m[frame := EmptyTable()], f, i) == if f == frame then 0 else Word(m, f, i)
  {}

  lemma NoChildren(tree: Tree, p: Path, q: Path)
    requires Children(tree, p) == {} && q in tree && q.Sub? && q.slot < 512
    ensures q.parent != p
  {
    assert q.slot !in Children(tree, p);
    assert q == Sub(q.parent, q.slot);
  }

  lemma ClearWires(m: Memory, cr3: Frame, tree: Tree, p: Path)
    requires Wired(m, cr3, tree) && p in tree && p.Sub? && Children(tree, p) == {}
    ensures Wired(m[tree[p] := EmptyTable()], cr3, tree)
  {
    hide Leads, Children, Present, Large, FrameIn, Word;
    var m' := m[tree[p] := EmptyTable()];
    ClearedWord(m, tree[p], cr3, 510);
    forall q | q in tree && q.Sub?
      ensures EntryOf(m', tree, q) == EntryOf(m, tree, q)
    {
      NoChildren(tree, p, q);
      ClearedWord(m, tree[p], tree[q.parent], q.slot);
    }
  }

  lemma ClearCompletes(m: Memory, cr3: Frame, tree: Tree, p: Path, frame: Frame, e: bv64)
    requires Wired(m, cr3, tree) && Complete(m, tree) && SlotOf(tree, p) && p !in tree && frame !in tree.Values
    ensures Complete(SetEntry(m, tree, p, e)[frame := EmptyTable()], tree[p := frame])
  {
    hide Leads, SelfEntry, Injective, SetEntry, Present, Word;
    var m1, tree' := SetEntry(m, tree, p, e), tree[p := frame];
    var m' := m1[frame := EmptyTable()];
    NotPresentWord();
    forall q | SlotOf(tree', q) && Present(EntryOf(m', tree', q))
      ensures q in tree'
    {
      ClearedWord(m1, frame, tree'[q.parent], q.slot);
      if q.parent != p {
        assert tree[q.parent] in tree.Values;
        SetEntryMeaning(m, cr3, tree, p, e, q);
        assert SlotOf(tree, q);
      }
    }
  }

  // ----- Counting -----

  /** Rewriting the count of an entry moves nothing. */
  lemma RecountKeeps(m: Memory, cr3: Frame, tree: Tree, p: Path, w: bv64)
    requires Wired(m, cr3, tree) && p in tree && SlotOf(tree, p)
    requires SameTarget(w, EntryOf(m, tree, p))
    ensures Wired(SetEntry(m, tree, p, w), cr3, tree)
    ensures Complete(m, tree) ==> Complete(SetEntry(m, tree, p, w), tree)
  {
    hide Present, Large, FrameIn, Masked, SameTarget, SelfEntry, Injective, SetEntry, EntryOf;
    LowBitsLead(w, EntryOf(m, tree, p));
    var m' := SetEntry(m, tree, p, w);
    SetEntryKeepsRam(m, cr3, tree, p, w);
    forall q: Path | q.Sub? && q.parent in tree
      ensures EntryOf(m', tree, q) == if q == p then w else EntryOf(m, tree, q)
    {
      SetEntryMeaning(m, cr3, tree, p, w, q);
    }
  }

  lemma ChildrenAfterAdding(tree: Tree, p: Path, frame: Frame)
    requires Closed(tree) && p !in tree && p.Sub? && p.slot < 512
    ensures Children(tree[p := frame], p) == {}
    ensures Children(tree[p := frame], p.parent) == Children(tree, p.parent) + {p.slot}
    ensures p.slot !in Children(tree, p.parent)
    ensures forall q :: q != p.parent ==> Children(tree[p := frame], q) == Children(tree, q)
  {
    assert p == Sub(p.parent, p.slot);
    forall i: nat | i < 512
      ensures Sub(p, i) !in tree[p := frame]
    {
      assert Sub(p, i).parent == p;
      assert Depth(Sub(p, i)) == Depth(p) + 1;
    }
  }

  lemma ChildrenAfterRemoving(tree: Tree, p: Path)
    requires p in tree && p.Sub? && p.slot < 512
    ensures Children(tree, p.parent) == Children(tree - {p}, p.parent) + {p.slot}
    ensures p.slot !in Children(tree - {p}, p.parent)
    ensures forall q :: q != p.parent ==> Children(tree - {p}, q) == Children(tree, q)
  {
    assert p == Sub(p.parent, p.slot);
  }

  function Below(n: nat): (s: set<nat>)
    ensures |s| == n && forall i: nat :: i in s <==> i < n
  {
    if n == 0 then {} else Below(n - 1) + {n - 1}
  }

  lemma AtMost512Children(tree: Tree, p: Path)
    ensures |Children(tree, p)| <= 512
  {
    SmallerSet(Children(tree, p), Below(512));
  }

  // ----- One level of MapPage -----

  /** The new entry and, when it leads to a table, the cleared table. */
  function Linked(m: Memory, tree: Tree, p: Path, frame: Frame, e: bv64): Memory {
    if Depth(p) < 4 then SetEntry(m, tree, p, e)[frame := EmptyTable()] else SetEntry(m, tree, p, e)
  }

  ghost predicate Linkable(m: Memory, cr3: Frame, tree: Tree, p: Path, frame: Frame, e: bv64) {
    && Wired(m, cr3, tree) && Complete(m, tree) && SlotOf(tree, p) && p !in tree
    && frame !in tree.Values && frame in m && Leads(e, frame, Depth(p) < 4) && CountIn(e) == 0
  }

  lemma LinkedKeeps(m: Memory, cr3: Frame, tree: Tree, p: Path, frame: Frame, e: bv64)
    requires Linkable(m, cr3, tree, p, frame, e)
    ensures Wired(Linked(m, tree, p, frame, e), cr3, tree[p := frame])
    ensures Complete(Linked(m, tree, p, frame, e), tree[p := frame])
  {
    LinkWires(m, cr3, tree, p, frame, e);
    if Depth(p) < 4 {
      ChildrenAfterAdding(tree, p, frame);
      ClearWires(SetEntry(m, tree, p, e), cr3, tree[p := frame], p);
      ClearCompletes(m, cr3, tree, p, frame, e);
    } else {
      LinkCompletes(m, cr3, tree, p, frame, e);
    }
    hide *;
  }

  /** Linking changes one entry and leaves every other old entry alone. */
  lemma LinkedEntry(m: Memory, cr3: Frame, tree: Tree, p: Path, frame: Frame, e: bv64, q: Path)
    requires Linkable(m, cr3, tree, p, frame, e) && q.Sub? && q.parent in tree && q.slot < 512
    ensures EntryOf(Linked(m, tree, p, frame, e), tree[p := frame], q) == if q == p then e else EntryOf(m, tree, q)
  {
    hide Leads, SelfEntry, Injective, Complete, Counted, SetEntry, Word;
    SetEntryMeaning(m, cr3, tree, p, e, q);
    ClearedWord(SetEntry(m, tree, p, e), frame, tree[q.parent], q.slot);
    assert tree[q.parent] in tree.Values;
  }

  lemma LinkedCount(m: Memory, cr3: Frame, tree: Tree, p: Path, frame: Frame, e: bv64, q: Path)
    requires Linkable(m, cr3, tree, p, frame, e) && Counted(m, tree)
    requires q in tree[p := frame] && SlotOf(tree[p := frame], q) && Depth(q) < 4
    ensures q.parent in tree[p := frame]
    ensures CountIn(EntryOf(Linked(m, tree, p, frame, e), tree[p := frame], q))
            == (if q == p then 0 else |Children(tree, q)| % 512)
    ensures q.Sub? && q.parent in tree && (q != p ==> q in tree)
  {
    hide Leads, SelfEntry, Injective, Complete, SetEntry, EntryOf, CountIn, Linked, Children;
    assert q.parent in tree;
    LinkedEntry(m, cr3, tree, p, frame, e, q);
    assert q != p ==> SlotOf(tree, q);
  }

  lemma LinkableFacts(m: Memory, cr3: Frame, tree: Tree, p: Path, frame: Frame, e: bv64)
    requires Linkable(m, cr3, tree, p, frame, e)
    ensures Closed(tree) && p !in tree && p.Sub? && p.slot < 512 && p.parent in tree && Depth(p.parent) < 4
    ensures p.parent.Sub? ==> SlotOf(tree[p := frame], p.parent) && p.parent.parent in tree
  {}

  /** The level just below the top table is not counted. */
  lemma LinkOnly(m: Memory, cr3: Frame, tree: Tree, p: Path, frame: Frame, e: bv64)
    requires Linkable(m, cr3, tree, p, frame, e) && p.Sub? && p.parent == Top
    ensures var m', tree' := Linked(m, tree, p, frame, e), tree[p := frame];
      Wired(m', cr3, tree') && Complete(m', tree') && (Counted(m, tree) ==> Counted(m', tree'))
  {
    hide Linkable, Wired, Complete, EntryOf, CountIn, Linked, Children, Closed, SlotOf;
    LinkedKeeps(m, cr3, tree, p, frame, e);
    LinkableFacts(m, cr3, tree, p, frame, e);
    ChildrenAfterAdding(tree, p, frame);
    var m', tree' := Linked(m, tree, p, frame, e), tree[p := frame];
    if Counted(m, tree) {
      forall q | q in tree' && SlotOf(tree', q) && Depth(q) < 4
        ensures q.Sub? && q.parent in tree' && CountIn(EntryOf(m', tree', q)) == |Children(tree', q)| % 512
      {
        LinkedCount(m, cr3, tree, p, frame, e, q);
      }
    }
  }

  /** One whole level of MapPage: the entry, the cleared table, and the parent's count. */
  lemma LinkAndCount(m: Memory, cr3: Frame, tree: Tree, p: Path, frame: Frame, e: bv64)
    requires Linkable(m, cr3, tree, p, frame, e) && p.Sub? && p.parent.Sub?
    ensures var m', tree' := Linked(m, tree, p, frame, e), tree[p := frame];
      var m'' := SetEntry(m', tree', p.parent, IncEntryCount(EntryOf(m', tree', p.parent)));
      Wired(m'', cr3, tree') && Complete(m'', tree') && (Counted(m, tree) ==> Counted(m'', tree'))
  {
    hide Linkable, Wired, Complete, Counted, EntryOf, CountIn, Linked, Closed, SlotOf, SetEntry, IncEntryCount,
      SameTarget;
    LinkedKeeps(m, cr3, tree, p, frame, e);
    LinkableFacts(m, cr3, tree, p, frame, e);
    var m', tree' := Linked(m, tree, p, frame, e), tree[p := frame];
    IncEntryCountMeaning(EntryOf(m', tree', p.parent));
    RecountKeeps(m', cr3, tree', p.parent, IncEntryCount(EntryOf(m', tree', p.parent)));
    if Counted(m, tree) { LinkCounts(m, cr3, tree, p, frame, e); }
  }

  lemma LinkCounts(m: Memory, cr3: Frame, tree: Tree, p: Path, frame: Frame, e: bv64)
    requires Linkable(m, cr3, tree, p, frame, e) && Counted(m, tree) && p.Sub? && p.parent.Sub?
    requires Wired(Linked(m, tree, p, frame, e), cr3, tree[p := frame])
    ensures var m', tree' := Linked(m, tree, p, frame, e), tree[p := frame];
      Counted(SetEntry(m', tree', p.parent, IncEntryCount(EntryOf(m', tree', p.parent))), tree')
  {
    hide Linkable, Wired, Complete, EntryOf, CountIn, Linked, Children, Closed, SetEntry, IncEntryCount, SameTarget,
      SlotOf;
    LinkableFacts(m, cr3, tree, p, frame, e);
    var m', tree' := Linked(m, tree, p, frame, e), tree[p := frame];
    var w := IncEntryCount(EntryOf(m', tree', p.parent));
    ChildrenAfterAdding(tree, p, frame);
    IncEntryCountMeaning(EntryOf(m', tree', p.parent));
    LinkedCount(m, cr3, tree, p, frame, e, p.parent);
    forall q | q in tree' && SlotOf(tree', q) && Depth(q) < 4
      ensures q.Sub? && q.parent in tree'
      ensures CountIn(EntryOf(SetEntry(m', tree', p.parent, w), tree', q)) == |Children(tree', q)| % 512
    {
      LinkedCount(m, cr3, tree, p, frame, e, q);
      SetEntryMeaning(m', cr3, tree', p.parent, w, q);
    }
  }

  // ----- One level of UnmapPage -----

  /** The same entries wire a part of the tree. */
  lemma WiredPart(m: Memory, m': Memory, cr3: Frame, tree: Tree, tree': Tree)
    requires Wired(m, cr3, tree) && Ram(m') && SelfEntry(m', cr3) && (forall f :: f in m ==> f in m')
    requires Closed(tree') && forall q :: q in tree' ==> q in tree && tree'[q] == tree[q]
    requires forall q :: q in tree' && q.Sub? ==> EntryOf(m', tree', q) == EntryOf(m, tree, q)
    ensures Wired(m', cr3, tree')
  {
    hide Leads, SelfEntry, EntryOf, Ram;
  }

  lemma ClosedWithout(tree: Tree, p: Path)
    requires Closed(tree) && p in tree && p.Sub? && Children(tree, p) == {}
    ensures Closed(tree - {p})
  {
    hide Children;
    forall q | q in tree - {p} && q.Sub? ensures q.parent in tree - {p} { NoChildren(tree, p, q); }
  }

  lemma UnlinkedWired(m: Memory, cr3: Frame, tree: Tree, p: Path)
    requires Wired(m, cr3, tree) && p in tree && SlotOf(tree, p) && Children(tree, p) == {}
    ensures Wired(SetEntry(m, tree, p, !PAGE_PRESENT), cr3, tree - {p})
  {
    assert Closed(tree) && p.Sub?;
    var m', tree' := SetEntry(m, tree, p, !PAGE_PRESENT), tree - {p};
    hide Wired, Closed, SelfEntry, SetEntry, EntryOf, Children, SlotOf, Ram;
    SetEntryKeepsRam(m, cr3, tree, p, !PAGE_PRESENT);
    ClosedWithout(tree, p);
    forall q | q in tree' && q.Sub? ensures EntryOf(m', tree', q) == EntryOf(m, tree, q) {
      ParentInTree(tree', q);
      UnlinkedEntry(m, cr3, tree, p, q);
    }
    WiredPart(m, m', cr3, tree, tree');
  }

  lemma ParentInTree(tree: Tree, q: Path)
    requires Closed(tree) && q in tree && q.Sub?
    ensures q.parent in tree
  {}

  /** Clearing the entry of a node that has no children takes the node out of the tree. */
  lemma UnlinkWires(m: Memory, cr3: Frame, tree: Tree, p: Path)
    requires Wired(m, cr3, tree) && Complete(m, tree) && p in tree && SlotOf(tree, p) && Children(tree, p) == {}
    ensures Wired(SetEntry(m, tree, p, !PAGE_PRESENT), cr3, tree - {p})
    ensures Complete(SetEntry(m, tree, p, !PAGE_PRESENT), tree - {p})
  {
    hide Wired, Complete, Children, SlotOf, SetEntry;
    UnlinkedWired(m, cr3, tree, p);
    UnlinkCompletes(m, cr3, tree, p);
  }

  lemma UnlinkCompletes(m: Memory, cr3: Frame, tree: Tree, p: Path)
    requires Wired(m, cr3, tree) && Complete(m, tree) && p in tree && SlotOf(tree, p)
    ensures Complete(SetEntry(m, tree, p, !PAGE_PRESENT), tree - {p})
  {
    hide Wired, SetEntry, EntryOf, Present;
    NotPresentWord();
    var m', tree' := SetEntry(m, tree, p, !PAGE_PRESENT), tree - {p};
    forall q | SlotOf(tree', q) && Present(EntryOf(m', tree', q))
      ensures q in tree'
    {
      UnlinkedEntry(m, cr3, tree, p, q);
      assert SlotOf(tree, q);
    }
  }

  lemma UnlinkedEntry(m: Memory, cr3: Frame, tree: Tree, p: Path, q: Path)
    requires Wired(m, cr3, tree) && p in tree && SlotOf(tree, p) && q.Sub? && q.parent in tree - {p}
    ensures EntryOf(SetEntry(m, tree, p, !PAGE_PRESENT), tree - {p}, q) ==
            if q == p then !PAGE_PRESENT else EntryOf(m, tree, q)
  {
    SetEntryMeaning(m, cr3, tree, p, !PAGE_PRESENT, q);
    hide Wired, SetEntry, Word;
  }

  lemma RepresentsParent(m: Memory, cr3: Frame, tree: Tree, p: Path)
    requires Represents(m, cr3, tree) && p in tree && p.Sub? && p.parent.Sub?
    ensures p.parent in tree - {p} && SlotOf(tree - {p}, p.parent) && p.slot < 512 && Depth(p.parent) < 4
  {
    ParentSlot(m, cr3, tree, p);
  }

  lemma CountDown(c: nat, n: nat)
    requires c < 512 && n < 512 && (c + 1) % 512 == (n + 1) % 512
    ensures c == n == n % 512
  {}

  /** The count that UnmapPage leaves in the parent's entry says whether that table is empty. */
  lemma ParentCount(m: Memory, cr3: Frame, tree: Tree, p: Path)
    requires Represents(m, cr3, tree) && p in tree && SlotOf(tree, p) && p.Sub? && p.parent.Sub?
    ensures var w := DecEntryCount(EntryOf(SetEntry(m, tree, p, !PAGE_PRESENT), tree - {p}, p.parent));
      CountIn(w) == |Children(tree - {p}, p.parent)| % 512 && (HasEntries(w) <==> Children(tree - {p}, p.parent) != {})
  {
    hide Represents, Wired, EntryOf, CountIn, Children, SetEntry, DecEntryCount, HasEntries, SlotOf, SameTarget;
    RepresentsParent(m, cr3, tree, p);
    var e := EntryOf(SetEntry(m, tree, p, !PAGE_PRESENT), tree - {p}, p.parent);
    ChildrenAfterRemoving(tree, p);
    AtMost512Children(tree, p.parent);
    UnlinkedCount(m, cr3, tree, p, p.parent);
    DecEntryCountMeaning(e);
    HasEntriesMeaning(DecEntryCount(e));
    CountDown(CountIn(DecEntryCount(e)), |Children(tree - {p}, p.parent)|);
  }

  lemma UnlinkCounts(m: Memory, cr3: Frame, tree: Tree, p: Path)
    requires Represents(m, cr3, tree) && p in tree && SlotOf(tree, p) && p.parent.Sub?
    requires Wired(SetEntry(m, tree, p, !PAGE_PRESENT), cr3, tree - {p})
    ensures var m', tree' := SetEntry(m, tree, p, !PAGE_PRESENT), tree - {p};
      Counted(SetEntry(m', tree', p.parent, DecEntryCount(EntryOf(m', tree', p.parent))), tree')
  {
    ParentSlot(m, cr3, tree, p);
    hide Represents, Wired, EntryOf, CountIn, Children, SetEntry, DecEntryCount, HasEntries, SlotOf;
    var m', tree' := SetEntry(m, tree, p, !PAGE_PRESENT), tree - {p};
    var w := DecEntryCount(EntryOf(m', tree', p.parent));
    ChildrenAfterRemoving(tree, p);
    ParentCount(m, cr3, tree, p);
    forall q | q in tree' && SlotOf(tree', q) && Depth(q) < 4
      ensures q.Sub? && q.parent in tree'
      ensures CountIn(EntryOf(SetEntry(m', tree', p.parent, w), tree', q)) == |Children(tree', q)| % 512
    {
      UnlinkedCount(m, cr3, tree, p, q);
      SetEntryMeaning(m', cr3, tree', p.parent, w, q);
    }
  }

  lemma UnlinkedCount(m: Memory, cr3: Frame, tree: Tree, p: Path, q: Path)
    requires Represents(m, cr3, tree) && p in tree && SlotOf(tree, p)
    requires q in tree - {p} && SlotOf(tree - {p}, q) && Depth(q) < 4
    ensures q.parent in tree - {p}
    ensures CountIn(EntryOf(SetEntry(m, tree, p, !PAGE_PRESENT), tree - {p}, q)) == |Children(tree, q)| % 512
    ensures q.Sub? && q.parent in tree - {p}
  {
    hide Wired, EntryOf, CountIn, Children, SetEntry, Complete;
    UnlinkedEntry(m, cr3, tree, p, q);
    assert SlotOf(tree, q);
  }

  /** One whole level of UnmapPage: the entry and the parent's count. */
  lemma UnlinkAndCount(m: Memory, cr3: Frame, tree: Tree, p: Path)
    requires Represents(m, cr3, tree) && p in tree && SlotOf(tree, p) && Children(tree, p) == {} && p.parent.Sub?
    ensures var m', tree' := SetEntry(m, tree, p, !PAGE_PRESENT), tree - {p};
      var w := DecEntryCount(EntryOf(m', tree', p.parent));
      && Represents(SetEntry(m', tree', p.parent, w), cr3, tree')
      && (HasEntries(w) <==> Children(tree', p.parent) != {})
  {
    ParentSlot(m, cr3, tree, p);
    hide Wired, Complete, Counted, EntryOf, CountIn, SlotOf, SetEntry, DecEntryCount, HasEntries, SameTarget, Children;
    UnlinkWires(m, cr3, tree, p);
    var m', tree' := SetEntry(m, tree, p, !PAGE_PRESENT), tree - {p};
    DecEntryCountMeaning(EntryOf(m', tree', p.parent));
    RecountKeeps(m', cr3, tree', p.parent, DecEntryCount(EntryOf(m', tree', p.parent)));
    UnlinkCounts(m, cr3, tree, p);
    ParentCount(m, cr3, tree, p);
  }

  lemma ParentSlot(m: Memory, cr3: Frame, tree: Tree, p: Path)
    requires Wired(m, cr3, tree) && p in tree && p.Sub? && p.parent.Sub?
    ensures p.parent in tree - {p} && p.parent.parent in tree - {p} && SlotOf(tree - {p}, p.parent) && p.slot < 512
    ensures Depth(p.parent) < 4
  {
    assert Depth(p) == Depth(p.parent) + 1 == Depth(p.parent.parent) + 2;
  }

  lemma UnlinkTop(m: Memory, cr3: Frame, tree: Tree, p: Path)
    requires Represents(m, cr3, tree) && p in tree && SlotOf(tree, p) && Children(tree, p) == {} && p.parent == Top
    ensures Represents(SetEntry(m, tree, p, !PAGE_PRESENT), cr3, tree - {p})
  {
    UnlinkWires(m, cr3, tree, p);
    ChildrenAfterRemoving(tree, p);
    hide Wired, Complete, EntryOf, CountIn, Children, SetEntry;
    var m', tree' := SetEntry(m, tree, p, !PAGE_PRESENT), tree - {p};
    forall q | q in tree' && SlotOf(tree', q) && Depth(q) < 4
      ensures CountIn(EntryOf(m', tree', q)) == |Children(tree', q)| % 512
    {
      UnlinkedCount(m, cr3, tree, p, q);
    }
  }

  // ----- Writing inside a page -----

  /** A write to a page moves nothing in the tables. */
  lemma PageWriteKeeps(m: Memory, cr3: Frame, tree: Tree, p: Path, i: nat, w: bv64)
    requires Wired(m, cr3, tree) && p in tree && Depth(p) == 4 && i < 512
    ensures var m' := SetWord(m, tree[p], i, w);
      && Wired(m', cr3, tree)
      && (Complete(m, tree) ==> Complete(m', tree))
      && (Counted(m, tree) ==> Counted(m', tree))
    ensures forall q: Path :: q.Sub? && q.parent in tree && Depth(q) <= 4 ==>
            EntryOf(SetWord(m, tree[p], i, w), tree, q) == EntryOf(m, tree, q)
  {
    hide Leads, Present, Large, FrameIn, CountIn, Children, Word, SetWord;
    var m' := SetWord(m, tree[p], i, w);
    assert Top != p;
    SetWordMeaning(m, tree[p], i, w, cr3, 510);
    forall f | f in m ensures f in m' { SetWordMeaning(m, tree[p], i, w, f, 0); }
    forall q: Path | q.Sub? && q.parent in tree && Depth(q) <= 4
      ensures EntryOf(m', tree, q) == EntryOf(m, tree, q)
    {
      assert q.parent != p;
      SetWordMeaning(m, tree[p], i, w, tree[q.parent], q.slot);
    }
  }

  /** A write to a table changes no word of a page. */
  lemma TableWriteKeepsPages(m: Memory, cr3: Frame, tree: Tree, p: Path, e: bv64, q: Path, i: nat)
    requires Wired(m, cr3, tree) && SlotOf(tree, p) && q in tree && Depth(q) == 4
    ensures Word(SetEntry(m, tree, p, e), tree[q], i) == Word(m, tree[q], i)
  {
    hide Leads, SelfEntry, Word, SetWord;
    SetWordMeaning(m, tree[p.parent], p.slot, e, tree[q], i);
  }
}
