/** The page tables that Initialize builds before paging is its own: the kernel image, page by page. */
module Boot {
  import opened Options
  import opened Words
  import opened Paging
  import opened Frames
  import opened Tables
  import opened Machine

  // ----- The shape of the image -----

  /** The table that maps the 1 GiB from 0xFFFFFFFF80000000 on. */
  function ImageTable(): Path { Sub(Sub(Top, 511), 510) }

  function TableNode(j: nat): Path { Sub(ImageTable(), j) }

  function PageNode(j: nat, k: nat): Path { Sub(TableNode(j), k) }

  predicate IsTableNode(q: Path) { q.Sub? && q.parent == ImageTable() }

  predicate IsPageNode(q: Path) { q.Sub? && IsTableNode(q.parent) }

  function PageOfNode(q: Path): nat
    requires IsPageNode(q)
  {
    q.parent.slot * 512 + q.slot
  }

  ghost predicate ImageNode(q: Path) {
    q == Top || q == Sub(Top, 511) || q == ImageTable() || IsTableNode(q) || IsPageNode(q)
  }

  /** Tables have the pages from `first` up to `end`; there are `tables` of the lowest kind, and the
      first n pages of the image are mapped, each to itself. */
  ghost predicate Image(tree: Tree, n: nat, tables: nat, first: nat, end: nat) {
    && Top in tree && Sub(Top, 511) in tree && ImageTable() in tree
    && (forall q :: q in tree ==> ImageNode(q) && Good(tree[q].paddr))
    && (forall q :: q in tree && IsTableNode(q) ==> q.slot < tables)
    && (forall q :: q in tree && IsPageNode(q) ==>
        q.slot < 512 && PageOfNode(q) < n && PageNumber(tree[q].paddr) == PageOfNode(q))
    && (forall q :: q in tree && !IsPageNode(q) ==> first <= PageNumber(tree[q].paddr) < end)
    && (forall j: nat :: j < tables ==> TableNode(j) in tree)
    && (forall j: nat, k: nat :: k < 512 && j * 512 + k < n ==> PageNode(j, k) in tree)
  }

  lemma NumbersApart(tree: Tree, n: nat, tables: nat, first: nat, end: nat, frame: Frame)
    requires Image(tree, n, tables, first, end) && n <= first
    requires PageNumber(frame.paddr) == n < first || PageNumber(frame.paddr) == end
    requires first <= end
    ensures frame !in tree.Values
  {
    hide PageNumber, Good, IsPageNode;
    forall q | q in tree ensures tree[q] != frame {}
  }

  /** The table TableNode(tables) is like no other node. */
  lemma TableIsNew(tree: Tree, n: nat, tables: nat, first: nat, end: nat)
    requires Image(tree, n, tables, first, end)
    ensures var p := TableNode(tables); p !in tree && ImageNode(p) && IsTableNode(p) && !IsPageNode(p)
    ensures TableNode(tables) != Top && TableNode(tables) != Sub(Top, 511) && TableNode(tables) != ImageTable()
    ensures forall j: nat, k: nat :: PageNode(j, k) != TableNode(tables)
  {
    hide PageNumber, Good;
    assert IsTableNode(TableNode(tables)) && !IsPageNode(TableNode(tables));
    forall j: nat, k: nat ensures PageNode(j, k) != TableNode(tables) { assert IsPageNode(PageNode(j, k)); }
  }

  lemma AddTable(tree: Tree, n: nat, tables: nat, first: nat, end: nat, frame: Frame)
    requires Image(tree, n, tables, first, end)
    requires Good(frame.paddr) && PageNumber(frame.paddr) == end && first <= end
    ensures TableNode(tables) !in tree
    ensures Image(tree[TableNode(tables) := frame], n, tables + 1, first, end + 1)
  {
    hide PageNumber, Good, IsPageNode, PageOfNode, ImageNode;
    TableIsNew(tree, n, tables, first, end);
  }

  lemma AddPage(tree: Tree, n: nat, tables: nat, first: nat, end: nat, frame: Frame)
    requires Image(tree, n, tables, first, end)
    requires Good(frame.paddr) && PageNumber(frame.paddr) == n < tables * 512
    ensures PageNode(n / 512, n % 512) !in tree && TableNode(n / 512) in tree
    ensures Image(tree[PageNode(n / 512, n % 512) := frame], n + 1, tables, first, end)
  {
    hide PageNumber, Good;
    var p := PageNode(n / 512, n % 512);
    assert IsPageNode(p) && PageOfNode(p) == n && !IsTableNode(p);
    forall j: nat, k: nat | k < 512 && j * 512 + k < n + 1
      ensures PageNode(j, k) in tree[p := frame]
    {
      if j * 512 + k == n { assert j == n / 512 && k == n % 512; }
    }
  }

  // ----- The image in memory -----

  /** The first and the last page of the kernel's code, as Initialize compares them. */
  datatype Code = Code(start: bv64, data: bv64)

  predicate IsCode(c: Code, a: bv64) {
    !Before(a, Paddr(Align(c.start))) && Before(a, Paddr(Align(c.data)))
  }

  /** A page is code when it begins neither below the start of the code nor at or behind the start of the data. */
  lemma CodeMeaning(c: Code, a: bv64)
    requires Good(a) && EndsLow(c.start) && EndsLow(c.data)
    ensures IsCode(c, a) <==> !Before(a, Paddr(c.start)) && Before(a, Paddr(c.data))
  {
    hide Good, PageNumber, Before, Paddr, Align, EndsLow;
    BeforeEnd(a, c.start);
    BeforeEnd(a, c.data);
    BeforeInNumbers(a, Paddr(Align(c.start)));
    BeforeInNumbers(a, Paddr(Align(c.data)));
  }

  lemma BeforeInNumbers(a: bv64, b: bv64)
    requires Good(a) && Good(b)
    ensures Before(a, b) <==> PageNumber(a) < PageNumber(b)
  {
    hide Good, PageNumber, Before;
    if PageNumber(a) < PageNumber(b) {
      PageOrder(a, b);
    } else if PageNumber(a) == PageNumber(b) {
      PageInjective(a, b);
      NotBeforeItself(a);
    } else {
      PageOrder(b, a);
      NotBeforeBoth(b, a);
    }
  }

  function LeafEntry(c: Code, a: bv64): bv64 { if IsCode(c, a) then CodeEntry(a) else DataEntry(a) }

  /** Pages have the entry made for them; tables on the way take no right away but that of user mode. */
  ghost predicate EntryFits(c: Code, q: Path, frame: Frame, e: bv64) {
    if IsPageNode(q) then e == LeafEntry(c, frame.paddr) else Writable(e) && !NoExecute(e) && !UserMode(e)
  }

  ghost predicate Entries(m: Memory, tree: Tree, c: Code) {
    forall q :: q in tree && q.Sub? ==> EntryFits(c, q, tree[q], EntryOf(m, tree, q))
  }

  ghost predicate Built(m: Memory, cr3: Frame, tree: Tree, c: Code, n: nat, tables: nat, first: nat, end: nat) {
    Represents(m, cr3, tree) && Entries(m, tree, c) && Image(tree, n, tables, first, end)
  }

  /** One more node of the image. */
  lemma EntriesAfter(m: Memory, cr3: Frame, tree: Tree, c: Code, p: Path, frame: Frame, e: bv64)
    requires Linkable(m, cr3, tree, p, frame, e) && Counted(m, tree) && Entries(m, tree, c)
    requires p.Sub? && EntryFits(c, p, frame, e) && !IsPageNode(p.parent)
    requires forall q :: q in tree && q.Sub? ==> q.slot < 512 && q.parent in tree
    ensures var m', tree' := Levelled(m, tree, p, frame, e), tree[p := frame];
      Represents(m', cr3, tree') && Entries(m', tree', c)
  {
    var m', tree' := Levelled(m, tree, p, frame, e), tree[p := frame];
    LinkableFacts(m, cr3, tree, p, frame, e);
    LevelledTables(m, cr3, tree, p, frame, e);
    hide Linkable, Wired, Complete, Counted, Levelled, EntryOf, IncEntryCount, LeafEntry, Writable, NoExecute,
      UserMode, IsPageNode;
    forall q | q in tree' && q.Sub?
      ensures EntryFits(c, q, tree'[q], EntryOf(m', tree', q))
    {
      LevelledEntry(m, cr3, tree, p, frame, e, q);
      IncKeepsRights(EntryOf(m, tree, q));
    }
  }

  lemma SlotsInTree(m: Memory, cr3: Frame, tree: Tree)
    requires Wired(m, cr3, tree)
    ensures forall q :: q in tree && q.Sub? ==> q.slot < 512 && q.parent in tree
  {}

  lemma LeafEntryMeaning(c: Code, a: bv64)
    requires Good(a)
    ensures Leads(LeafEntry(c, a), Frame(a), false) && CountIn(LeafEntry(c, a)) == 0
    ensures Writable(LeafEntry(c, a)) == !IsCode(c, a) && NoExecute(LeafEntry(c, a)) == !IsCode(c, a)
    ensures !UserMode(LeafEntry(c, a))
  {
    hide Present, FrameIn, Masked, Large, Writable, NoExecute, UserMode, CodeEntry, DataEntry, CountIn, Good, IsCode;
    CodeEntryMeaning(a);
    DataEntryMeaning(a);
  }

  lemma TableEntryLeads(a: bv64)
    requires Good(a)
    ensures Leads(TableEntry(a), Frame(a), true) && CountIn(TableEntry(a)) == 0
    ensures Writable(TableEntry(a)) && !NoExecute(TableEntry(a)) && !UserMode(TableEntry(a))
  {
    hide Present, FrameIn, Masked, Large, Writable, NoExecute, UserMode, TableEntry, CountIn, Good;
    TableEntryMeaning(a);
  }

  lemma NodeShapes(j: nat, k: nat)
    ensures Depth(TableNode(j)) == 3 && Depth(PageNode(j, k)) == 4
    ensures !IsPageNode(TableNode(j)) && IsPageNode(PageNode(j, k)) && !IsPageNode(ImageTable())
    ensures TableNode(j) != Path1(510) && PageNode(j, k) != Path1(510)
  {}

  /** A new P1 table. */
  lemma BuildTable(m: Memory, cr3: Frame, tree: Tree, c: Code, n: nat, tables: nat, first: nat, end: nat, a: bv64)
    requires Built(m, cr3, tree, c, n, tables, first, end) && n <= first <= end && tables < 512
    requires Good(a) && PageNumber(a) == end && Frame(a) in m
    ensures TableNode(tables) !in tree
    ensures Built(Levelled(m, tree, TableNode(tables), Frame(a), TableEntry(a)), cr3,
                  tree[TableNode(tables) := Frame(a)], c, n, tables + 1, first, end + 1)
  {
    var p := TableNode(tables);
    NodeShapes(tables, 0);
    AddTable(tree, n, tables, first, end, Frame(a));
    NumbersApart(tree, n, tables, first, end, Frame(a));
    TableEntryLeads(a);
    assert ImageTable() in tree;
    hide Wired, Complete, Counted, Levelled, EntryOf, Writable, NoExecute, IsPageNode, Image, Good, TableEntry, Leads,
      CountIn, Entries;
    SlotsInTree(m, cr3, tree);
    EntriesAfter(m, cr3, tree, c, p, Frame(a), TableEntry(a));
  }

  /** The next page of the image. */
  lemma BuildPage(m: Memory, cr3: Frame, tree: Tree, c: Code, n: nat, tables: nat, first: nat, end: nat, a: bv64)
    requires Built(m, cr3, tree, c, n, tables, first, end) && n < first && n < tables * 512 && first <= end
    requires Good(a) && PageNumber(a) == n && Frame(a) in m
    ensures TableNode(n / 512) in tree && PageNode(n / 512, n % 512) !in tree
    ensures Built(Levelled(m, tree, PageNode(n / 512, n % 512), Frame(a), LeafEntry(c, a)), cr3,
                  tree[PageNode(n / 512, n % 512) := Frame(a)], c, n + 1, tables, first, end)
  {
    var p := PageNode(n / 512, n % 512);
    NodeShapes(n / 512, n % 512);
    AddPage(tree, n, tables, first, end, Frame(a));
    NumbersApart(tree, n, tables, first, end, Frame(a));
    LeafEntryMeaning(c, a);
    hide Wired, Complete, Counted, Levelled, EntryOf, Writable, NoExecute, IsPageNode, Image, Good, LeafEntry, Leads,
      CountIn, Entries, IsCode;
    SlotsInTree(m, cr3, tree);
    EntriesAfter(m, cr3, tree, c, p, Frame(a), LeafEntry(c, a));
  }

  // ----- The three tables that every image starts with -----

  /** The self entry alone. */
  lemma SelfEntryOnly(m: Memory, f: Frame, c: Code)
    requires Ram(m) && f in m && m[f] == EmptyTable() && Good(f.paddr)
    ensures var m', tree := SetWord(m, f, 510, TableEntry(f.paddr)), map[Top := f];
      Represents(m', f, tree) && Entries(m', tree, c)
  {
    var m', tree := SetWord(m, f, 510, TableEntry(f.paddr)), map[Top := f];
    hide Present, FrameIn, Masked, Large, TableEntry, CountIn, Good, SetWord;
    TableEntryMeaning(f.paddr);
    NotPresentWord();
    SetWordMeaning(m, f, 510, TableEntry(f.paddr), f, 510);
    forall i: nat | i < 512 && i != 510
      ensures !Present(Word(m', f, i))
    {
      SetWordMeaning(m, f, 510, TableEntry(f.paddr), f, i);
    }
  }

  lemma StartLinkable(m: Memory, cr3: Frame, tree: Tree, p: Path, a: bv64)
    requires Represents(m, cr3, tree) && SlotOf(tree, p) && p !in tree && Good(a) && Frame(a) !in tree.Values
    requires Frame(a) in m
    ensures Linkable(m, cr3, tree, p, Frame(a), TableEntry(a)) && p.Sub?
    ensures forall q :: q in tree && q.Sub? ==> q.slot < 512 && q.parent in tree
  {
    SlotsInTree(m, cr3, tree);
    hide Wired, Complete, Counted, Present, Leads, TableEntry, CountIn, Good;
    TableEntryLeads(a);
  }

  /** A table that is already clear need not be cleared again. */
  lemma AlreadyClear(m: Memory, tree: Tree, p: Path, f: Frame, e: bv64)
    requires p.Sub? && p.parent in tree && tree[p.parent] != f && f in m && m[f] == EmptyTable()
    ensures Linked(m, tree, p, f, e) == SetEntry(m, tree, p, e)
  {
    var m' := SetEntry(m, tree, p, e);
    assert m'[f] == EmptyTable();
    assert m'[f := EmptyTable()] == m';
  }

  function StartTree(f4: Frame, f3: Frame, f2: Frame): Tree {
    map[Top := f4][Sub(Top, 511) := f3][ImageTable() := f2]
  }

  /** P4's self entry, P4 to P3, P3 to P2, and the count of P3's one entry. */
  function StartMemory(m: Memory, f4: Frame, f3: Frame, f2: Frame): Memory {
    var m1 := SetWord(m, f4, 510, TableEntry(f4.paddr));
    var m2 := SetWord(m1, f4, 511, TableEntry(f3.paddr));
    var m3 := SetWord(m2, f3, 510, TableEntry(f2.paddr));
    SetWord(m3, f4, 511, IncEntryCount(Word(m3, f4, 511)))
  }

  lemma StartStep(m: Memory, cr3: Frame, tree: Tree, c: Code, p: Path, f: Frame)
    requires Represents(m, cr3, tree) && Entries(m, tree, c) && SlotOf(tree, p) && p !in tree && !IsPageNode(p)
    requires p.Sub? && !IsPageNode(p.parent)
    requires Good(f.paddr) && f !in tree.Values && f in m && m[f] == EmptyTable()
    ensures p.parent in tree && tree[p.parent] != f
    ensures var m1, tree' := SetEntry(m, tree, p, TableEntry(f.paddr)), tree[p := f];
      var m' := if p.parent.Sub? then SetEntry(m1, tree', p.parent, IncEntryCount(EntryOf(m1, tree', p.parent)))
                else m1;
      Represents(m', cr3, tree') && Entries(m', tree', c)
  {
    assert p.parent in tree && tree[p.parent] in tree.Values;
    hide Represents, Present, Leads, TableEntry, CountIn, Good, IsPageNode, SlotOf, SetEntry, EntryOf, Entries,
      Writable, NoExecute, Linkable, IncEntryCount, Linked;
    StartLinkable(m, cr3, tree, p, f.paddr);
    AlreadyClear(m, tree, p, f, TableEntry(f.paddr));
    TableEntryLeads(f.paddr);
    assert Counted(m, tree) by { RepresentsCounts(m, cr3, tree); }
    EntriesAfter(m, cr3, tree, c, p, f, TableEntry(f.paddr));
  }

  lemma RepresentsCounts(m: Memory, cr3: Frame, tree: Tree)
    requires Represents(m, cr3, tree)
    ensures Counted(m, tree)
  {}

  lemma Start(m: Memory, f4: Frame, f3: Frame, f2: Frame, c: Code)
    requires Ram(m) && f4 != f3 && f4 != f2 && f3 != f2 && Good(f4.paddr) && Good(f3.paddr) && Good(f2.paddr)
    requires f4 in m && f3 in m && f2 in m && m[f4] == m[f3] == m[f2] == EmptyTable()
    ensures Represents(StartMemory(m, f4, f3, f2), f4, StartTree(f4, f3, f2))
    ensures Entries(StartMemory(m, f4, f3, f2), StartTree(f4, f3, f2), c)
  {
    var m1 := SetWord(m, f4, 510, TableEntry(f4.paddr));
    var t1: Tree := map[Top := f4];
    var p := Sub(Top, 511);
    var t2 := t1[p := f3];
    var m2 := SetEntry(m1, t1, p, TableEntry(f3.paddr));
    assert SlotOf(t1, p) && SlotOf(t2, ImageTable());
    assert m1[f3] == EmptyTable() && m1[f2] == EmptyTable() && m2[f2] == EmptyTable();
    hide Represents, Present, TableEntry, CountIn, Good, SlotOf, Entries, IncEntryCount;
    SelfEntryOnly(m, f4, c);
    StartStep(m1, f4, t1, c, p, f3);
    StartStep(m2, f4, t2, c, ImageTable(), f2);
  }

  lemma StartImage(f4: Frame, f3: Frame, f2: Frame, first: nat)
    requires Good(f4.paddr) && Good(f3.paddr) && Good(f2.paddr)
    requires PageNumber(f4.paddr) == first && PageNumber(f3.paddr) == first + 1 && PageNumber(f2.paddr) == first + 2
    ensures Image(StartTree(f4, f3, f2), 0, 0, first, first + 3)
  {
    hide Good, PageNumber;
  }

  // ----- The two blocks of the construction loop -----

  /** Linking a node and counting it, spelled out as writes to frames. */
  lemma LevelledWrites(m: Memory, tree: Tree, p: Path, frame: Frame, e: bv64, g: Frame, h: Frame)
    requires p.Sub? && p.parent.Sub? && p.parent in tree && p.parent.parent in tree
    requires p !in tree && p.parent != p && p.parent.parent != p
    requires tree[p.parent] == g && tree[p.parent.parent] == h
    ensures var m1 := SetWord(m, g, p.slot, e);
      var m2 := if Depth(p) < 4 then m1[frame := EmptyTable()] else m1;
      SetWord(m2, h, p.parent.slot, IncEntryCount(Word(m2, h, p.parent.slot))) == Levelled(m, tree, p, frame, e)
  {
    hide SetWord, Word, IncEntryCount;
  }

  lemma BuiltRam(m: Memory, cr3: Frame, tree: Tree, c: Code, n: nat, tables: nat, first: nat, end: nat)
    requires Built(m, cr3, tree, c, n, tables, first, end)
    ensures Ram(m)
  {}

  lemma NodesInTree(m: Memory, cr3: Frame, tree: Tree, c: Code, n: nat, tables: nat, first: nat, end: nat)
    requires Built(m, cr3, tree, c, n, tables, first, end)
    ensures Sub(Top, 511) in tree && ImageTable() in tree && Top in tree
    ensures forall j: nat :: TableNode(j) in tree <==> j < tables
  {
    hide Represents, Entries, Good, PageNumber;
    forall j: nat | TableNode(j) in tree ensures j < tables { assert IsTableNode(TableNode(j)); }
  }

  /** The P2 entry is present exactly when the table is there. */
  lemma TablePresent(m: Memory, cr3: Frame, tree: Tree, c: Code, n: nat, tables: nat, first: nat, end: nat, j: nat,
                     p2: Frame)
    requires Built(m, cr3, tree, c, n, tables, first, end) && j < 512 && tree[ImageTable()] == p2
    ensures Present(Word(m, p2, j)) <==> j < tables
  {
    NodesInTree(m, cr3, tree, c, n, tables, first, end);
    hide Image, Entries, Counted, Present, Word;
    assert EntryOf(m, tree, TableNode(j)) == Word(m, p2, j);
    assert SlotOf(tree, TableNode(j));
    if j < tables { assert Leads(EntryOf(m, tree, TableNode(j)), tree[TableNode(j)], true); }
  }

  /** There is RAM for the first `end` frames. */
  ghost predicate Covers(m: Memory, end: nat) {
    Ram(m) && forall a :: Good(a) && PageNumber(a) < end ==> Frame(a) in m
  }

  /** No frame of RAM goes away. */
  ghost predicate RamKept(m: Memory, m': Memory) { forall f :: f in m ==> f in m' }

  lemma CoversFrame(m: Memory, end: nat, a: bv64)
    requires Covers(m, end) && Good(a) && PageNumber(a) < end
    ensures Frame(a) in m && Ram(m)
  {}

  lemma LevelledCovers(m: Memory, end: nat, tree: Tree, p: Path, frame: Frame, e: bv64)
    requires Covers(m, end) && Ram(Levelled(m, tree, p, frame, e))
    ensures Covers(Levelled(m, tree, p, frame, e), end)
    ensures RamKept(m, Levelled(m, tree, p, frame, e))
  {
    hide Good, Levelled, PageNumber;
    forall f | f in m ensures f in Levelled(m, tree, p, frame, e) { LevelledRam(m, tree, p, frame, e, f); }
  }

  /** The writes that make the P1 table `a` and count it. */
  function TableMade(m: Memory, p3: Frame, p2: Frame, slot: nat, a: bv64): Memory {
    var m2 := SetWord(m, p2, slot, TableEntry(a))[Frame(a) := EmptyTable()];
    SetWord(m2, p3, 510, IncEntryCount(Word(m2, p3, 510)))
  }

  /** The writes that map a page of the image and count it. */
  function PageMade(m: Memory, p2: Frame, p1: Frame, table: nat, slot: nat, e: bv64): Memory {
    var m1 := SetWord(m, p1, slot, e);
    SetWord(m1, p2, table, IncEntryCount(Word(m1, p2, table)))
  }

  /** The first n frames keep their contents. */
  ghost predicate LowKept(m: Memory, m': Memory, n: nat) {
    forall f :: f in m && Good(f.paddr) && PageNumber(f.paddr) < n ==> f in m' && m'[f] == m[f]
  }

  lemma LowKeptTwice(m: Memory, m': Memory, m'': Memory, n: nat)
    requires LowKept(m, m', n) && LowKept(m', m'', n)
    ensures LowKept(m, m'', n)
  {
    hide Good, PageNumber;
  }

  lemma SetWordLow(m: Memory, f: Frame, i: nat, w: bv64, n: nat)
    requires PageNumber(f.paddr) >= n
    ensures LowKept(m, SetWord(m, f, i, w), n)
  {
    hide Good, PageNumber;
  }

  lemma ClearedLow(m: Memory, f: Frame, n: nat)
    requires PageNumber(f.paddr) >= n
    ensures LowKept(m, m[f := EmptyTable()], n)
  {
    hide Good, PageNumber;
  }

  lemma TableMadeLow(m: Memory, p3: Frame, p2: Frame, slot: nat, a: bv64, n: nat)
    requires PageNumber(p3.paddr) >= n && PageNumber(p2.paddr) >= n && PageNumber(a) >= n
    ensures LowKept(m, TableMade(m, p3, p2, slot, a), n)
  {
    hide PageNumber, LowKept, SetWord, TableEntry, IncEntryCount, Word;
    var m1 := SetWord(m, p2, slot, TableEntry(a));
    var m2 := m1[Frame(a) := EmptyTable()];
    SetWordLow(m, p2, slot, TableEntry(a), n);
    ClearedLow(m1, Frame(a), n);
    SetWordLow(m2, p3, 510, IncEntryCount(Word(m2, p3, 510)), n);
    LowKeptTwice(m, m1, m2, n);
    LowKeptTwice(m, m2, TableMade(m, p3, p2, slot, a), n);
  }

  lemma PageMadeLow(m: Memory, p2: Frame, p1: Frame, table: nat, slot: nat, e: bv64, n: nat)
    requires PageNumber(p2.paddr) >= n && PageNumber(p1.paddr) >= n
    ensures LowKept(m, PageMade(m, p2, p1, table, slot, e), n)
  {
    hide PageNumber, LowKept, SetWord, IncEntryCount, Word;
    var m1 := SetWord(m, p1, slot, e);
    SetWordLow(m, p1, slot, e, n);
    SetWordLow(m1, p2, table, IncEntryCount(Word(m1, p2, table)), n);
    LowKeptTwice(m, m1, PageMade(m, p2, p1, table, slot, e), n);
  }

  lemma StartMemoryLow(m: Memory, f4: Frame, f3: Frame, f2: Frame, n: nat)
    requires PageNumber(f4.paddr) >= n && PageNumber(f3.paddr) >= n
    ensures LowKept(m, StartMemory(m, f4, f3, f2), n)
  {
    hide PageNumber, LowKept, SetWord, TableEntry, IncEntryCount, Word;
    var m1 := SetWord(m, f4, 510, TableEntry(f4.paddr));
    var m2 := SetWord(m1, f4, 511, TableEntry(f3.paddr));
    var m3 := SetWord(m2, f3, 510, TableEntry(f2.paddr));
    SetWordLow(m, f4, 510, TableEntry(f4.paddr), n);
    SetWordLow(m1, f4, 511, TableEntry(f3.paddr), n);
    SetWordLow(m2, f3, 510, TableEntry(f2.paddr), n);
    SetWordLow(m3, f4, 511, IncEntryCount(Word(m3, f4, 511)), n);
    LowKeptTwice(m, m1, m2, n);
    LowKeptTwice(m, m2, m3, n);
    LowKeptTwice(m, m3, StartMemory(m, f4, f3, f2), n);
  }

  lemma TableMadeIs(m: Memory, tree: Tree, p3: Frame, p2: Frame, j: nat, a: bv64)
    requires ImageTable() in tree && Sub(Top, 511) in tree && TableNode(j) !in tree
    requires tree[Sub(Top, 511)] == p3 && tree[ImageTable()] == p2
    ensures TableMade(m, p3, p2, j, a) == Levelled(m, tree, TableNode(j), Frame(a), TableEntry(a))
  {
    NodeShapes(j, 0);
    hide TableEntry, Levelled;
    LevelledWrites(m, tree, TableNode(j), Frame(a), TableEntry(a), p2, p3);
  }

  lemma PageMadeIs(m: Memory, tree: Tree, p2: Frame, p1: Frame, j: nat, k: nat, frame: Frame, e: bv64)
    requires ImageTable() in tree && TableNode(j) in tree && PageNode(j, k) !in tree
    requires tree[ImageTable()] == p2 && tree[TableNode(j)] == p1
    ensures PageMade(m, p2, p1, j, k, e) == Levelled(m, tree, PageNode(j, k), frame, e)
  {
    NodeShapes(j, k);
    hide Levelled;
    LevelledWrites(m, tree, PageNode(j, k), frame, e, p1, p2);
  }

  lemma TableBlock(m: Memory, cr3: Frame, tree: Tree, c: Code, n: nat, tables: nat, first: nat, end: nat,
                   p3: Frame, p2: Frame, a: bv64, ram: nat)
    requires Built(m, cr3, tree, c, n, tables, first, end) && n <= first <= end && tables < 512
    requires Good(a) && PageNumber(a) == end < ram && Covers(m, ram)
    requires tree[Sub(Top, 511)] == p3 && tree[ImageTable()] == p2
    ensures var m', t := TableMade(m, p3, p2, tables, a), tree[TableNode(tables) := Frame(a)];
      && Built(m', cr3, t, c, n, tables + 1, first, end + 1)
      && t[Sub(Top, 511)] == p3 && t[ImageTable()] == p2 && t[TableNode(tables)] == Frame(a)
      && Covers(m', ram) && RamKept(m, m')
  {
    hide Built, Good, PageNumber, TableEntry, Levelled, Covers, RamKept, TableMade;
    var p, t := TableNode(tables), tree[TableNode(tables) := Frame(a)];
    NodesInTree(m, cr3, tree, c, n, tables, first, end);
    TableMadeIs(m, tree, p3, p2, tables, a);
    CoversFrame(m, ram, a);
    BuildTable(m, cr3, tree, c, n, tables, first, end, a);
    BuiltRam(Levelled(m, tree, p, Frame(a), TableEntry(a)), cr3, t, c, n, tables + 1, first, end + 1);
    LevelledCovers(m, ram, tree, p, Frame(a), TableEntry(a));
  }

  lemma PageBlock(m: Memory, cr3: Frame, tree: Tree, c: Code, n: nat, tables: nat, first: nat, end: nat,
                  p2: Frame, p1: Frame, a: bv64, ram: nat)
    requires Built(m, cr3, tree, c, n, tables, first, end) && n < first && tables == n / 512 + 1 && first <= end
    requires Good(a) && PageNumber(a) == n < ram && Covers(m, ram)
    requires tree[ImageTable()] == p2 && TableNode(n / 512) in tree && tree[TableNode(n / 512)] == p1
    ensures var m' := PageMade(m, p2, p1, n / 512, n % 512, LeafEntry(c, a));
            var t := tree[PageNode(n / 512, n % 512) := Frame(a)];
      && Built(m', cr3, t, c, n + 1, tables, first, end)
      && Sub(Top, 511) in tree && t[Sub(Top, 511)] == tree[Sub(Top, 511)]
      && t[ImageTable()] == p2 && t[TableNode(n / 512)] == p1
      && Covers(m', ram) && RamKept(m, m')
  {
    hide Built, Good, PageNumber, LeafEntry, Levelled, Covers, RamKept, PageMade;
    var j, k := n / 512, n % 512;
    var p, t := PageNode(j, k), tree[PageNode(j, k) := Frame(a)];
    NodesInTree(m, cr3, tree, c, n, tables, first, end);
    CoversFrame(m, ram, a);
    BuildPage(m, cr3, tree, c, n, tables, first, end, a);
    PageMadeIs(m, tree, p2, p1, j, k, Frame(a), LeafEntry(c, a));
    BuiltRam(Levelled(m, tree, p, Frame(a), LeafEntry(c, a)), cr3, t, c, n + 1, tables, first, end);
    LevelledCovers(m, ram, tree, p, Frame(a), LeafEntry(c, a));
  }

  // ----- What the finished image maps -----

  lemma {:induction false} TableRights(m: Memory, cr3: Frame, tree: Tree, c: Code, q: Path)
    requires Represents(m, cr3, tree) && Entries(m, tree, c) && q in tree && !IsPageNode(q)
    requires forall p :: p in tree && IsPageNode(p) ==> Depth(p) == 4
    ensures RightsAt(m, cr3, q) == Rights(true, true, q == Top)
  {
    hide Writable, NoExecute, UserMode, Complete, Counted, SelfEntry, Leads, EntryOf, IsPageNode, LeafEntry;
    if q.Sub? {
      WalkToNode(m, cr3, tree, q);
      TableRights(m, cr3, tree, c, q.parent);
    }
  }

  lemma PageNodeDepth(q: Path)
    requires IsPageNode(q)
    ensures Depth(q) == 4 && !IsPageNode(q.parent)
  {
    assert Depth(ImageTable()) == 2;
  }

  lemma PageRights(m: Memory, cr3: Frame, tree: Tree, c: Code, q: Path)
    requires Represents(m, cr3, tree) && Entries(m, tree, c) && q in tree && IsPageNode(q) && Good(tree[q].paddr)
    ensures RightsAt(m, cr3, q) == Rights(!IsCode(c, tree[q].paddr), IsCode(c, tree[q].paddr), false)
  {
    PageNodeDepth(q);
    forall p | p in tree && IsPageNode(p) ensures Depth(p) == 4 { PageNodeDepth(p); }
    assert q.parent in tree;
    hide Writable, NoExecute, UserMode, Complete, Counted, SelfEntry, Leads, EntryOf, IsPageNode, LeafEntry, IsCode,
      Good, Depth;
    WalkToNode(m, cr3, tree, q);
    TableRights(m, cr3, tree, c, q.parent);
    LeafEntryMeaning(c, tree[q].paddr);
  }

  lemma AddressInImage(tree: Tree, n: nat, tables: nat, first: nat, end: nat, v: bv64)
    requires Image(tree, n, tables, first, end) && n <= 0x40000 && KernelWindow(v) && PageNumber(ImagePage(v)) < n
    ensures PathOf(v) in tree
  {
    SlotsAreSmall(v);
    hide Good, PageNumber, P4Slot, P3Slot, P2Slot, P1Slot, KernelWindow, ImagePage, Low9;
    ImageNumber(v);
    assert PageNode(P2Slot(v), P1Slot(v)) in tree && PathOf(v) == PageNode(P2Slot(v), P1Slot(v));
  }

  lemma ImageNodeSlots(tree: Tree, n: nat, tables: nat, first: nat, end: nat, v: bv64)
    requires Image(tree, n, tables, first, end) && PathOf(v) in tree
    ensures IsPageNode(PathOf(v)) && P4Slot(v) == 511 && P3Slot(v) == 510
    ensures PageOfNode(PathOf(v)) == P2Slot(v) * 512 + P1Slot(v) < n
    ensures Good(tree[PathOf(v)].paddr) && PageNumber(tree[PathOf(v)].paddr) == PageOfNode(PathOf(v))
  {
    DepthOfPath(v);
    hide Good, PageNumber, P4Slot, P3Slot, P2Slot, P1Slot, Low9;
  }

  lemma ImageOfAddress(tree: Tree, n: nat, tables: nat, first: nat, end: nat, v: bv64)
    requires Image(tree, n, tables, first, end) && Canonical(v) && n <= 0x40000 && PathOf(v) in tree
    ensures KernelWindow(v) && PageNumber(ImagePage(v)) < n
    ensures IsPageNode(PathOf(v)) && tree[PathOf(v)] == Frame(ImagePage(v))
  {
    hide Image, Good, PageNumber, P4Slot, P3Slot, P2Slot, P1Slot, UpperHalf, Canonical, KernelWindow, ImagePage,
      PathOf, PageOfNode, IsPageNode;
    ImageNodeSlots(tree, n, tables, first, end, v);
    TopSlotIsUpper(v);
    WindowFromSlots(v);
    ImageNumber(v);
    PageInjective(tree[PathOf(v)].paddr, ImagePage(v));
  }

  /** Which addresses the image's nodes stand for. */
  lemma ImageAddress(tree: Tree, n: nat, tables: nat, first: nat, end: nat, v: bv64)
    requires Image(tree, n, tables, first, end) && Canonical(v) && n <= 0x40000
    ensures PathOf(v) in tree <==> KernelWindow(v) && PageNumber(ImagePage(v)) < n
    ensures PathOf(v) in tree ==> IsPageNode(PathOf(v)) && tree[PathOf(v)] == Frame(ImagePage(v))
  {
    hide Image, Good, PageNumber, Canonical, KernelWindow, ImagePage, PathOf, IsPageNode;
    if KernelWindow(v) && PageNumber(ImagePage(v)) < n { AddressInImage(tree, n, tables, first, end, v); }
    if PathOf(v) in tree { ImageOfAddress(tree, n, tables, first, end, v); }
  }

  lemma DepthOfPath(v: bv64)
    ensures Depth(PathOf(v)) == 4
    ensures Depth(Top) == 0 && Depth(Sub(Top, 511)) == 1 && Depth(ImageTable()) == 2
    ensures forall q :: IsTableNode(q) ==> Depth(q) == 3
  {
    hide P4Slot, P3Slot, P2Slot, P1Slot;
    assert Depth(Path1(P4Slot(v))) == 1;
    assert Depth(Path2(P4Slot(v), P3Slot(v))) == 2;
  }

  /** The direct map: outside the recursive window exactly the first n pages of the last 2 GiB are
      mapped, each to the frame with its own number; the pages of the kernel's code are read-only and
      executable, all others writable and not executable; none is open to user mode. */
  lemma DirectMap(m: Memory, cr3: Frame, tree: Tree, c: Code, n: nat, tables: nat, first: nat, end: nat, v: bv64)
    requires Built(m, cr3, tree, c, n, tables, first, end) && n <= 0x40000
    requires Canonical(v) && P4Slot(v) != 510
    ensures Translate(m, cr3, v)
            == if KernelWindow(v) && PageNumber(ImagePage(v)) < n then Some(Frame(ImagePage(v))) else None
    ensures Translate(m, cr3, v).Some? ==>
      RightsAt(m, cr3, PathOf(v)) == Rights(!IsCode(c, ImagePage(v)), IsCode(c, ImagePage(v)), false)
  {
    ImageAddress(tree, n, tables, first, end, v);
    assert PathOf(v) in tree ==> Good(tree[PathOf(v)].paddr);
    hide Wired, Complete, Counted, Entries, Image, Good, PageNumber, P4Slot, Canonical, KernelWindow, ImagePage,
      PathOf, IsPageNode, IsCode,
      Translate, RightsAt;
    TranslateIsTree(m, cr3, tree, v);
    if PathOf(v) in tree {
      PageRights(m, cr3, tree, c, PathOf(v));
    }
  }
}
