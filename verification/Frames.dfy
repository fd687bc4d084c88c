/** Who holds which page frame: the frame manager seen without its memory.

The state is the tree of tables and pages (node to frame), the stack of free frames, and the frames
that the memory map has still to supply. MemoryManager is proved to move exactly like the functions
of this module; what must hold over whole runs is proved here.
*/
module Frames {
  import opened Options
  import opened Words
  import opened Paging

  datatype State = State(tree: map<Path, Frame>, stack: seq<Frame>, supply: seq<Frame>)

  /** The frame source handed to MapPage. */
  datatype Source = FrameStack | MemoryMap

  /** The page that stores slot k of the frame stack, when the stack starts at word `base` of the
      last 2 GiB of the address space. */
  function SlotPath(base: nat, k: nat): Path {
    var page := (base + k) / 512;
    Path4(511, 510 + page / 0x40000, page / 512 % 512, page % 512)
  }

  function Elements(s: seq<Frame>): set<Frame> { set x | x in s }

  function Children(tree: map<Path, Frame>, p: Path): set<nat> {
    set i: nat | i < 512 && Sub(p, i) in tree
  }

  // ----- Transitions -----

  function Take(s: State, from: Source): (r: (Option<Frame>, State))
    ensures |r.1.supply| <= |s.supply|
  {
    match from
    case FrameStack =>
      if s.stack == [] then (None, s) else (Some(s.stack[|s.stack| - 1]), s.(stack := s.stack[..|s.stack| - 1]))
    case MemoryMap =>
      if s.supply == [] then (None, s) else (Some(s.supply[0]), s.(supply := s.supply[1..]))
  }

  /** One level of MapPage: put a frame at a node that has none. */
  function Level(s: State, p: Path, from: Source): (r: (bool, State))
    ensures |r.1.supply| <= |s.supply|
  {
    if p in s.tree then (true, s) else
      var (frame, t) := Take(s, from);
      if frame.None? then (false, t) else (true, t.(tree := t.tree[p := frame.value]))
  }

  /** MapPage: put a frame at every node on the way to p, from the top down; false is ENOMEM. */
  function Establish(s: State, p: Path, from: Source): (r: (bool, State))
    ensures |r.1.supply| <= |s.supply|
  {
    match p
    case Top => (true, s)
    case Sub(q, _) =>
      var (ok, t) := Establish(s, q, from);
      if ok then Level(t, p, from) else (false, t)
  }

  /** PushStackFrame: the frame is dropped when the slot cannot be mapped. */
  function Push(s: State, base: nat, frame: Frame): (t: State)
    ensures |t.supply| <= |s.supply|
  {
    var (ok, t) := Establish(s, SlotPath(base, |s.stack|), MemoryMap);
    if ok then t.(stack := t.stack + [frame]) else t
  }

  /** UnmapPage on a mapped page: give back the frame at p, then every table left empty above it. */
  function Release(s: State, base: nat, p: Path): State
    requires p.Sub? && p in s.tree
    decreases p
  {
    var t := Push(s.(tree := s.tree - {p}), base, s.tree[p]);
    if p.parent == Top || p.parent !in t.tree || Children(t.tree, p.parent) != {} then t
    else Release(t, base, p.parent)
  }

  function Unmap(s: State, base: nat, p: Path): State
    requires p.Sub?
  {
    if p in s.tree then Release(s, base, p) else s
  }

  /** The last loop of Initialize: push every frame that the memory map supplies. */
  function Fill(s: State, base: nat): State
    decreases |s.supply|
  {
    if s.supply == [] then s
    else Fill(Push(s.(supply := s.supply[1..]), base, s.supply[0]), base)
  }

  // ----- Well-formed states -----

  ghost predicate Closed(tree: map<Path, Frame>) {
    && Top in tree
    && forall p :: p in tree && p.Sub? ==> p.parent in tree && p.slot < 512 && Depth(p) <= 4 && p != Path1(510)
  }

  ghost predicate Injective(tree: map<Path, Frame>) {
    forall p, q :: p in tree && q in tree && tree[p] == tree[q] ==> p == q
  }

  ghost predicate NoRepeats(s: seq<Frame>) {
    forall i, j :: 0 <= i < j < |s| ==> s[i] != s[j]
  }

  /** No frame is in two places. */
  ghost predicate Distinct(s: State) {
    && Injective(s.tree) && NoRepeats(s.stack) && NoRepeats(s.supply)
    && (forall p :: p in s.tree ==> s.tree[p] !in s.stack && s.tree[p] !in s.supply)
    && (forall x :: x in s.stack ==> x !in s.supply)
  }

  /** All frames that are in some place. */
  function Held(s: State): set<Frame> { s.tree.Values + Elements(s.stack) + Elements(s.supply) }

  /** A node MapPage may be asked for. */
  ghost predicate Node(p: Path) {
    match p
    case Top => true
    case Sub(q, i) => Node(q) && i < 512 && p != Path1(510)
  }

  ghost predicate Prefix(q: Path, p: Path) {
    q == p || (p.Sub? && Prefix(q, p.parent))
  }

  // ----- Taking frames and building tables -----

  lemma TakeMeaning(s: State, from: Source)
    requires Distinct(s)
    ensures var (frame, t) := Take(s, from);
      && Distinct(t) && t.tree == s.tree
      && (frame.None? ==> t == s)
      && (frame.Some? ==> frame.value !in Held(t) && Held(s) == Held(t) + {frame.value})
  {
    hide Distinct, Held, Take;
    match from
    case FrameStack => TakeStacked(s);
    case MemoryMap => TakeSupplied(s);
  }

  lemma TakeStacked(s: State)
    requires Distinct(s)
    ensures var (frame, t) := Take(s, FrameStack);
      && Distinct(t) && t.tree == s.tree
      && (frame.None? ==> t == s)
      && (frame.Some? ==> frame.value !in Held(t) && Held(s) == Held(t) + {frame.value})
  {
    if s.stack != [] {
      var n := |s.stack| - 1;
      assert s.stack == s.stack[..n] + [s.stack[n]];
    }
  }

  lemma TakeSupplied(s: State)
    requires Distinct(s)
    ensures var (frame, t) := Take(s, MemoryMap);
      && Distinct(t) && t.tree == s.tree
      && (frame.None? ==> t == s)
      && (frame.Some? ==> frame.value !in Held(t) && Held(s) == Held(t) + {frame.value})
  {
    if s.supply != [] {
      var t := Take(s, MemoryMap).1;
      assert s.supply == [s.supply[0]] + t.supply;
      assert forall x :: x in t.supply ==> x in s.supply;
    }
  }

  lemma AddNode(s: State, p: Path, frame: Frame)
    requires Distinct(s) && Closed(s.tree) && p !in s.tree && frame !in Held(s)
    requires p.Sub? && p.parent in s.tree && p.slot < 512 && Depth(p) <= 4 && p != Path1(510)
    ensures var t := s.(tree := s.tree[p := frame]); Distinct(t) && Closed(t.tree) && Held(t) == Held(s) + {frame}
  {
    var t := s.(tree := s.tree[p := frame]);
    assert forall q :: q in s.tree ==> s.tree[q] in s.tree.Values;
    assert t.tree.Values == s.tree.Values + {frame} by {
      assert t.tree[p] == frame;
      forall x | x in s.tree.Values ensures x in t.tree.Values {
        var q :| q in s.tree && s.tree[q] == x;
        assert t.tree[q] == x;
      }
    }
  }

  lemma RemoveNode(s: State, p: Path)
    requires Distinct(s) && Closed(s.tree) && p in s.tree && p.Sub? && Children(s.tree, p) == {}
    ensures var t := s.(tree := s.tree - {p});
      Distinct(t) && Closed(t.tree) && s.tree[p] !in Held(t) && Held(s) == Held(t) + {s.tree[p]}
  {
    var t := s.(tree := s.tree - {p});
    forall q | q in s.tree && q.Sub?
      ensures q.parent != p
    {
      assert q.slot !in Children(s.tree, p);
      assert q == Sub(q.parent, q.slot);
    }
    assert s.tree.Values == t.tree.Values + {s.tree[p]} by {
      forall x | x in s.tree.Values ensures x in t.tree.Values + {s.tree[p]} {
        var q :| q in s.tree && s.tree[q] == x;
        if q != p { assert t.tree[q] == x; }
      }
    }
  }

  lemma LevelMeaning(s: State, p: Path, from: Source)
    requires Distinct(s) && Closed(s.tree) && Node(p) && Depth(p) <= 4 && p.Sub? && p.parent in s.tree
    ensures var (ok, t) := Level(s, p, from);
      && Distinct(t) && Closed(t.tree) && Held(t) == Held(s)
      && (forall q :: q in s.tree ==> q in t.tree && t.tree[q] == s.tree[q])
      && (forall q :: q in t.tree && q !in s.tree ==> q == p)
      && (ok <==> p in t.tree)
      && (!ok ==> Take(t, from).0.None?)
      && (from == FrameStack ==> t.stack <= s.stack && t.supply == s.supply)
      && (from == MemoryMap ==> t.stack == s.stack)
  {
    if p !in s.tree {
      TakeMeaning(s, from);
      var (frame, u) := Take(s, from);
      if frame.Some? {
        AddNode(u, p, frame.value);
      }
    }
    hide Held, Distinct, Closed;
  }

  /** What MapPage does to the frames: conserves them, adds only nodes on the way to p, and
      fails only when its source is empty. */
  lemma {:induction false} EstablishMeaning(s: State, p: Path, from: Source)
    requires Distinct(s) && Closed(s.tree) && Node(p) && Depth(p) <= 4
    ensures var (ok, t) := Establish(s, p, from);
      && Distinct(t) && Closed(t.tree) && Held(t) == Held(s)
      && (forall q :: q in s.tree ==> q in t.tree && t.tree[q] == s.tree[q])
      && (forall q :: q in t.tree && q !in s.tree ==> Prefix(q, p))
      && (ok <==> p in t.tree)
      && (!ok ==> Take(t, from).0.None?)
      && (from == FrameStack ==> t.stack <= s.stack && t.supply == s.supply)
      && (from == MemoryMap ==> t.stack == s.stack)
  {
    hide Held, Distinct, Level, Take;
    if p.Sub? {
      EstablishMeaning(s, p.parent, from);
      var (ok, t) := Establish(s, p.parent, from);
      if ok {
        LevelMeaning(t, p, from);
      }
    }
  }

  lemma {:induction false} EstablishPresent(s: State, p: Path, from: Source)
    requires Closed(s.tree) && p in s.tree
    ensures Establish(s, p, from) == (true, s)
  {
    if p.Sub? {
      EstablishPresent(s, p.parent, from);
    }
  }

  // ----- The running system: after Initialize, before and after every call -----

  function TopSlot(p: Path): nat
    requires p.Sub?
  {
    if p.parent == Top then p.slot else TopSlot(p.parent)
  }

  /** The nodes that callers of Allocate and Free may cause or name: slots 256 to 509. */
  predicate Client(p: Path) { p.Sub? && 256 <= TopSlot(p) <= 509 }

  /** `kernel` is the part of the tree that never changes any more, `pool` the frames that circulate
      between the stack and the callers' part of the tree. */
  datatype Setup = Setup(base: nat, kernel: map<Path, Frame>, pool: set<Frame>)

  ghost predicate Steady(s: State, u: Setup) {
    && Closed(s.tree) && Distinct(s) && s.supply == []
    && (forall k: nat :: k < |u.pool| ==> SlotPath(u.base, k) in u.kernel)
    && (forall p :: p in u.kernel ==> !Client(p) && p in s.tree && s.tree[p] == u.kernel[p])
    && (forall p :: p in s.tree && !Client(p) ==> p in u.kernel)
    && (forall p :: p in s.tree && Client(p) ==> s.tree[p] in u.pool)
    && Elements(s.stack) <= u.pool
  }

  lemma {:induction false} SizeOfElements(s: seq<Frame>)
    requires NoRepeats(s)
    ensures |Elements(s)| == |s|
  {
    if s != [] {
      var n := |s| - 1;
      SizeOfElements(s[..n]);
      assert Elements(s) == Elements(s[..n]) + {s[n]};
    }
  }

  lemma SmallerSet<T>(a: set<T>, b: set<T>)
    requires a <= b
    ensures |a| <= |b|
  {
    assert b == a + (b - a);
  }

  lemma StackHasRoom(s: State, u: Setup, frame: Frame)
    requires Steady(s, u) && frame in u.pool && frame !in s.stack
    ensures |s.stack| < |u.pool|
  {
    SizeOfElements(s.stack);
    SmallerSet(Elements(s.stack) + {frame}, u.pool);
  }

  lemma AppendFrame(s: State, u: Setup, frame: Frame)
    requires Steady(s, u) && frame in u.pool && frame !in Held(s)
    ensures var t := s.(stack := s.stack + [frame]); Steady(t, u) && Held(t) == Held(s) + {frame}
  {
    assert forall p :: p in s.tree ==> s.tree[p] in s.tree.Values;
    assert Elements(s.stack + [frame]) == Elements(s.stack) + {frame};
  }

  /** The stack never outgrows the slots that are already mapped, so no frame is ever dropped. */
  lemma PushIsAppend(s: State, u: Setup, frame: Frame)
    requires Steady(s, u) && frame in u.pool && frame !in Held(s)
    ensures Push(s, u.base, frame) == s.(stack := s.stack + [frame])
  {
    StackHasRoom(s, u, frame);
    EstablishPresent(s, SlotPath(u.base, |s.stack|), MemoryMap);
  }

  lemma RemoveClient(s: State, u: Setup, p: Path)
    requires Steady(s, u) && Client(p) && p in s.tree && Children(s.tree, p) == {}
    ensures var t := s.(tree := s.tree - {p});
      Steady(t, u) && s.tree[p] in u.pool && s.tree[p] !in Held(t) && Held(s) == Held(t) + {s.tree[p]}
  {
    hide Held, SlotPath, Children, Elements, Distinct;
    RemoveNode(s, p);
  }

  /** What one level of UnmapPage does. */
  lemma ReleaseStep(s: State, u: Setup, p: Path)
    requires Steady(s, u) && Client(p) && p in s.tree && Children(s.tree, p) == {}
    ensures var t := Push(s.(tree := s.tree - {p}), u.base, s.tree[p]);
      && t == State(s.tree - {p}, s.stack + [s.tree[p]], [])
      && Steady(t, u) && Held(t) == Held(s)
  {
    hide Steady, Held, Push, Children;
    RemoveClient(s, u, p);
    PushIsAppend(s.(tree := s.tree - {p}), u, s.tree[p]);
    AppendFrame(s.(tree := s.tree - {p}), u, s.tree[p]);
    assert s.supply == [] by { SteadySupply(s, u); }
  }

  lemma SteadySupply(s: State, u: Setup)
    requires Steady(s, u)
    ensures s.supply == []
  {}

  lemma ParentOf(s: State, u: Setup, p: Path)
    requires Steady(s, u) && p in s.tree && Client(p) && p.parent != Top
    ensures p.parent in s.tree && Client(p.parent)
  {}

  /** UnmapPage conserves frames, removes p and otherwise only tables on the way to p, and gives
      back at least one frame. */
  lemma {:induction false} ReleaseMeaning(s: State, u: Setup, p: Path)
    requires Steady(s, u) && Client(p) && p in s.tree && Children(s.tree, p) == {}
    ensures var t := Release(s, u.base, p);
      && Steady(t, u) && Held(t) == Held(s)
      && p !in t.tree
      && (forall q :: q in t.tree ==> q in s.tree && t.tree[q] == s.tree[q])
      && (forall q :: q in s.tree && q !in t.tree ==> Prefix(q, p))
      && |t.stack| > |s.stack|
    decreases p
  {
    hide Steady, Held, Push, Children, TopSlot;
    ReleaseStep(s, u, p);
    var t := Push(s.(tree := s.tree - {p}), u.base, s.tree[p]);
    if p.parent != Top {
      ParentOf(s, u, p);
      if Children(t.tree, p.parent) == {} {
        ReleaseMeaning(t, u, p.parent);
      }
    }
  }

  lemma {:induction false} PrefixOfClient(q: Path, p: Path)
    requires Prefix(q, p) && Client(p) && q != Top
    ensures Client(q)
  {
    if q != p {
      PrefixOfClient(q, p.parent);
    }
  }

  lemma {:induction false} PrefixDepth(q: Path, p: Path)
    requires Prefix(q, p)
    ensures Depth(q) <= Depth(p) && (Depth(q) == Depth(p) ==> q == p)
  {
    if q != p {
      PrefixDepth(q, p.parent);
    }
  }

  /** MapPage on behalf of a caller keeps the running system running, whether it succeeds or not. */
  lemma EstablishSteady(s: State, u: Setup, p: Path)
    requires Steady(s, u) && Client(p) && Node(p) && Depth(p) <= 4
    ensures Steady(Establish(s, p, FrameStack).1, u)
  {
    var t := Establish(s, p, FrameStack).1;
    hide Node, TopSlot, Establish, Take, SlotPath;
    EstablishMeaning(s, p, FrameStack);
    forall q | q in t.tree && q !in s.tree
      ensures Client(q) && t.tree[q] in u.pool
    {
      PrefixOfClient(q, p);
      var x := t.tree[q];
      assert x in t.tree.Values && x in Held(t);
      forall r | r in s.tree ensures s.tree[r] != x {
        assert t.tree[r] == s.tree[r];
      }
      assert x in Elements(s.stack);
    }
    assert Elements(t.stack) <= Elements(s.stack);
  }

  // ----- Whole runs -----

  datatype Op = Allocate(page: Path, write: bool) | Free(page: Path)

  ghost predicate ClientPage(p: Path) { Node(p) && Depth(p) == 4 && Client(p) }

  /** Allocate without the write request gives a new table a read-only entry and faults when it clears that
      table. So it comes to an end exactly when it makes no table: the P1 table is there, or no frame is. */
  predicate Completes(s: State, p: Path, write: bool)
    requires p.Sub?
  {
    write || p.parent in s.tree || s.stack == []
  }

  /** So the first call of a run that asks for a read-only page does not come back: as long as callers have no
      tables, every such call faults while there is a free frame. */
  lemma FirstReadOnlyFaults(s: State, p: Path)
    requires ClientPage(p) && s.stack != [] && forall q :: q in s.tree ==> !Client(q)
    ensures p.Sub? && !Completes(s, p, false)
  {
    assert Depth(p.parent) == 3;
    assert p.parent.Sub? && TopSlot(p) == TopSlot(p.parent);
  }

  /** Free reads the P1 table of its page, so that table must be there. */
  ghost predicate Enabled(s: State, op: Op) {
    && ClientPage(op.page)
    && match op
       case Allocate(p, write) => p.Sub? && Completes(s, p, write)
       case Free(p) => p.Sub? && p.parent in s.tree
  }

  function Step(s: State, base: nat, op: Op): State
    requires op.page.Sub?
  {
    match op
    case Allocate(p, _) => Establish(s, p, FrameStack).1
    case Free(p) => Unmap(s, base, p)
  }

  /** t is reached from s by carrying out ops. */
  ghost predicate Run(s: State, base: nat, ops: seq<Op>, t: State)
    decreases |ops|
  {
    if ops == [] then t == s
    else Enabled(s, ops[0]) && Run(Step(s, base, ops[0]), base, ops[1..], t)
  }

  lemma PagesHaveNoChildren(s: State, u: Setup, p: Path)
    requires Steady(s, u) && Depth(p) == 4
    ensures Children(s.tree, p) == {}
  {
    forall i: nat | i < 512
      ensures Sub(p, i) !in s.tree
    {
      assert Depth(Sub(p, i)) == 5;
    }
  }

  lemma StepKeeps(s: State, u: Setup, op: Op)
    requires Steady(s, u) && Enabled(s, op)
    ensures Steady(Step(s, u.base, op), u) && Held(Step(s, u.base, op)) == Held(s)
    ensures forall q :: Depth(q) == 4 && q != op.page ==>
      (q in Step(s, u.base, op).tree <==> q in s.tree)
      && (q in s.tree ==> Step(s, u.base, op).tree[q] == s.tree[q])
  {
    var t := Step(s, u.base, op);
    match op
    case Allocate(p, _) =>
      EstablishSteady(s, u, p);
      EstablishMeaning(s, p, FrameStack);
      forall q | Prefix(q, p) && Depth(q) == 4 ensures q == p { PrefixDepth(q, p); }
    case Free(p) =>
      if p in s.tree {
        PagesHaveNoChildren(s, u, p);
        ReleaseMeaning(s, u, p);
        forall q | Prefix(q, p) && Depth(q) == 4 ensures q == p { PrefixDepth(q, p); }
      }
  }

  /** A run is its calls one after the other. */
  lemma {:induction false} RunLast(s: State, base: nat, ops: seq<Op>, op: Op, t: State)
    ensures Run(s, base, ops + [op], t) <==>
            exists r :: Run(s, base, ops, r) && Enabled(r, op) && t == Step(r, base, op)
    decreases |ops|
  {
    hide Step;
    var all := ops + [op];
    if ops == [] {
      assert all == [op] && all[1..] == [];
      assert Run(s, base, all, t) <==> Enabled(s, op) && Run(Step(s, base, op), base, [], t);
      assert forall r :: Run(s, base, [], r) <==> r == s;
    } else {
      assert all[1..] == ops[1..] + [op] && all[0] == ops[0];
      if Enabled(s, ops[0]) {
        var q := Step(s, base, ops[0]);
        RunLast(q, base, ops[1..], op, t);
        assert Run(s, base, all, t) <==> Run(q, base, ops[1..] + [op], t);
        assert forall r :: Run(s, base, ops, r) <==> Run(q, base, ops[1..], r);
      }
    }
  }

  /** Frame ownership over whole runs: no frame is lost, none gets a second place. */
  lemma {:induction false} RunKeeps(s: State, u: Setup, ops: seq<Op>, t: State)
    requires Steady(s, u) && Run(s, u.base, ops, t)
    ensures Steady(t, u) && Held(t) == Held(s)
    decreases |ops|
  {
    if ops != [] {
      StepKeeps(s, u, ops[0]);
      RunKeeps(Step(s, u.base, ops[0]), u, ops[1..], t);
    }
  }

  /** A page that no call names keeps its translation through any run. */
  lemma {:induction false} RunIsolates(s: State, u: Setup, ops: seq<Op>, t: State, q: Path)
    requires Steady(s, u) && Run(s, u.base, ops, t)
    requires Depth(q) == 4 && forall k :: 0 <= k < |ops| ==> ops[k].page != q
    ensures q in t.tree <==> q in s.tree
    ensures q in s.tree ==> t.tree[q] == s.tree[q]
    decreases |ops|
  {
    if ops != [] {
      StepKeeps(s, u, ops[0]);
      RunIsolates(Step(s, u.base, ops[0]), u, ops[1..], t, q);
    }
  }

  datatype Place = At(node: Path) | Slot(index: nat)

  predicate Holds(s: State, place: Place, frame: Frame) {
    match place
    case At(p) => p in s.tree && s.tree[p] == frame
    case Slot(k) => k < |s.stack| && s.stack[k] == frame
  }

  lemma OnePlaceOnly(s: State, a: Place, b: Place, frame: Frame)
    requires Distinct(s) && Holds(s, a, frame) && Holds(s, b, frame)
    ensures a == b
  {
    assert forall k :: 0 <= k < |s.stack| ==> s.stack[k] in s.stack;
  }

  lemma SomePlace(s: State, frame: Frame) returns (a: Place)
    requires s.supply == [] && frame in Held(s)
    ensures Holds(s, a, frame)
  {
    if frame in s.tree.Values {
      var p :| p in s.tree && s.tree[p] == frame;
      a := At(p);
    } else {
      var k :| 0 <= k < |s.stack| && s.stack[k] == frame;
      a := Slot(k);
    }
  }

  /** Every frame of the system is in exactly one place. */
  lemma ExactlyOnePlace(s: State, u: Setup, frame: Frame)
    requires Steady(s, u) && frame in Held(s)
    ensures exists a :: Holds(s, a, frame) && forall b :: Holds(s, b, frame) ==> b == a
  {
    hide Holds, Held;
    var a := SomePlace(s, frame);
    forall b | Holds(s, b, frame) ensures b == a { OnePlaceOnly(s, b, a, frame); }
  }

  // ----- Allocate followed by Free -----

  /** The lowest node above p that is already there. */
  function Anchor(tree: map<Path, Frame>, p: Path): Path
    requires p.Sub?
    decreases p
  {
    if p.parent in tree || p.parent == Top then p.parent else Anchor(tree, p.parent)
  }

  lemma EstablishFresh(s: State, u: Setup, p: Path)
    requires Steady(s, u) && Client(p) && Node(p) && Depth(p) <= 4 && p !in s.tree
    requires Establish(s, p, FrameStack).0
    ensures var g := Establish(s, p.parent, FrameStack).1; var t := Establish(s, p, FrameStack).1;
      && Establish(s, p.parent, FrameStack).0 && p !in g.tree && g.stack != [] && g.supply == []
      && t == State(g.tree[p := g.stack[|g.stack| - 1]], g.stack[..|g.stack| - 1], [])
  {
    EstablishMeaning(s, p.parent, FrameStack);
    var g := Establish(s, p.parent, FrameStack).1;
    if p in g.tree {
      PrefixDepth(p, p.parent);
    }
  }

  lemma PopSteady(g: State, u: Setup)
    requires Steady(g, u) && g.stack != []
    ensures var r := g.(stack := g.stack[..|g.stack| - 1]); var x := g.stack[|g.stack| - 1];
      Steady(r, u) && x in u.pool && x !in Held(r)
  {
    TakeMeaning(g, FrameStack);
    assert Elements(g.stack[..|g.stack| - 1]) <= Elements(g.stack);
    assert g.stack[|g.stack| - 1] in Elements(g.stack);
  }

  /** A newly mapped page gets the last frame that was popped. */
  lemma EstablishGivesLastPopped(s: State, u: Setup, p: Path)
    requires Steady(s, u) && Client(p) && Node(p) && Depth(p) <= 4 && p !in s.tree
    requires Establish(s, p, FrameStack).0
    ensures var t := Establish(s, p, FrameStack).1;
      && |t.stack| < |s.stack| && t.stack == s.stack[..|t.stack|]
      && p in t.tree && t.tree[p] == s.stack[|t.stack|]
  {
    EstablishFresh(s, u, p);
    EstablishMeaning(s, p.parent, FrameStack);
    hide *;
  }

  /** Undoing one level gives back the very state that level started from. */
  lemma ReleaseUndoesLevel(g: State, u: Setup, p: Path)
    requires Steady(g, u) && p !in g.tree && g.stack != []
    ensures var t := State(g.tree[p := g.stack[|g.stack| - 1]], g.stack[..|g.stack| - 1], []);
      Push(t.(tree := t.tree - {p}), u.base, t.tree[p]) == g
  {
    hide Steady, Push, Held;
    var n := |g.stack| - 1;
    var x := g.stack[n];
    var r := g.(stack := g.stack[..n]);
    SteadySupply(g, u);
    assert g.tree[p := x] - {p} == g.tree;
    PopSteady(g, u);
    PushIsAppend(r, u, x);
    assert g.stack == g.stack[..n] + [x];
  }

  lemma ParentFacts(s: State, u: Setup, p: Path)
    requires Steady(s, u) && p.Sub? && Client(p) && Node(p) && Depth(p) <= 4
    ensures Top in s.tree && Node(p.parent) && Depth(p.parent) <= 4
    ensures p.parent != Top ==> Client(p.parent)
  {}

  /** Allocate then Free of an unmapped page gives back the whole state, stack order included,
      exactly when the lowest table that was already there is not empty. */
  lemma {:induction false} RoundTrip(s: State, u: Setup, p: Path)
    requires Steady(s, u) && p.Sub? && Client(p) && Node(p) && Depth(p) <= 4 && p !in s.tree
    requires Establish(s, p, FrameStack).0
    ensures p in Establish(s, p, FrameStack).1.tree
    ensures Release(Establish(s, p, FrameStack).1, u.base, p) == s
            <==> Anchor(s.tree, p) == Top || Children(s.tree, Anchor(s.tree, p)) != {}
    decreases p
  {
    hide Steady, Push, Held, Client, Node, Depth, Establish, Children;
    var g := Establish(s, p.parent, FrameStack).1;
    EstablishFresh(s, u, p);
    ParentFacts(s, u, p);
    if p.parent in s.tree {
      ParentPresent(s, u, p);
      ReleaseUndoesLevel(s, u, p);
      if p.parent != Top && Children(s.tree, p.parent) == {} {
        ReleaseMeaning(s, u, p.parent);
      }
    } else {
      EstablishSteady(s, u, p.parent);
      ReleaseUndoesLevel(g, u, p);
      NewTableIsEmpty(s, u, p.parent);
      RoundTrip(s, u, p.parent);
    }
  }

  lemma ParentPresent(s: State, u: Setup, p: Path)
    requires Steady(s, u) && p.Sub? && p.parent in s.tree
    ensures Establish(s, p.parent, FrameStack) == (true, s)
  {
    EstablishPresent(s, p.parent, FrameStack);
  }

  lemma NewTableIsEmpty(s: State, u: Setup, q: Path)
    requires Steady(s, u) && Client(q) && Node(q) && Depth(q) <= 4 && q !in s.tree
    ensures Children(Establish(s, q, FrameStack).1.tree, q) == {}
  {
    EstablishMeaning(s, q, FrameStack);
    var t := Establish(s, q, FrameStack).1;
    forall i: nat | i < 512
      ensures Sub(q, i) !in t.tree
    {
      if Prefix(Sub(q, i), q) { PrefixDepth(Sub(q, i), q); }
    }
  }

  /** In any case every page keeps its translation, and the page itself is unmapped again. */
  lemma AllocateThenFree(s: State, u: Setup, p: Path, write: bool)
    requires Steady(s, u) && Enabled(s, Allocate(p, write)) && p !in s.tree && Establish(s, p, FrameStack).0
    ensures var t := Step(s, u.base, Allocate(p, write)); var r := Step(t, u.base, Free(p));
      && Enabled(t, Free(p))
      && (forall q :: Depth(q) == 4 ==> (q in r.tree <==> q in s.tree) && (q in s.tree ==> r.tree[q] == s.tree[q]))
      && (r == s <==> Anchor(s.tree, p) == Top || Children(s.tree, Anchor(s.tree, p)) != {})
  {
    hide Children;
    var t := Step(s, u.base, Allocate(p, write));
    StepKeeps(s, u, Allocate(p, write));
    EstablishMeaning(s, p, FrameStack);
    StepKeeps(t, u, Free(p));
    PagesHaveNoChildren(t, u, p);
    ReleaseMeaning(t, u, p);
    RoundTrip(s, u, p);
  }

  // ----- Empty tables -----

  /** Every table in the callers' part of the tree, other than `but`, leads somewhere. */
  ghost predicate NoEmptyTables(s: State, but: Path) {
    forall q :: q in s.tree && Client(q) && Depth(q) < 4 && q != but ==> Children(s.tree, q) != {}
  }

  lemma ChildSeen(tree: map<Path, Frame>, q: Path)
    requires Closed(tree) && q in tree && q.Sub?
    ensures Children(tree, q.parent) != {}
  {
    assert q == Sub(q.parent, q.slot);
    assert q.slot in Children(tree, q.parent);
  }

  /** A successful MapPage leaves no table empty that was not empty before. */
  lemma {:induction false} EstablishLeavesNoEmptyTable(s: State, u: Setup, p: Path)
    requires Steady(s, u) && Client(p) && Node(p) && Depth(p) <= 4 && NoEmptyTables(s, Top)
    requires Establish(s, p, FrameStack).0
    ensures NoEmptyTables(Establish(s, p, FrameStack).1, p)
  {
    var t := Establish(s, p, FrameStack).1;
    hide Establish, Take, Node, Held;
    EstablishMeaning(s, p, FrameStack);
    forall q | q in t.tree && Client(q) && Depth(q) < 4 && q != p
      ensures Children(t.tree, q) != {}
    {
      if q in s.tree {
        var i :| i in Children(s.tree, q);
        assert Sub(q, i) in t.tree;
        assert i in Children(t.tree, q);
      } else {
        StepTowards(t.tree, q, p);
      }
    }
  }

  lemma {:induction false} StepTowards(tree: map<Path, Frame>, q: Path, p: Path)
    requires Closed(tree) && p in tree && Prefix(q, p) && q != p
    ensures Children(tree, q) != {}
  {
    if q == p.parent {
      ChildSeen(tree, p);
    } else {
      StepTowards(tree, q, p.parent);
    }
  }

  /** UnmapPage gives back a table exactly when its last entry has gone: no table is left empty. */
  lemma {:induction false} ReleaseLeavesNoEmptyTable(s: State, u: Setup, p: Path)
    requires Steady(s, u) && Client(p) && p in s.tree && Children(s.tree, p) == {} && NoEmptyTables(s, p)
    ensures NoEmptyTables(Release(s, u.base, p), Top)
    decreases p
  {
    hide Steady, Held, Push, Children, TopSlot, NoEmptyTables;
    var t := Push(s.(tree := s.tree - {p}), u.base, s.tree[p]);
    ReleaseStep(s, u, p);
    CutLeavesNoEmptyTable(s, t, p);
    if p.parent != Top {
      ParentOf(s, u, p);
      if Children(t.tree, p.parent) == {} {
        ReleaseLeavesNoEmptyTable(t, u, p.parent);
      } else {
        NoneBut(t, p.parent);
      }
    } else {
      NoneBut(t, p.parent);
    }
  }

  lemma NoneBut(s: State, p: Path)
    requires NoEmptyTables(s, p) && (p == Top || Children(s.tree, p) != {})
    ensures NoEmptyTables(s, Top)
  {}

  lemma CutLeavesNoEmptyTable(s: State, t: State, p: Path)
    requires p.Sub? && NoEmptyTables(s, p) && t.tree == s.tree - {p}
    ensures NoEmptyTables(t, p.parent)
  {
    forall q | q in t.tree && Client(q) && Depth(q) < 4 && q != p.parent
      ensures Children(t.tree, q) != {}
    {
      var i :| i in Children(s.tree, q);
      assert Sub(q, i) in t.tree;
      assert i in Children(t.tree, q);
    }
  }

  // ----- Start-up -----

  ghost predicate Booting(s: State, base: nat) {
    && Closed(s.tree) && Distinct(s)
    && (forall p :: p in s.tree ==> !Client(p))
    && (forall k: nat :: k < |s.stack| ==> SlotPath(base, k) in s.tree)
    && base + |s.stack| + |s.supply| < 0x1000_0000
  }

  lemma SlotPathIsKernel(base: nat, k: nat)
    requires base + k < 0x1000_0000
    ensures SlotPath(base, k).Sub? && Node(SlotPath(base, k)) && Depth(SlotPath(base, k)) == 4
    ensures TopSlot(SlotPath(base, k)) == 511
  {
    var page := (base + k) / 512;
    var (b, c) := (510 + page / 0x40000, page / 512 % 512);
    assert b < 512;
    assert Node(Path1(511)) && Depth(Path1(511)) == 1 && TopSlot(Path1(511)) == 511;
    assert Node(Path2(511, b)) && Depth(Path2(511, b)) == 2 && TopSlot(Path2(511, b)) == 511;
    assert Node(Path3(511, b, c)) && Depth(Path3(511, b, c)) == 3 && TopSlot(Path3(511, b, c)) == 511;
  }

  lemma {:induction false} PrefixTopSlot(q: Path, p: Path)
    requires Prefix(q, p) && p.Sub? && q.Sub?
    ensures TopSlot(q) == TopSlot(p)
  {
    if q != p {
      PrefixTopSlot(q, p.parent);
    }
  }

  lemma EstablishWhileBooting(s: State, base: nat, p: Path)
    requires Booting(s, base) && Node(p) && p.Sub? && Depth(p) == 4 && TopSlot(p) == 511
    ensures var (ok, t) := Establish(s, p, MemoryMap);
      && Booting(t, base)
      && Held(t) == Held(s) && t.stack == s.stack && |t.supply| <= |s.supply|
      && (if ok then p in t.tree else t.supply == [])
  {
    var t := Establish(s, p, MemoryMap).1;
    hide SlotPath, Establish, Node, Held, Distinct, Closed, Depth, Prefix, TopSlot;
    EstablishMeaning(s, p, MemoryMap);
    forall q | q in t.tree && q !in s.tree ensures !Client(q) {
      if q.Sub? { PrefixTopSlot(q, p); }
    }
  }

  lemma AppendWhileBooting(t: State, base: nat, frame: Frame)
    requires Booting(t, base) && frame !in Held(t) && base + |t.stack| + |t.supply| + 1 < 0x1000_0000
    requires SlotPath(base, |t.stack|) in t.tree
    ensures var r := t.(stack := t.stack + [frame]); Booting(r, base) && Held(r) == Held(t) + {frame}
  {
    hide SlotPath, Client;
    assert Elements(t.stack + [frame]) == Elements(t.stack) + {frame};
    assert forall q :: q in t.tree ==> t.tree[q] in t.tree.Values;
  }

  /** One turn of the loop: the frame is stacked, or the memory map has run dry. */
  lemma PushWhileBooting(s: State, base: nat, frame: Frame)
    requires Booting(s, base) && frame !in Held(s) && base + |s.stack| + |s.supply| + 1 < 0x1000_0000
    ensures var t := Push(s, base, frame);
      && Booting(t, base)
      && (if |t.stack| == |s.stack| then t.supply == [] && Held(t) == Held(s) else Held(t) == Held(s) + {frame})
  {
    hide SlotPath, Establish, Held, Booting, Node, Depth, TopSlot;
    SlotPathIsKernel(base, |s.stack|);
    EstablishWhileBooting(s, base, SlotPath(base, |s.stack|));
    var (ok, t) := Establish(s, SlotPath(base, |s.stack|), MemoryMap);
    if ok { AppendWhileBooting(t, base, frame); }
  }

  /** The loop ends in a running system in which at most one frame has no place. */
  lemma {:induction false} FillMeaning(s: State, base: nat) returns (lost: set<Frame>)
    requires Booting(s, base)
    ensures var t := Fill(s, base);
      && Steady(t, Setup(base, t.tree, Elements(t.stack)))
      && Held(s) == Held(t) + lost && Held(t) !! lost && |lost| <= 1
    decreases |s.supply|
  {
    hide Held, Push, Client;
    if s.supply == [] {
      lost := {};
      BootedIsSteady(s, base);
    } else {
      var r := s.(supply := s.supply[1..]);
      TakeFirst(s, base);
      var t := Push(r, base, s.supply[0]);
      PushWhileBooting(r, base, s.supply[0]);
      if |t.stack| == |r.stack| {
        lost := {s.supply[0]};
        BootedIsSteady(t, base);
      } else {
        lost := FillMeaning(t, base);
      }
    }
  }

  lemma TakeFirst(s: State, base: nat)
    requires Booting(s, base) && s.supply != []
    ensures var r := s.(supply := s.supply[1..]);
      Booting(r, base) && s.supply[0] !in Held(r) && Held(s) == Held(r) + {s.supply[0]}
  {
    TakeMeaning(s, MemoryMap);
  }

  lemma BootedIsSteady(s: State, base: nat)
    requires Booting(s, base) && s.supply == []
    ensures Steady(s, Setup(base, s.tree, Elements(s.stack)))
  {
    hide SlotPath, Client;
    SizeOfElements(s.stack);
  }

  lemma PushGrows(s: State, base: nat, frame: Frame)
    requires Booting(s, base)
    ensures forall q :: q in s.tree ==> q in Push(s, base, frame).tree && Push(s, base, frame).tree[q] == s.tree[q]
  {
    SlotPathIsKernel(base, |s.stack|);
    hide Establish, SlotPath, Node, Depth, Held, Distinct, Closed;
    EstablishMeaning(s, SlotPath(base, |s.stack|), MemoryMap);
  }

  /** Filling the stack adds to the tree and takes nothing out of it. */
  lemma {:induction false} FillGrows(s: State, base: nat)
    requires Booting(s, base)
    ensures forall q :: q in s.tree ==> q in Fill(s, base).tree && Fill(s, base).tree[q] == s.tree[q]
    decreases |s.supply|
  {
    hide Held, Push, Client;
    if s.supply != [] {
      TakeFirst(s, base);
      var r := s.(supply := s.supply[1..]);
      PushGrows(r, base, s.supply[0]);
      PushWhileBooting(r, base, s.supply[0]);
      FillGrows(Push(r, base, s.supply[0]), base);
    }
  }
}
