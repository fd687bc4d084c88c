/** The allocator as lib/stdlib/heap.c evidently means it: a merge forwards or backwards goes into the lower
block, and whoever changes which block is in front of another one stores that in its back link. Free follows
the stored link, as the code does. Heap and Allocator model the code as written; this module shows what the
repaired code keeps over all runs, without any condition on the blocks freed.
*/
module Repaired {
  import opened Options
  import opened Bytes
  import opened Blocks
  import opened Allocator
  import opened Requests

  /** The back link of the first block is p, and that of every other one leads to the block in front. */
  ghost predicate LinkedFrom(seg: seq<Block>, p: nat) {
    forall i :: 0 <= i < |seg| ==> seg[i].prev == Front(seg, i, p)
  }

  /** The address of the block in front of index i, where p stands in front of the first. */
  function Front(seg: seq<Block>, i: nat, p: nat): nat { if 0 < i <= |seg| then seg[i - 1].addr else p }

  ghost predicate Linked(bs: seq<Block>) { LinkedFrom(bs, 0) }

  // ----- The repaired steps -----

  /** The back link of the first block is set. */
  function PointTo(seg: seq<Block>, a: nat): seq<Block> {
    if seg == [] then [] else [seg[0].(prev := a)] + seg[1..]
  }

  /** The first block takes in the second, and the block behind is told. */
  function JoinLinked(seg: seq<Block>): seq<Block>
    requires |seg| >= 2
  {
    [seg[0].(size := seg[0].size + seg[1].size)] + PointTo(seg[2..], seg[0].addr)
  }

  function MergeLinked(seg: seq<Block>): seq<Block>
    decreases |seg|
  {
    if |seg| >= 2 && seg[1].free then MergeLinked(JoinLinked(seg)) else seg
  }

  function AbsorbLinked(seg: seq<Block>, need: nat): seq<Block>
    decreases |seg|
  {
    if |seg| >= 2 && seg[1].free && need > seg[0].size then AbsorbLinked(JoinLinked(seg), need) else seg
  }

  /** shrink_block: the block behind the part split off is told as well. */
  function SplitLinked(seg: seq<Block>, need: nat): seq<Block>
    requires seg != []
  {
    if need + HEADER > seg[0].size then seg
    else
      var n := Block(seg[0].addr + need, seg[0].size - need, true, seg[0].addr);
      [seg[0].(size := need)] + MergeLinked([n] + PointTo(seg[1..], n.addr))
  }

  /** The backward half of defrag_blocks: as long as the stored link of block i leads to a free block, that
  one takes block i in and the block behind is told. */
  function MergeBack(bs: seq<Block>, i: nat): seq<Block>
    requires i < |bs|
    decreases i
  {
    var k := Holder(bs, bs[i].prev + HEADER);
    if LeadsToFree(bs, bs[i].prev) && k.value < i then MergeBack(TakenIn(bs, k.value, i), k.value) else bs
  }

  /** Block k takes block i in: its size is added and its successor taken over. */
  function TakenIn(bs: seq<Block>, k: nat, i: nat): (r: seq<Block>)
    requires k < i < |bs|
    ensures k < |r|
  {
    bs[..k] + [bs[k].(size := bs[k].size + bs[i].size)] + PointTo(bs[i + 1..], bs[k].addr)
  }

  function MallocLinked(bs: seq<Block>, size: nat): Outcome {
    if size == 0 then Outcome(bs, 0)
    else
      match BestFit(bs, size + HEADER)
      case Some(j) =>
        if j < |bs| then
          Outcome(bs[..j] + SplitLinked([bs[j].(free := false)] + bs[j + 1..], size + HEADER), bs[j].addr + HEADER)
        else Outcome(bs, 0)
      case None => Outcome(bs, 0)
  }

  function ReleaseLinked(bs: seq<Block>, i: nat): seq<Block>
    requires i < |bs|
  {
    bs[..i] + MergeLinked([bs[i].(free := true)] + bs[i + 1..])
  }

  function FreeLinked(bs: seq<Block>, a: nat): seq<Block> {
    match Holder(bs, a)
    case Some(i) =>
      if bs[i].free then bs
      else
        var r := ReleaseLinked(bs, i);
        if i < |r| then MergeBack(r, i) else r
    case None => bs
  }

  function GrowLinked(bs: seq<Block>, i: nat, need: nat): seq<Block>
    requires i < |bs|
  {
    bs[..i] + AbsorbLinked(bs[i..], need)
  }

  function ShrinkLinked(bs: seq<Block>, i: nat, need: nat): seq<Block>
    requires i < |bs|
  {
    bs[..i] + SplitLinked(bs[i..], need)
  }

  function ExpandLinked(bs: seq<Block>, i: nat, size: nat): Outcome
    requires i < |bs|
  {
    var a, need, grown := bs[i].addr + HEADER, size + HEADER, GrowLinked(bs, i, size + HEADER);
    if i < |grown| && grown[i].size >= need then Outcome(ShrinkLinked(grown, i, need), a)
    else
      var o := MallocLinked(grown, size);
      if o.addr == 0 then o else Outcome(FreeLinked(o.blocks, a), o.addr)
  }

  function ResizeLinked(bs: seq<Block>, i: nat, size: nat): Outcome
    requires i < |bs|
  {
    if bs[i].free then Outcome(bs, bs[i].addr + HEADER)
    else if bs[i].size > size + HEADER then Outcome(ShrinkLinked(bs, i, size + HEADER), bs[i].addr + HEADER)
    else ExpandLinked(bs, i, size)
  }

  function PerformLinked(bs: seq<Block>, q: Request): Outcome {
    match q
    case MallocOf(size) => MallocLinked(bs, size)
    case FreeOf(a) => Outcome(FreeLinked(bs, a), 0)
    case ReallocOf(a, size) =>
      if a == 0 then MallocLinked(bs, size)
      else if size == 0 then Outcome(FreeLinked(bs, a), 0)
      else
        match Holder(bs, a)
        case Some(i) => ResizeLinked(bs, i, size)
        case None => Outcome(bs, 0)
  }

  function RunLinked(bs: seq<Block>, l: Ledger, qs: seq<Request>): (seq<Block>, Ledger)
    decreases |qs|
  {
    if qs == [] then (bs, l)
    else if Proper(l, qs[0]) then
      var o := PerformLinked(bs, qs[0]);
      RunLinked(o.blocks, Book(l, qs[0], o.addr), qs[1..])
    else RunLinked(bs, l, qs[1..])
  }

  // ----- The same blocks but for the back links -----

  predicate Alike(b: Block, c: Block) { b.addr == c.addr && b.size == c.size && b.free == c.free }

  ghost predicate Same(r: seq<Block>, s: seq<Block>) {
    |r| == |s| && forall i :: 0 <= i < |r| ==> Alike(r[i], s[i])
  }

  lemma SameTiles(r: seq<Block>, s: seq<Block>, lo: nat, hi: nat)
    requires Same(r, s) && Tiles(s, lo, hi)
    ensures Tiles(r, lo, hi)
  {
    assert Alike(r[0], s[0]) && Alike(r[|r| - 1], s[|r| - 1]);
    forall i | 0 <= i < |r| - 1 ensures End(r[i]) == r[i + 1].addr {
      assert Alike(r[i], s[i]) && Alike(r[i + 1], s[i + 1]);
    }
  }

  lemma SamePairs(r: seq<Block>, s: seq<Block>)
    requires Same(r, s) && NoFreePair(s)
    ensures NoFreePair(r)
  {
    forall i | 0 <= i < |r| - 1 ensures !(r[i].free && r[i + 1].free) {
      assert Alike(r[i], s[i]) && Alike(r[i + 1], s[i + 1]);
    }
  }

  lemma SameAgree(r: seq<Block>, s: seq<Block>, l: Ledger)
    requires Same(r, s) && Agree(Live(s), l)
    ensures Agree(Live(r), l)
  {
    hide Booked, Has, Live, Same;
    forall b | b in Live(r) ensures Booked(l, b) {
      var c := SameLive(r, s, b);
      SameBooked(l, b, c);
    }
    forall a | a in l ensures Has(Live(r), a) { SameHas(r, s, a); }
  }

  lemma SameLive(r: seq<Block>, s: seq<Block>, b: Block) returns (c: Block)
    requires Same(r, s) && b in Live(r)
    ensures c in Live(s) && Alike(b, c)
  {
    var i :| 0 <= i < |r| && r[i] == b;
    assert Alike(r[i], s[i]);
    c := s[i];
  }

  lemma SameBooked(l: Ledger, b: Block, c: Block)
    requires Booked(l, c) && Alike(b, c)
    ensures Booked(l, b)
  {}

  lemma SameHas(r: seq<Block>, s: seq<Block>, a: nat)
    requires Same(r, s) && Has(Live(s), a)
    ensures Has(Live(r), a)
  {
    var c :| c in Live(s) && c.addr + HEADER == a;
    SameBack(r, s);
    var b := SameLive(s, r, c);
  }

  lemma SameBack(r: seq<Block>, s: seq<Block>)
    requires Same(r, s)
    ensures Same(s, r)
  {
    forall i | 0 <= i < |s| ensures Alike(s[i], r[i]) { assert Alike(r[i], s[i]); }
  }

  lemma SameAppend(a: seq<Block>, r: seq<Block>, s: seq<Block>)
    requires Same(r, s)
    ensures Same(a + r, a + s)
  {}

  lemma SameJoin(a: seq<Block>, b: seq<Block>)
    requires Same(a, b) && |a| >= 2
    ensures Same(JoinLinked(a), Join(b))
  {
    assert Alike(a[0], b[0]) && Alike(a[1], b[1]);
    forall i | 1 <= i < |a| - 1 ensures Alike(JoinLinked(a)[i], Join(b)[i]) {
      assert Alike(a[i + 1], b[i + 1]);
    }
  }

  lemma {:induction false} SameMerge(a: seq<Block>, b: seq<Block>)
    requires Same(a, b)
    ensures Same(MergeLinked(a), Merge(b))
    decreases |a|
  {
    if |a| >= 2 {
      assert Alike(a[1], b[1]);
      SameJoin(a, b);
      if a[1].free { SameMerge(JoinLinked(a), Join(b)); }
    }
  }

  lemma {:induction false} SameAbsorb(a: seq<Block>, b: seq<Block>, need: nat)
    requires Same(a, b)
    ensures Same(AbsorbLinked(a, need), Absorb(b, need))
    decreases |a|
  {
    if |a| >= 2 {
      assert Alike(a[1], b[1]) && Alike(a[0], b[0]);
      SameJoin(a, b);
      if a[1].free && need > a[0].size { SameAbsorb(JoinLinked(a), Join(b), need); }
    }
  }

  lemma SameSplit(seg: seq<Block>, need: nat)
    requires seg != []
    ensures Same(SplitLinked(seg, need), Split(seg, need))
  {
    if need + HEADER <= seg[0].size {
      var n := Block(seg[0].addr + need, seg[0].size - need, true, seg[0].addr);
      assert Same([n] + PointTo(seg[1..], n.addr), [n] + seg[1..]);
      SameMerge([n] + PointTo(seg[1..], n.addr), [n] + seg[1..]);
      SameAppend([seg[0].(size := need)], MergeLinked([n] + PointTo(seg[1..], n.addr)), Merge([n] + seg[1..]));
    }
  }

  // ----- Every step keeps the links -----

  lemma LinkedRest(seg: seq<Block>, p: nat, i: nat)
    requires LinkedFrom(seg, p) && 0 < i <= |seg|
    ensures LinkedFrom(seg[i..], seg[i - 1].addr)
  {
    var r := seg[i..];
    forall k | 0 <= k < |r| ensures r[k].prev == Front(r, k, seg[i - 1].addr) {
      assert seg[i + k].prev == Front(seg, i + k, p);
    }
  }

  lemma LinkedPointTo(seg: seq<Block>, p: nat, a: nat)
    requires LinkedFrom(seg, p)
    ensures LinkedFrom(PointTo(seg, a), a)
  {
    var r := PointTo(seg, a);
    forall k | 0 <= k < |r| ensures r[k].prev == Front(r, k, a) {
      assert seg[k].prev == Front(seg, k, p);
    }
  }

  lemma LinkedCons(b: Block, seg: seq<Block>)
    requires LinkedFrom(seg, b.addr)
    ensures LinkedFrom([b] + seg, b.prev)
  {
    var r := [b] + seg;
    forall k | 0 < k < |r| ensures r[k].prev == Front(r, k, b.prev) {
      assert seg[k - 1].prev == Front(seg, k - 1, b.addr);
    }
  }

  lemma LinkedAppend(bs: seq<Block>, i: nat, seg: seq<Block>)
    requires Linked(bs) && i < |bs| && LinkedFrom(seg, bs[i].prev)
    ensures Linked(bs[..i] + seg)
  {
    var r := bs[..i] + seg;
    forall k | 0 <= k < |r| ensures r[k].prev == Front(r, k, 0) {
      if k <= i { assert bs[k].prev == Front(bs, k, 0); }
      if k >= i { assert seg[k - i].prev == Front(seg, k - i, bs[i].prev); }
    }
  }

  lemma LinkedJoin(seg: seq<Block>, p: nat)
    requires LinkedFrom(seg, p) && |seg| >= 2
    ensures LinkedFrom(JoinLinked(seg), p)
  {
    LinkedRest(seg, p, 2);
    LinkedPointTo(seg[2..], seg[1].addr, seg[0].addr);
    LinkedCons(JoinLinked(seg)[0], PointTo(seg[2..], seg[0].addr));
  }

  lemma {:induction false} LinkedMerge(seg: seq<Block>, p: nat)
    requires LinkedFrom(seg, p)
    ensures LinkedFrom(MergeLinked(seg), p)
    decreases |seg|
  {
    if |seg| >= 2 && seg[1].free {
      LinkedJoin(seg, p);
      LinkedMerge(JoinLinked(seg), p);
    }
  }

  lemma {:induction false} LinkedAbsorb(seg: seq<Block>, need: nat, p: nat)
    requires LinkedFrom(seg, p)
    ensures LinkedFrom(AbsorbLinked(seg, need), p)
    decreases |seg|
  {
    if |seg| >= 2 && seg[1].free && need > seg[0].size {
      LinkedJoin(seg, p);
      LinkedAbsorb(JoinLinked(seg), need, p);
    }
  }

  lemma LinkedSplit(seg: seq<Block>, need: nat, p: nat)
    requires seg != [] && LinkedFrom(seg, p)
    ensures LinkedFrom(SplitLinked(seg, need), p)
  {
    assert seg[0].prev == Front(seg, 0, p);
    hide LinkedFrom, MergeLinked, PointTo;
    if need + HEADER <= seg[0].size {
      var n := Block(seg[0].addr + need, seg[0].size - need, true, seg[0].addr);
      LinkedRest(seg, p, 1);
      LinkedPointTo(seg[1..], seg[0].addr, n.addr);
      LinkedCons(n, PointTo(seg[1..], n.addr));
      LinkedMerge([n] + PointTo(seg[1..], n.addr), seg[0].addr);
      LinkedCons(seg[0].(size := need), MergeLinked([n] + PointTo(seg[1..], n.addr)));
    }
  }

  lemma LinkedMarked(bs: seq<Block>, i: nat, free: bool)
    requires Linked(bs) && i < |bs|
    ensures LinkedFrom(bs[i..], bs[i].prev) && LinkedFrom([bs[i].(free := free)] + bs[i + 1..], bs[i].prev)
  {
    LinkedRest(bs, 0, i + 1);
    LinkedCons(bs[i], bs[i + 1..]);
    LinkedCons(bs[i].(free := free), bs[i + 1..]);
    assert bs[i..] == [bs[i]] + bs[i + 1..];
  }

  // ----- What every request keeps -----

  /** Tiled, with no two free neighbours and every back link that of the block in front. */
  ghost predicate Packed(bs: seq<Block>, lo: nat, hi: nat) {
    Tiles(bs, lo, hi) && NoFreePair(bs) && Linked(bs) && lo > 0
  }

  lemma PackedSame(r: seq<Block>, s: seq<Block>, lo: nat, hi: nat)
    requires Same(r, s) && Tiles(s, lo, hi) && NoFreePair(s) && Linked(r) && lo > 0
    ensures Packed(r, lo, hi)
  {
    hide Same, Tiles, NoFreePair, Linked;
    SameTiles(r, s, lo, hi);
    SamePairs(r, s);
  }

  /** The block that the stored link leads to is free exactly when the neighbour in front is, and it is that
  neighbour. */
  lemma LinkFindsNeighbour(bs: seq<Block>, lo: nat, hi: nat, i: nat)
    requires Tiles(bs, lo, hi) && Linked(bs) && i < |bs| && lo > 0
    ensures LeadsToFree(bs, bs[i].prev) <==> i > 0 && bs[i - 1].free
    ensures i > 0 ==> Holder(bs, bs[i].prev + HEADER) == Some(i - 1)
  {
    hide Tiles, Linked, LinkedFrom, LeadsToFree, Holder;
    LinkIs(bs, i);
    if i > 0 {
      HolderIs(bs, lo, hi, i - 1);
      Inside(bs, lo, hi, i - 1);
      LeadsByIndex(bs, bs[i].prev, i - 1);
    } else {
      NullLeadsNowhere(bs);
    }
  }

  lemma LinkIs(bs: seq<Block>, i: nat)
    requires Linked(bs) && i < |bs|
    ensures bs[i].prev == Front(bs, i, 0)
  {}

  lemma LeadsByIndex(bs: seq<Block>, p: nat, k: nat)
    requires p != 0 && k < |bs| && Holder(bs, p + HEADER) == Some(k)
    ensures LeadsToFree(bs, p) <==> bs[k].free
  {}

  lemma NullLeadsNowhere(bs: seq<Block>)
    ensures !LeadsToFree(bs, 0)
  {}

  lemma MallocPacks(bs: seq<Block>, lo: nat, hi: nat, l: Ledger, size: nat)
    requires Packed(bs, lo, hi) && Agree(Live(bs), l)
    ensures Packed(MallocLinked(bs, size).blocks, lo, hi)
    ensures MallocLinked(bs, size).addr == Malloc(bs, size).addr
    ensures Same(MallocLinked(bs, size).blocks, Malloc(bs, size).blocks)
    ensures var o := MallocLinked(bs, size); Agree(Live(o.blocks), Book(l, MallocOf(size), o.addr))
    ensures MallocLinked(bs, size).addr != 0 ==> MallocLinked(bs, size).addr !in l
  {
    MallocSame(bs, size);
    MallocPairs(bs, size);
    hide Malloc, MallocLinked, Tiles, NoFreePair, Linked, Same, Agree;
    MallocKeeps(bs, lo, hi, l, size);
    PackedSame(MallocLinked(bs, size).blocks, Malloc(bs, size).blocks, lo, hi);
    SameAgree(MallocLinked(bs, size).blocks, Malloc(bs, size).blocks, Book(l, MallocOf(size), Malloc(bs, size).addr));
  }

  lemma MallocPairs(bs: seq<Block>, size: nat)
    requires NoFreePair(bs)
    ensures NoFreePair(Malloc(bs, size).blocks)
  {
    hide NoFreePair, Claim;
    var best := BestFit(bs, size + HEADER);
    if size > 0 && best.Some? && best.value < |bs| { ClaimLeavesNoPair(bs, best.value, size + HEADER); }
  }

  lemma MallocSame(bs: seq<Block>, size: nat)
    requires Linked(bs)
    ensures MallocLinked(bs, size).addr == Malloc(bs, size).addr && Linked(MallocLinked(bs, size).blocks)
    ensures Same(MallocLinked(bs, size).blocks, Malloc(bs, size).blocks)
  {
    hide Linked, LinkedFrom, Split, SplitLinked;
    var best := BestFit(bs, size + HEADER);
    if size > 0 && best.Some? && best.value < |bs| {
      var j := best.value;
      var seg := [bs[j].(free := false)] + bs[j + 1..];
      SameSplit(seg, size + HEADER);
      SameAppend(bs[..j], SplitLinked(seg, size + HEADER), Split(seg, size + HEADER));
      LinkedMarked(bs, j, false);
      LinkedSplit(seg, size + HEADER, bs[j].prev);
      LinkedAppend(bs, j, SplitLinked(seg, size + HEADER));
    }
  }

  // ----- free with both merges -----

  /** Block i of the list goes into the block in front of it. */
  function JoinBack(bs: seq<Block>, i: nat): seq<Block>
    requires 0 < i < |bs|
  {
    bs[..i - 1] + Join(bs[i - 1..])
  }

  lemma ReleaseSame(bs: seq<Block>, i: nat)
    requires Linked(bs) && i < |bs|
    ensures Same(ReleaseLinked(bs, i), Release(bs, i)) && Linked(ReleaseLinked(bs, i))
  {
    hide Linked, LinkedFrom, Merge, MergeLinked;
    var seg := [bs[i].(free := true)] + bs[i + 1..];
    SameMerge(seg, seg);
    SameAppend(bs[..i], MergeLinked(seg), Merge(seg));
    LinkedMarked(bs, i, true);
    LinkedMerge(seg, bs[i].prev);
    LinkedAppend(bs, i, MergeLinked(seg));
  }

  /** With every link up to date, the loop joins the freed block with the one in front, if that is free, and
  stops there. */
  lemma BackJoins(bs: seq<Block>, lo: nat, hi: nat, i: nat)
    requires Tiles(bs, lo, hi) && Linked(bs) && i < |bs| && lo > 0
    requires i > 1 ==> !(bs[i - 2].free && bs[i - 1].free)
    ensures if i > 0 && bs[i - 1].free then Same(MergeBack(bs, i), JoinBack(bs, i)) && Linked(MergeBack(bs, i))
            else MergeBack(bs, i) == bs
  {
    hide Tiles, Linked, MergeBack, JoinBack, LeadsToFree;
    LinkFindsNeighbour(bs, lo, hi, i);
    if i > 0 && bs[i - 1].free {
      var r := bs[..i - 1] + JoinLinked(bs[i - 1..]);
      JoinedBack(bs, lo, hi, i, r);
      LinkFindsNeighbour(r, lo, hi, i - 1);
      assert i > 1 ==> r[i - 2] == bs[i - 2];
      BackStep(bs, i, r);
      BackStops(r, i - 1);
    } else {
      BackStops(bs, i);
    }
  }

  lemma BackStops(bs: seq<Block>, i: nat)
    requires i < |bs| && !LeadsToFree(bs, bs[i].prev)
    ensures MergeBack(bs, i) == bs
  {}

  lemma BackStep(bs: seq<Block>, i: nat, r: seq<Block>)
    requires 0 < i < |bs| && r == bs[..i - 1] + JoinLinked(bs[i - 1..])
    requires LeadsToFree(bs, bs[i].prev) && Holder(bs, bs[i].prev + HEADER) == Some(i - 1)
    ensures i - 1 < |r| && MergeBack(bs, i) == MergeBack(r, i - 1)
  {
    TakenIs(bs, i);
    hide TakenIn, JoinLinked, LeadsToFree;
  }

  lemma TakenIs(bs: seq<Block>, i: nat)
    requires 0 < i < |bs|
    ensures TakenIn(bs, i - 1, i) == bs[..i - 1] + JoinLinked(bs[i - 1..])
  {
    assert bs[i - 1..][2..] == bs[i + 1..];
  }

  lemma JoinedBack(bs: seq<Block>, lo: nat, hi: nat, i: nat, r: seq<Block>)
    requires Tiles(bs, lo, hi) && Linked(bs) && 0 < i < |bs| && r == bs[..i - 1] + JoinLinked(bs[i - 1..])
    ensures Tiles(r, lo, hi) && Linked(r) && Same(r, JoinBack(bs, i))
  {
    hide Tiles, Linked, LinkedFrom, Join, JoinLinked;
    var seg := bs[i - 1..];
    LinkedMarked(bs, i - 1, false);
    LinkedJoin(seg, bs[i - 1].prev);
    LinkedAppend(bs, i - 1, JoinLinked(seg));
    SameJoin(seg, seg);
    SameAppend(bs[..i - 1], JoinLinked(seg), Join(seg));
    TilesSuffix(bs, lo, hi, i - 1);
    JoinTiles(seg, bs[i - 1].addr, hi);
    TilesReplace(bs, lo, hi, i - 1, Join(seg));
    SameTiles(r, bs[..i - 1] + Join(seg), lo, hi);
  }

  lemma JoinBackLeavesNoPair(bs: seq<Block>, i: nat)
    requires 0 < i < |bs| && NoFreePair(bs) && bs[i - 1].free
    ensures i < |Release(bs, i)| && NoFreePair(JoinBack(Release(bs, i), i))
  {
    var seg := [bs[i].(free := true)] + bs[i + 1..];
    assert seg[1..] == bs[i + 1..];
    MergeLeavesNoPair(seg);
    MergeLengthens(seg);
    var m, r := Merge(seg), Release(bs, i);
    var j := JoinBack(r, i);
    assert r[i - 1..][2..] == m[1..];
    assert j == bs[..i - 1] + [bs[i - 1].(size := bs[i - 1].size + m[0].size)] + m[1..];
    forall k | 0 <= k < |j| - 1 ensures !(j[k].free && j[k + 1].free) {
      if k + 1 < i {
        assert j[k].free == bs[k].free && j[k + 1].free == bs[k + 1].free;
      } else {
        assert j[k + 1] == m[k + 2 - i];
        assert k + 1 > i ==> j[k] == m[k + 1 - i];
      }
    }
  }

  lemma JoinBackMeaning(bs: seq<Block>, lo: nat, hi: nat, i: nat)
    requires Tiles(bs, lo, hi) && 0 < i < |bs|
    ensures Tiles(JoinBack(bs, i), lo, hi)
    ensures bs[i - 1].free && bs[i].free ==> Live(JoinBack(bs, i)) == Live(bs)
  {
    hide Tiles, Live;
    var seg := bs[i - 1..];
    TilesSuffix(bs, lo, hi, i - 1);
    JoinTiles(seg, bs[i - 1].addr, hi);
    TilesReplace(bs, lo, hi, i - 1, Join(seg));
    if bs[i - 1].free && bs[i].free {
      assert bs == bs[..i - 1] + ([seg[0], seg[1]] + seg[2..]);
      LiveAppend(bs[..i - 1], [seg[0], seg[1]] + seg[2..]);
      LiveAppend([seg[0], seg[1]], seg[2..]);
      LiveAppend(bs[..i - 1], Join(seg));
      LiveAppend([Join(seg)[0]], seg[2..]);
      LiveOne(Join(seg)[0]);
      LiveOne(seg[0]);
      LiveOne(seg[1]);
      assert [seg[0], seg[1]] == [seg[0]] + [seg[1]];
      LiveAppend([seg[0]], [seg[1]]);
    }
  }

  /** free of a block in use with both merges: the list is that of Release, joined with a free block in front,
  with every link up to date. */
  lemma FreePacks(bs: seq<Block>, lo: nat, hi: nat, l: Ledger, a: nat)
    requires Packed(bs, lo, hi) && Agree(Live(bs), l)
    ensures Packed(FreeLinked(bs, a), lo, hi)
    ensures Agree(Live(FreeLinked(bs, a)), l - {a})
  {
    hide Packed, Agree, Live;
    match Holder(bs, a)
    case None => NobodyHeld(bs, l, a);
    case Some(i) =>
      if bs[i].free { FreeIsNotHeld(bs, lo, hi, l, i); } else { FreeAtPacks(bs, lo, hi, l, i); }
  }

  lemma NobodyHeld(bs: seq<Block>, l: Ledger, a: nat)
    requires Agree(Live(bs), l) && Holder(bs, a).None?
    ensures l - {a} == l
  {
    assert !Has(Live(bs), a);
  }

  lemma FreeIsNotHeld(bs: seq<Block>, lo: nat, hi: nat, l: Ledger, i: nat)
    requires Packed(bs, lo, hi) && Agree(Live(bs), l) && i < |bs| && bs[i].free
    ensures l - {bs[i].addr + HEADER} == l
  {
    NotLive(bs, lo, hi, i);
    hide Live;
    assert !Has(Live(bs), bs[i].addr + HEADER);
  }

  /** What Release leaves, joined with a free block in front. */
  function Both(bs: seq<Block>, i: nat): seq<Block>
    requires i < |bs|
  {
    var r := Release(bs, i);
    if 0 < i < |r| && r[i - 1].free then JoinBack(r, i) else r
  }

  lemma BothMeaning(bs: seq<Block>, lo: nat, hi: nat, i: nat)
    requires Tiles(bs, lo, hi) && NoFreePair(bs) && i < |bs| && !bs[i].free
    ensures Tiles(Both(bs, i), lo, hi) && NoFreePair(Both(bs, i)) && Live(Both(bs, i)) == Live(bs) - {bs[i]}
  {
    hide Tiles, NoFreePair, JoinBack, Live, Release;
    ReleaseMeaning(bs, lo, hi, i);
    ReleaseLeavesNoPair(bs, i);
    var r := Release(bs, i);
    if i > 0 {
      assert r[i - 1] == r[..i][i - 1] == bs[..i][i - 1] == bs[i - 1];
      if r[i - 1].free {
        JoinBackMeaning(r, lo, hi, i);
        JoinBackLeavesNoPair(bs, i);
      }
    }
  }

  lemma SameTransitive(a: seq<Block>, b: seq<Block>, c: seq<Block>)
    requires Same(a, b) && Same(b, c)
    ensures Same(a, c)
  {
    forall i | 0 <= i < |a| ensures Alike(a[i], c[i]) { assert Alike(a[i], b[i]) && Alike(b[i], c[i]); }
  }

  lemma SameAt(r: seq<Block>, s: seq<Block>, i: nat)
    requires Same(r, s) && i < |r|
    ensures i < |s| && Alike(r[i], s[i])
  {}

  lemma SameJoinBack(r: seq<Block>, s: seq<Block>, i: nat)
    requires Same(r, s) && 0 < i < |r|
    ensures Same(JoinBack(r, i), JoinBack(s, i))
  {
    var x, y := JoinBack(r, i), JoinBack(s, i);
    SameAt(r, s, i - 1);
    SameAt(r, s, i);
    forall k | 0 <= k < |x| ensures Alike(x[k], y[k]) {
      if k < i - 1 {
        SameAt(r, s, k);
      } else if k >= i {
        SameAt(r, s, k + 1);
        assert x[k] == r[k + 1] && y[k] == s[k + 1];
      }
    }
  }

  lemma FreeAtIs(bs: seq<Block>, lo: nat, hi: nat, i: nat)
    requires Packed(bs, lo, hi) && i < |bs| && !bs[i].free
    ensures i < |ReleaseLinked(bs, i)|
    ensures Same(MergeBack(ReleaseLinked(bs, i), i), Both(bs, i)) && Linked(MergeBack(ReleaseLinked(bs, i), i))
  {
    hide Tiles, Linked, NoFreePair, MergeBack, JoinBack, Release, ReleaseLinked, Same, Live;
    var r, s := ReleaseLinked(bs, i), Release(bs, i);
    ReleaseSame(bs, i);
    ReleaseMeaning(bs, lo, hi, i);
    SameTiles(r, s, lo, hi);
    ReleasePrefix(bs, r, s, i);
    BackJoins(r, lo, hi, i);
    if i > 0 && r[i - 1].free {
      SameJoinBack(r, s, i);
      SameTransitive(MergeBack(r, i), JoinBack(r, i), JoinBack(s, i));
    }
  }

  lemma ReleasePrefix(bs: seq<Block>, r: seq<Block>, s: seq<Block>, i: nat)
    requires i < |bs| && i < |s| && s[..i] == bs[..i] && Same(r, s) && NoFreePair(bs)
    ensures i < |r| && (i > 0 ==> r[i - 1].free == bs[i - 1].free == s[i - 1].free)
    ensures i > 1 ==> !(r[i - 2].free && r[i - 1].free)
  {
    SameAt(r, s, i);
    if i > 0 { SameAt(r, s, i - 1); assert s[i - 1] == s[..i][i - 1] == bs[i - 1]; }
    if i > 1 { SameAt(r, s, i - 2); assert s[i - 2] == s[..i][i - 2] == bs[i - 2]; }
  }

  lemma FreeAtPacks(bs: seq<Block>, lo: nat, hi: nat, l: Ledger, i: nat)
    requires Packed(bs, lo, hi) && Agree(Live(bs), l) && i < |bs| && !bs[i].free
    requires Holder(bs, bs[i].addr + HEADER) == Some(i)
    ensures Packed(FreeLinked(bs, bs[i].addr + HEADER), lo, hi)
    ensures Agree(Live(FreeLinked(bs, bs[i].addr + HEADER)), l - {bs[i].addr + HEADER})
  {
    hide Tiles, Linked, NoFreePair, MergeBack, ReleaseLinked, Both, Same, Live, Agree;
    FreeAtIs(bs, lo, hi, i);
    var r, s := MergeBack(ReleaseLinked(bs, i), i), Both(bs, i);
    BothMeaning(bs, lo, hi, i);
    PackedSame(r, s, lo, hi);
    OthersThan(bs, lo, hi, i);
    assert Live(s) == Without(Live(bs), bs[i].addr + HEADER);
    AgreeRemove(Live(bs), l, bs[i].addr + HEADER);
    SameAgree(r, s, l - {bs[i].addr + HEADER});
  }

  // ----- realloc -----

  lemma GrowSame(bs: seq<Block>, i: nat, need: nat)
    requires Linked(bs) && i < |bs|
    ensures Same(GrowLinked(bs, i, need), Grow(bs, i, need)) && Linked(GrowLinked(bs, i, need))
  {
    hide Linked, LinkedFrom, Absorb, AbsorbLinked;
    var seg := bs[i..];
    SameAbsorb(seg, seg, need);
    SameAppend(bs[..i], AbsorbLinked(seg, need), Absorb(seg, need));
    LinkedMarked(bs, i, false);
    LinkedAbsorb(seg, need, bs[i].prev);
    LinkedAppend(bs, i, AbsorbLinked(seg, need));
  }

  lemma ShrinkSame(bs: seq<Block>, i: nat, need: nat)
    requires Linked(bs) && i < |bs|
    ensures Same(ShrinkLinked(bs, i, need), Shrink(bs, i, need)) && Linked(ShrinkLinked(bs, i, need))
  {
    hide Linked, LinkedFrom, Split, SplitLinked;
    var seg := bs[i..];
    SameSplit(seg, need);
    SameAppend(bs[..i], SplitLinked(seg, need), Split(seg, need));
    LinkedMarked(bs, i, false);
    LinkedSplit(seg, need, bs[i].prev);
    LinkedAppend(bs, i, SplitLinked(seg, need));
  }

  lemma GrowPacks(bs: seq<Block>, lo: nat, hi: nat, l: Ledger, i: nat, size: nat)
    requires Packed(bs, lo, hi) && Agree(Live(bs), l) && i < |bs| && !bs[i].free && bs[i] in Live(bs)
    ensures var g := GrowLinked(bs, i, size + HEADER);
            Packed(g, lo, hi) && Agree(Live(g), l) && i < |g| && !g[i].free && g[i].addr == bs[i].addr
  {
    hide Tiles, Linked, NoFreePair, Same, Live, Agree, Grow, GrowLinked;
    var g, s := GrowLinked(bs, i, size + HEADER), Grow(bs, i, size + HEADER);
    GrowSame(bs, i, size + HEADER);
    GrowResizes(bs, lo, hi, i, size, s);
    GrowLeavesNoPair(bs, i, size + HEADER);
    PackedSame(g, s, lo, hi);
    assert forall c :: c in Live(bs) - {bs[i]} ==> c.addr != s[i].addr;
    AgreeGrow(Live(bs), l, bs[i], s[i]);
    SameAgree(g, s, l);
    SameLength(g, s);
    SameAt(g, s, i);
  }

  lemma SameLength(g: seq<Block>, s: seq<Block>)
    requires Same(g, s)
    ensures |g| == |s|
  {}

  lemma ShrinkPacks(bs: seq<Block>, lo: nat, hi: nat, l: Ledger, i: nat, size: nat)
    requires Packed(bs, lo, hi) && Agree(Live(bs), l) && i < |bs| && !bs[i].free && HEADER + size <= bs[i].size
    ensures Packed(ShrinkLinked(bs, i, size + HEADER), lo, hi)
    ensures Agree(Live(ShrinkLinked(bs, i, size + HEADER)), (l - {bs[i].addr + HEADER})[bs[i].addr + HEADER := size])
  {
    hide Tiles, Linked, NoFreePair, Same, Agree, Shrink, ShrinkLinked;
    var g, s := ShrinkLinked(bs, i, size + HEADER), Shrink(bs, i, size + HEADER);
    assert bs[i] in Live(bs);
    hide Live;
    ShrinkSame(bs, i, size + HEADER);
    ShrinkResizes(bs, lo, hi, i, size, s);
    ShrinkLeavesNoPair(bs, i, size + HEADER);
    PackedSame(g, s, lo, hi);
    OthersThan(bs, lo, hi, i);
    AgreeReplace(Live(bs), l, bs[i], s[i], size);
    SameAgree(g, s, (l - {bs[i].addr + HEADER})[bs[i].addr + HEADER := size]);
  }

  lemma ResizePacks(bs: seq<Block>, lo: nat, hi: nat, l: Ledger, i: nat, size: nat)
    requires Packed(bs, lo, hi) && Agree(Live(bs), l) && i < |bs| && !bs[i].free && size > 0 && bs[i] in Live(bs)
    requires bs[i].addr + HEADER in l
    ensures var o := ResizeLinked(bs, i, size);
            Packed(o.blocks, lo, hi) && Agree(Live(o.blocks), Book(l, ReallocOf(bs[i].addr + HEADER, size), o.addr))
  {
    hide Packed, Live, Agree, GrowLinked, ShrinkLinked, MallocLinked, FreeLinked;
    var a := bs[i].addr + HEADER;
    if bs[i].size > size + HEADER {
      ShrinkPacks(bs, lo, hi, l, i, size);
    } else {
      GrowPacks(bs, lo, hi, l, i, size);
      var g := GrowLinked(bs, i, size + HEADER);
      if g[i].size >= size + HEADER {
        ShrinkPacks(g, lo, hi, l, i, size);
      } else {
        MallocPacks(g, lo, hi, l, size);
        var o := MallocLinked(g, size);
        if o.addr != 0 {
          FreePacks(o.blocks, lo, hi, l[o.addr := size], a);
          assert l[o.addr := size] - {a} == (l - {a})[o.addr := size];
        }
      }
    }
  }

  lemma SameHeld(r: seq<Block>, s: seq<Block>, a: nat, size: nat)
    requires Same(r, s) && HeldAt(s, a, size)
    ensures HeldAt(r, a, size)
  {
    var c :| c in Live(s) && c.addr + HEADER == a && Holds(c, size);
    SameBack(r, s);
    var b := SameLive(s, r, c);
    assert Holds(b, size);
  }

  lemma {:induction false} SameBestFrom(r: seq<Block>, s: seq<Block>, need: nat, i: nat, best: Option<nat>)
    requires Same(r, s) && i <= |r| && (best.Some? ==> best.value < |r|)
    ensures BestFrom(r, need, i, best) == BestFrom(s, need, i, best)
    decreases |r| - i
  {
    if i < |r| {
      assert Alike(r[i], s[i]);
      if best.Some? { assert Alike(r[best.value], s[best.value]); }
      if r[i].free && r[i].size >= need && (best.None? || r[i].size < r[best.value].size) {
        SameBestFrom(r, s, need, i + 1, Some(i));
      } else {
        SameBestFrom(r, s, need, i + 1, best);
      }
    }
  }

  lemma SameMalloc(r: seq<Block>, s: seq<Block>, size: nat)
    requires Same(r, s)
    ensures Malloc(r, size).addr == Malloc(s, size).addr
  {
    hide Claim, BestFrom;
    SameLength(r, s);
    SameBestFrom(r, s, size + HEADER, 0, None);
    var j := BestFit(r, size + HEADER);
    if j.Some? && j.value < |r| { SameAt(r, s, j.value); }
  }

  /** realloc returns what it does without the upkeep of the links. */
  lemma ResizeSame(bs: seq<Block>, lo: nat, hi: nat, i: nat, size: nat, back: Back)
    requires Packed(bs, lo, hi) && i < |bs|
    ensures ResizeLinked(bs, i, size).addr == Resize(bs, i, size, back).addr
  {
    hide Tiles, Linked, NoFreePair, Same, Grow, GrowLinked, Shrink, ShrinkLinked, Malloc, MallocLinked, FreeLinked,
      Free;
    if !bs[i].free && bs[i].size <= size + HEADER {
      var g, s := GrowLinked(bs, i, size + HEADER), Grow(bs, i, size + HEADER);
      GrowSame(bs, i, size + HEADER);
      GrowMeaning(bs, lo, hi, i, size + HEADER);
      SameLength(g, s);
      SameAt(g, s, i);
      MallocSame(g, size);
      SameMalloc(g, s, size);
    }
  }

  /** free leaves every other block in use as it is. */
  lemma FreeKeepsHeld(bs: seq<Block>, lo: nat, hi: nat, a: nat, c: nat, size: nat)
    requires Packed(bs, lo, hi) && HeldAt(bs, c, size) && c != a
    ensures HeldAt(FreeLinked(bs, a), c, size)
  {
    hide Tiles, Linked, NoFreePair, MergeBack, ReleaseLinked, Both, Same, Live, HeldAt;
    match Holder(bs, a)
    case None =>
    case Some(i) =>
      if !bs[i].free {
        FreeAtIs(bs, lo, hi, i);
        BothMeaning(bs, lo, hi, i);
        StillHeld(Live(bs), Live(Both(bs, i)), bs, Both(bs, i), bs[i], c, size);
        SameHeld(MergeBack(ReleaseLinked(bs, i), i), Both(bs, i), c, size);
      }
  }

  lemma StillHeld(live: set<Block>, after: set<Block>, bs: seq<Block>, f: seq<Block>, gone: Block, c: nat, size: nat)
    requires live == Live(bs) && after == Live(f) && after == live - {gone} && gone.addr + HEADER != c
    requires HeldAt(bs, c, size)
    ensures HeldAt(f, c, size)
  {
    hide Live, Holds;
    var b :| b in live && b.addr + HEADER == c && Holds(b, size);
    assert b in after;
  }

  lemma ShrinkHeld(bs: seq<Block>, lo: nat, hi: nat, i: nat, size: nat)
    requires Packed(bs, lo, hi) && i < |bs| && !bs[i].free && HEADER + size <= bs[i].size
    ensures HeldAt(ShrinkLinked(bs, i, size + HEADER), bs[i].addr + HEADER, size)
  {
    hide Tiles, Linked, NoFreePair, Same, Shrink, ShrinkLinked, Live, Holds, Apart;
    var s := Shrink(bs, i, size + HEADER);
    ShrinkSame(bs, i, size + HEADER);
    ShrinkResizes(bs, lo, hi, i, size, s);
    assert s[i] in Live(s);
    SameHeld(ShrinkLinked(bs, i, size + HEADER), s, bs[i].addr + HEADER, size);
  }

  lemma MallocHeld(bs: seq<Block>, lo: nat, hi: nat, size: nat)
    requires Packed(bs, lo, hi) && size > 0
    ensures MallocLinked(bs, size).addr == 0 <==> NoRoom(bs, size)
    ensures var o := MallocLinked(bs, size);
            o.addr != 0 ==>
              && HeldAt(o.blocks, o.addr, size) && BestAt(bs, size, o.addr)
              && (forall b :: b in Live(bs) ==> b.addr + HEADER != o.addr)
  {
    hide Tiles, Linked, NoFreePair, Same, Malloc, MallocLinked, Live, Holds, NoRoom, Apart, BestAt;
    MallocSame(bs, size);
    var b := MallocContract(bs, lo, hi, size);
    if Malloc(bs, size).addr != 0 {
      MallocIsBest(bs, size);
      assert b in Live(Malloc(bs, size).blocks);
      SameHeld(MallocLinked(bs, size).blocks, Malloc(bs, size).blocks, Malloc(bs, size).addr, size);
    }
  }

  /** realloc of a block in use with a size above zero: null exactly when the block with the free space behind it is
  too small and no free block fits, the old address exactly when that space is enough, and otherwise a block
  that holds what was asked. */
  lemma ResizeMeaning(bs: seq<Block>, lo: nat, hi: nat, l: Ledger, i: nat, size: nat)
    requires Packed(bs, lo, hi) && Agree(Live(bs), l) && i < |bs| && !bs[i].free && size > 0 && bs[i] in Live(bs)
    ensures var o := ResizeLinked(bs, i, size);
            && (o.addr == 0 <==> bs[i].size + FreeRun(bs[i + 1..]) < HEADER + size && NoRoom(bs, size))
            && (o.addr == bs[i].addr + HEADER <==> bs[i].size + FreeRun(bs[i + 1..]) >= HEADER + size)
            && (o.addr != 0 && o.addr != bs[i].addr + HEADER ==> BestAt(bs, size, o.addr))
            && (o.addr != 0 ==> HeldAt(o.blocks, o.addr, size))
  {
    hide Tiles, Linked, NoFreePair, Live, Agree, GrowLinked, ShrinkLinked, MallocLinked, FreeLinked, HeldAt, FreeRun,
      Resize, NoRoom, BestAt;
    var a := ResizeLinked(bs, i, size).addr;
    if a != 0 && a != bs[i].addr + HEADER {
      ResizeSame(bs, lo, hi, i, size, Back(0, 0));
      MoveIsBest(bs, lo, hi, i, size, Back(0, 0));
    }
    ResizeSame(bs, lo, hi, i, size, Back(0, 0));
    ReallocFails(bs, lo, hi, i, size, Back(0, 0));
    ReallocStays(bs, lo, hi, i, size, Back(0, 0));
    if bs[i].size > size + HEADER {
      ShrinkHeld(bs, lo, hi, i, size);
    } else {
      GrowPacks(bs, lo, hi, l, i, size);
      var g := GrowLinked(bs, i, size + HEADER);
      if g[i].size >= size + HEADER {
        ShrinkHeld(g, lo, hi, i, size);
      } else {
        MallocHeld(g, lo, hi, size);
        InLive(g, i);
        MallocPacks(g, lo, hi, l, size);
        var o := MallocLinked(g, size);
        if o.addr != 0 { FreeKeepsHeld(o.blocks, lo, hi, bs[i].addr + HEADER, o.addr, size); }
      }
    }
  }

  lemma PerformPacks(bs: seq<Block>, lo: nat, hi: nat, l: Ledger, q: Request)
    requires Packed(bs, lo, hi) && Agree(Live(bs), l) && Proper(l, q)
    ensures Packed(PerformLinked(bs, q).blocks, lo, hi)
    ensures Agree(Live(PerformLinked(bs, q).blocks), Book(l, q, PerformLinked(bs, q).addr))
    ensures Answers(bs, q, PerformLinked(bs, q))
  {
    hide Tiles, NoFreePair, Linked, Live, Agree, MallocLinked, FreeLinked, ResizeLinked, Same, Has, HeldAt, NoRoom,
      FreeRun, BestAt;
    NothingLinked(bs);
    match q
    case MallocOf(size) =>
      MallocPacks(bs, lo, hi, l, size);
      if size > 0 { MallocHeld(bs, lo, hi, size); }
    case FreeOf(a) =>
      FreePacks(bs, lo, hi, l, a);
      GivenBack(Live(FreeLinked(bs, a)), l, a);
    case ReallocOf(a, size) =>
      if a == 0 {
        MallocPacks(bs, lo, hi, l, size);
        NullIsNotHeld(bs, l);
        if size > 0 { MallocHeld(bs, lo, hi, size); }
      } else if size == 0 {
        FreePacks(bs, lo, hi, l, a);
        GivenBack(Live(FreeLinked(bs, a)), l, a);
      } else {
        var i := Held(bs, lo, hi, l, a);
        ResizePacks(bs, lo, hi, l, i, size);
        ResizeMeaning(bs, lo, hi, l, i, size);
      }
  }

  lemma NothingLinked(bs: seq<Block>)
    ensures MallocLinked(bs, 0) == Outcome(bs, 0)
  {}

  /** A run is its requests one after the other. */
  lemma {:induction false} RunLast(bs: seq<Block>, l: Ledger, qs: seq<Request>, q: Request)
    ensures var (f, k) := RunLinked(bs, l, qs);
            RunLinked(bs, l, qs + [q]) ==
            if Proper(k, q) then (PerformLinked(f, q).blocks, Book(k, q, PerformLinked(f, q).addr)) else (f, k)
    decreases |qs|
  {
    hide PerformLinked, Book, Proper;
    if qs == [] {
      assert qs + [q] == [q] && [q][1..] == [];
    } else {
      assert (qs + [q])[1..] == qs[1..] + [q];
      if Proper(l, qs[0]) {
        var o := PerformLinked(bs, qs[0]);
        RunLast(o.blocks, Book(l, qs[0], o.addr), qs[1..], q);
      } else {
        RunLast(bs, l, qs[1..], q);
      }
    }
  }

  /** Over all runs of the repaired allocator the blocks tile the heap, their sizes sum to its size, no two
  free blocks are neighbours, every back link is that of the block in front, and the blocks in use are exactly
  those the client holds. */
  lemma {:induction false} RunPacks(bs: seq<Block>, lo: nat, hi: nat, l: Ledger, qs: seq<Request>)
    requires Packed(bs, lo, hi) && Agree(Live(bs), l)
    ensures Packed(RunLinked(bs, l, qs).0, lo, hi) && TotalSize(RunLinked(bs, l, qs).0) == hi - lo
    ensures Agree(Live(RunLinked(bs, l, qs).0), RunLinked(bs, l, qs).1)
    decreases |qs|
  {
    hide Linked, NoFreePair, Tiles, PerformLinked, Live, Agree, Book, Proper;
    if qs == [] {
      SizesSum(bs, lo, hi);
    } else if Proper(l, qs[0]) {
      PerformPacks(bs, lo, hi, l, qs[0]);
      var o := PerformLinked(bs, qs[0]);
      RunPacks(o.blocks, lo, hi, Book(l, qs[0], o.addr), qs[1..]);
    } else {
      RunPacks(bs, lo, hi, l, qs[1..]);
    }
  }

  // ----- malloc undone by free -----

  lemma LinkedSame(r: seq<Block>, s: seq<Block>)
    requires Linked(r) && Linked(s) && Same(r, s)
    ensures r == s
  {
    forall i | 0 <= i < |r| ensures r[i] == s[i] {
      SameAt(r, s, i);
      assert r[i].prev == Front(r, i, 0) && s[i].prev == Front(s, i, 0);
      if i > 0 { SameAt(r, s, i - 1); }
    }
  }

  /** What the forward half leaves of the block that malloc has just handed out. */
  lemma ReleasedAgain(bs: seq<Block>, lo: nat, hi: nat, size: nat, j: nat)
    requires Packed(bs, lo, hi) && hi < WORD && size > 0 && j < |bs| && BestFit(bs, size + HEADER) == Some(j)
    ensures var o := MallocLinked(bs, size).blocks;
            && j < |o| && Tiles(o, lo, hi) && !o[j].free && o[j].addr == bs[j].addr
            && ReleaseLinked(o, j) == bs && bs[j].free
  {
    hide Tiles, NoFreePair, Linked, LinkedFrom, Same, Claim, Release, ReleaseLinked, BestFit, Fits, FreedWith;
    var o, c := MallocLinked(bs, size).blocks, Claim(bs, j, size + HEADER);
    BestIs(bs, size + HEADER, j);
    FitsMeans(bs, size + HEADER, j);
    ClaimMeaning(bs, lo, hi, j, size + HEADER);
    Inside(bs, lo, hi, j);
    MallocSame(bs, size);
    SameTiles(o, c, lo, hi);
    SameLength(o, c);
    SameAt(o, c, j);
    FreedMeaning(c, lo, hi, j, 0, c[j].prev);
    ClaimFreed(bs, j, size + HEADER, 0, c[j].prev);
    NextInUse(bs, j);
    ReleaseSame(o, j);
    SameRelease(o, c, j);
    LinkedSame(ReleaseLinked(o, j), bs);
  }

  lemma FitsMeans(bs: seq<Block>, need: nat, j: nat)
    requires Fits(bs, need, j)
    ensures j < |bs| && bs[j].free && bs[j].size >= need
  {}

  lemma NextInUse(bs: seq<Block>, j: nat)
    requires NoFreePair(bs) && j < |bs| && bs[j].free
    ensures !(j + 1 < |bs| && bs[j + 1].free) && !(j > 0 && bs[j - 1].free)
  {}

  lemma SameRelease(o: seq<Block>, c: seq<Block>, j: nat)
    requires Same(o, c) && j < |o|
    ensures Same(ReleaseLinked(o, j), Release(c, j))
  {
    hide Merge, MergeLinked;
    var a, b := [o[j].(free := true)] + o[j + 1..], [c[j].(free := true)] + c[j + 1..];
    SameMerge(a, b);
    assert Same(o[..j], c[..j]);
  }

  /** In the repaired allocator malloc followed by free of the result restores every list that a run can
  leave, back links included. */
  lemma MallocThenFree(bs: seq<Block>, lo: nat, hi: nat, size: nat)
    requires Packed(bs, lo, hi) && hi < WORD && MallocLinked(bs, size).addr != 0
    ensures FreeLinked(MallocLinked(bs, size).blocks, MallocLinked(bs, size).addr) == bs
  {
    hide Tiles, NoFreePair, Linked, ReleaseLinked, MergeBack, BestFit, MallocLinked, FreeLinked, LeadsToFree, Same,
      JoinBack, Holder;
    var j := MallocChoice(bs, size);
    ReleasedAgain(bs, lo, hi, size, j);
    var o := MallocLinked(bs, size);
    HolderIs(o.blocks, lo, hi, j);
    FreeIsBack(o.blocks, o.addr, j);
    NextInUse(bs, j);
    BackJoins(bs, lo, hi, j);
  }

  lemma MallocChoice(bs: seq<Block>, size: nat) returns (j: nat)
    requires MallocLinked(bs, size).addr != 0
    ensures size > 0 && j < |bs| && BestFit(bs, size + HEADER) == Some(j)
    ensures MallocLinked(bs, size).addr == bs[j].addr + HEADER
  {
    j := BestFit(bs, size + HEADER).value;
  }

  lemma FreeIsBack(o: seq<Block>, a: nat, j: nat)
    requires j < |o| && Holder(o, a) == Some(j) && !o[j].free && j < |ReleaseLinked(o, j)|
    ensures FreeLinked(o, a) == MergeBack(ReleaseLinked(o, j), j)
  {}
}
