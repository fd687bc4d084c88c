/** Where lib/stdlib/heap.c departs from its intent: what realloc copies, which block it returns, and a run
of harmless calls after which malloc followed by free breaks the heap. Every heap here is reached by calls.
*/
module Departures {
  import opened Options
  import opened Bytes
  import opened Blocks
  import opened Allocator
  import opened Requests
  import opened Chains
  import opened Heaps

  // ----- The copy of a realloc that moves -----

  /** The block that realloc moves to is short of the copied bytes by less than a header. */
  lemma MovedRoom(bs: seq<Block>, lo: nat, hi: nat, i: nat, size: nat)
    requires Tiles(bs, lo, hi) && i < |bs| && Moves(bs, i, size)
    ensures forall b :: b in Malloc(Grow(bs, i, size + HEADER), size).blocks
              && b.addr + HEADER == Malloc(Grow(bs, i, size + HEADER), size).addr
              ==> HEADER + size <= b.size && bs[i].size < b.size
  {
    hide Tiles, Malloc, Grow;
    var g := Grow(bs, i, size + HEADER);
    GrowResizes(bs, lo, hi, i, size, g);
    MallocOfNothing(g);
    var c := MallocContract(g, lo, hi, size);
    var o := Malloc(g, size);
    assert c in Live(o.blocks);
    LiveAre(o.blocks);
    hide Live;
    forall b | b in o.blocks && b.addr + HEADER == o.addr ensures HEADER + size <= b.size && bs[i].size < b.size {
      OneAt(o.blocks, lo, hi, b, c);
    }
  }

  /** The copy takes the old block's size with its header. It stays inside the new block exactly when the new
  size is no smaller than that, or when the block chosen has the room and is too small to be cut. */
  lemma CopyFitsWhen(bs: seq<Block>, lo: nat, hi: nat, i: nat, size: nat)
    requires Tiles(bs, lo, hi) && i < |bs| && Moves(bs, i, size)
    ensures CopyFits(bs, i, size) <==>
            (var f := Choice(Grow(bs, i, size + HEADER), size).size;
             bs[i].size <= size || HEADER + bs[i].size <= f < size + 2 * HEADER)
  {
    hide Tiles, Malloc, Grow, Choice;
    var g := Grow(bs, i, size + HEADER);
    GrowResizes(bs, lo, hi, i, size, g);
    var c := MallocSize(g, lo, hi, size);
    var o := Malloc(g, size);
    forall b | b in o.blocks && b.addr + HEADER == o.addr ensures b == c {
      OneAt(o.blocks, lo, hi, b, c);
    }
  }

  /** On a fresh heap of 192 bytes, malloc of 40 and of 8, then realloc of the first to 48: a copy of 72 bytes
  goes into a payload of 48. */
  lemma CopyTooLong(lo: nat)
    requires lo > 0
    ensures var q := Malloc(Malloc(Blank(lo, lo + 192), 40).blocks, 8).blocks;
            |q| == 3 && Moves(q, 0, 48) && !CopyFits(q, 0, 48)
  {
    TwoBlocks(lo, lo + 192, 40, 8);
    Tight(lo);
    hide Malloc, Moves, CopyFits;
  }

  /** Its blocks. */
  function TightHeap(lo: nat): seq<Block> {
    [Block(lo, 72, false, 0), Block(lo + 72, 40, false, lo), Block(lo + 112, 80, true, lo + 72)]
  }

  lemma Tight(lo: nat)
    requires lo > 0
    ensures Moves(TightHeap(lo), 0, 48) && !CopyFits(TightHeap(lo), 0, 48)
  {
    TightGrow(lo);
    TightFit(lo);
    hide Grow, Malloc, BestFit, CopyFits, Tiles;
    CopyFitsWhen(TightHeap(lo), lo, lo + 192, 0, 48);
  }

  lemma TightFit(lo: nat)
    ensures BestFit(TightHeap(lo), 80) == Some(2) && Malloc(TightHeap(lo), 48).addr != 0
  {
    hide Claim, BestFit, Malloc;
    Chosen(TightHeap(lo), 48, 2);
  }

  lemma TightGrow(lo: nat)
    ensures Grow(TightHeap(lo), 0, 80) == TightHeap(lo) && Tiles(TightHeap(lo), lo, lo + 192)
  {}

  /** realloc of a block that is free hands its address out again and leaves it free. */
  lemma ReallocOfFreed(bs: seq<Block>, lo: nat, hi: nat, i: nat, size: nat, back: Back)
    requires Tiles(bs, lo, hi) && i < |bs| && bs[i].free && size > 0
    ensures Realloc(bs, bs[i].addr + HEADER, size, back) == Outcome(bs, bs[i].addr + HEADER)
  {
    HolderIs(bs, lo, hi, i);
  }

  // ----- Freed in the order they were handed out -----

  lemma Chosen(bs: seq<Block>, size: nat, j: nat)
    requires size > 0 && Fits(bs, size + HEADER, j)
    requires forall k :: 0 <= k < |bs| && k != j && Fits(bs, size + HEADER, k) ==> bs[j].size < bs[k].size
    ensures BestFit(bs, size + HEADER) == Some(j)
    ensures Malloc(bs, size) == Outcome(Claim(bs, j, size + HEADER), bs[j].addr + HEADER)
  {
    BestFitMeaning(bs, size + HEADER);
  }

  /** Two blocks from a fresh heap. */
  lemma TwoBlocks(lo: nat, hi: nat, a: nat, b: nat)
    requires lo > 0 && a > 0 && b > 0 && lo + a + b + 3 * HEADER <= hi
    ensures var p := Malloc(Blank(lo, hi), a);
            var q := Malloc(p.blocks, b);
            p.addr == lo + HEADER && q.addr == lo + a + HEADER + HEADER
            && q.blocks == [Block(lo, a + HEADER, false, 0), Block(lo + a + HEADER, b + HEADER, false, lo),
                            Block(lo + a + b + 2 * HEADER, hi - lo - a - b - 2 * HEADER, true, lo + a + HEADER)]
  {
    var bs := Blank(lo, hi);
    BestFitMeaning(bs, a + HEADER);
    assert Fits(bs, a + HEADER, 0);
    var p := Malloc(bs, a);
    var rest := Block(lo + a + HEADER, hi - lo - a - HEADER, true, lo);
    assert p.blocks == [Block(lo, a + HEADER, false, 0), rest];
    BestFitMeaning(p.blocks, b + HEADER);
    assert Fits(p.blocks, b + HEADER, 1) && !Fits(p.blocks, b + HEADER, 0);
    assert BestFit(p.blocks, b + HEADER) == Some(1);
    assert p.blocks[2..] == [];
  }

  /** From a fresh heap, two blocks of any sizes that leave room for a third header, freed in the order they
  were handed out: the heap is no longer tiled. */
  method FreeInOrder(h: Heap, a: nat, b: nat)
    requires h.Valid() && h.blocks == [] && 0 < a && 0 < b && h.heapStart + a + b + 3 * HEADER <= h.heapEnd
    modifies h.ram, h`blocks
    ensures !h.Valid()
  {
    hide Runs, HeaderAt, Touched, Heads, BackWalk, WalkSize, Chain, OnlyHeader, Malloc, Free, BackAlong;
    ghost var lo, hi := h.heapStart, h.heapEnd;
    TwoBlocks(lo, hi, a, b);
    var p := h.Malloc(a);
    var q := h.Malloc(b);
    FirstFree(h.ram[..], h.blocks, lo, hi);
    h.Free(p, []);
    LinkedWalk(h.ram[..], h.blocks, lo, hi, 0);
    SecondHeld(h.blocks, lo, hi);
    h.Free(q, [lo]);
  }

  /** The first block is freed: its back link is null and the second block is in use. */
  lemma FirstFree(m: seq<Byte>, bs: seq<Block>, lo: nat, hi: nat)
    requires Runs(m, bs, lo, hi) && |bs| >= 2 && bs[0].prev == 0 && !bs[1].free && !bs[0].free
    ensures Holder(bs, lo + HEADER) == Some(0) && BackWalk(m, lo, 0, []) && WalkSize(m, []) == 0
    ensures Free(bs, lo + HEADER, BackAlong(m, 0, [])) == [bs[0].(free := true)] + bs[1..]
  {
    HolderIs(bs, lo, hi, 0);
    FreedMeaning(bs, lo, hi, 0, 0, 0);
    assert Release(bs, 0) == [bs[0].(free := true)] + bs[1..];
  }

  lemma SecondHeld(bs: seq<Block>, lo: nat, hi: nat)
    requires Tiles(bs, lo, hi) && |bs| >= 2
    ensures Holder(bs, bs[1].addr + HEADER) == Some(1)
  {
    HolderIs(bs, lo, hi, 1);
  }

  /** A block whose back link leads to the free block before it: freeing it adds the size of that one. */
  lemma LinkedWalk(m: seq<Byte>, bs: seq<Block>, lo: nat, hi: nat, i: nat)
    requires Runs(m, bs, lo, hi) && i + 1 < |bs| && bs[i].free && bs[i].prev == 0 && bs[i + 1].prev == bs[i].addr
    ensures BackWalk(m, bs[i + 1].addr, bs[i + 1].prev, [bs[i].addr])
    ensures WalkSize(m, [bs[i].addr]) % WORD != 0 && Tiles(bs, lo, hi)
  {
    hide HeaderAt, Chain;
    Reach(m, bs, lo, hi, i);
    Inside(bs, lo, hi, i);
    Ordered(bs, lo, hi, i, i + 1);
    BigEnough(bs, lo, hi, i);
    NullWalk(m, bs[i + 1].addr);
  }

  // ----- Freed behind a block that was taken in -----

  /** Three blocks from a fresh heap. */
  lemma ThreeBlocks(lo: nat, hi: nat, a: nat, b: nat, c: nat)
    requires lo > 0 && a > 0 && b > 0 && c > 0 && lo + a + b + c + 4 * HEADER <= hi
    ensures var p := Malloc(Blank(lo, hi), a);
            var q := Malloc(p.blocks, b);
            var r := Malloc(q.blocks, c);
            && p.addr == lo + HEADER && q.addr == lo + a + 2 * HEADER && r.addr == lo + a + b + 3 * HEADER
            && r.blocks == Three(lo, hi, a, b, c, false, false)
  {
    TwoBlocks(lo, hi, a, b);
    var q := Malloc(Malloc(Blank(lo, hi), a).blocks, b);
    hide Malloc, BestFit, Merge;
    Chosen(q.blocks, c, 2);
    var seg := [q.blocks[2].(free := false)] + q.blocks[3..];
    var at, rest := lo + a + b + 2 * HEADER, Block(lo + a + b + c + 3 * HEADER, hi - lo - a - b - c - 3 * HEADER, true,
                                                   lo + a + b + 2 * HEADER);
    MergeNothing([rest]);
    assert [rest] + seg[1..] == [rest];
    assert Split(seg, c + HEADER) == [Block(at, c + HEADER, false, lo + a + HEADER), rest];
  }

  /** Their list, with the first two in use or free. */
  function Three(lo: nat, hi: nat, a: nat, b: nat, c: nat, first: bool, second: bool): seq<Block>
    requires lo + a + b + c + 3 * HEADER <= hi
  {
    [Block(lo, a + HEADER, first, 0), Block(lo + a + HEADER, b + HEADER, second, lo),
     Block(lo + a + b + 2 * HEADER, c + HEADER, false, lo + a + HEADER),
     Block(lo + a + b + c + 3 * HEADER, hi - lo - a - b - c - 3 * HEADER, true, lo + a + b + 2 * HEADER)]
  }

  /** From a fresh heap, three blocks of any sizes that leave room for a fourth header. The second is freed, then the
  first, which takes it in, then the third. Each back link is null or leads to no listed free block, but that
  of the third leads to the header of the block that was taken in, which is still in memory: the heap is no
  longer tiled. */
  method FreeBehindTakenIn(h: Heap, a: nat, b: nat, c: nat)
    requires h.Valid() && h.blocks == [] && 0 < a && 0 < b && 0 < c
    requires h.heapStart + a + b + c + 4 * HEADER <= h.heapEnd && a + 2 * b + 3 * HEADER != WORD
    modifies h.ram, h`blocks
    ensures !h.Valid()
  {
    hide Runs, HeaderAt, Touched, Heads, BackWalk, WalkSize, Chain, OnlyHeader, Free, BackAlong, TakenIn, LinkOf;
    var p, q, r := HandOutThree(h, a, b, c);
    FreeSecondThenFirst(h, p, q, a, b, c);
    h.Free(r, [h.heapStart + a + HEADER, h.heapStart]);
  }

  method HandOutThree(h: Heap, a: nat, b: nat, c: nat) returns (p: nat, q: nat, r: nat)
    requires h.Valid() && h.blocks == [] && 0 < a && 0 < b && 0 < c
    requires h.heapStart + a + b + c + 4 * HEADER <= h.heapEnd
    modifies h.ram, h`blocks
    ensures h.Valid() && h.blocks == Three(h.heapStart, h.heapEnd, a, b, c, false, false) && h.blocks != []
    ensures p == h.heapStart + HEADER && q == h.heapStart + a + 2 * HEADER && r == h.heapStart + a + b + 3 * HEADER
  {
    hide Runs, HeaderAt, Touched, Heads, Malloc, Three, InBlock, Choice;
    ThreeBlocks(h.heapStart, h.heapEnd, a, b, c);
    p := h.Malloc(a);
    q := h.Malloc(b);
    r := h.Malloc(c);
  }

  method FreeSecondThenFirst(h: Heap, p: nat, q: nat, a: nat, b: nat, c: nat)
    requires h.Valid() && h.heapStart + a + b + c + 4 * HEADER <= h.heapEnd && a + 2 * b + 3 * HEADER != WORD
    requires h.blocks == Three(h.heapStart, h.heapEnd, a, b, c, false, false) && h.blocks != []
    requires p == h.heapStart + HEADER && q == h.heapStart + a + 2 * HEADER
    modifies h.ram, h`blocks
    ensures h.Valid()
    ensures var r := h.heapStart + a + b + 3 * HEADER;
            && r <= h.ram.Length && InUse(h.blocks, r)
            && BackWalk(h.ram[..], r - HEADER, LinkOf(h.blocks, r), [h.heapStart + a + HEADER, h.heapStart])
    ensures WalkSize(h.ram[..], [h.heapStart + a + HEADER, h.heapStart]) % WORD != 0
  {
    hide Runs, HeaderAt, Touched, Heads, BackWalk, WalkSize, Chain, OnlyHeader, Free, BackAlong, Three, TakenIn, LinkOf;
    ghost var lo, hi := h.heapStart, h.heapEnd;
    SecondFree(h.ram[..], lo, hi, a, b, c);
    h.Free(q, []);
    ghost var m := h.ram[..];
    FirstTakes(m, lo, hi, a, b, c);
    h.Free(p, []);
    TakenInWalk(m, h.ram[..], lo, hi, a, b, c);
  }

  /** free of block i when the backward loop finds nothing. */
  lemma FreeIs(bs: seq<Block>, lo: nat, hi: nat, i: nat)
    requires Tiles(bs, lo, hi) && hi < WORD && i < |bs| && !bs[i].free
    ensures var a := bs[i].addr + HEADER;
            && Holder(bs, a) == Some(i) && InUse(bs, a) && LinkOf(bs, a) == bs[i].prev
            && Free(bs, a, Back(0, bs[i].prev)) == Release(bs, i)
  {
    hide Tiles, FreedWith, Release;
    HolderIs(bs, lo, hi, i);
    FreedMeaning(bs, lo, hi, i, 0, bs[i].prev);
  }

  /** It finds nothing where the link is null or leads to block k in front, which is in use. */
  lemma StopsAt(m: seq<Byte>, bs: seq<Block>, lo: nat, hi: nat, i: nat, k: nat)
    requires Runs(m, bs, lo, hi) && i < |bs| && k < |bs| && k != i
    requires bs[i].prev == 0 || (bs[i].prev == bs[k].addr && !bs[k].free)
    ensures BackWalk(m, bs[i].addr, bs[i].prev, []) && WalkSize(m, []) == 0
    ensures BackAlong(m, bs[i].prev, []) == Back(0, bs[i].prev)
  {
    RunsTiles(m, bs, lo, hi);
    Reach(m, bs, lo, hi, k);
    HeadersClear(bs, lo, hi, k, i);
    hide Runs, HeaderAt, Tiles;
  }

  lemma SecondFree(m: seq<Byte>, lo: nat, hi: nat, a: nat, b: nat, c: nat)
    requires lo + a + b + c + 4 * HEADER <= hi && Runs(m, Three(lo, hi, a, b, c, false, false), lo, hi)
    ensures var bs := Three(lo, hi, a, b, c, false, false);
            && InUse(bs, lo + a + 2 * HEADER) && LinkOf(bs, lo + a + 2 * HEADER) == lo
            && Free(bs, lo + a + 2 * HEADER, BackAlong(m, lo, [])) == Three(lo, hi, a, b, c, false, true)
    ensures BackWalk(m, lo + a + HEADER, lo, []) && WalkSize(m, []) == 0
    ensures Three(lo, hi, a, b, c, false, true) != []
  {
    var bs := Three(lo, hi, a, b, c, false, false);
    hide Runs, HeaderAt, Tiles, Free, BackWalk, WalkSize, BackAlong, InUse, LinkOf, Release;
    RunsTiles(m, bs, lo, hi);
    FreeIs(bs, lo, hi, 1);
    StopsAt(m, bs, lo, hi, 1, 0);
    SecondReleased(lo, hi, a, b, c);
  }

  lemma SecondReleased(lo: nat, hi: nat, a: nat, b: nat, c: nat)
    requires lo + a + b + c + 4 * HEADER <= hi
    ensures Release(Three(lo, hi, a, b, c, false, false), 1) == Three(lo, hi, a, b, c, false, true)
  {
    var bs := Three(lo, hi, a, b, c, false, false);
    MergeNothing([bs[1].(free := true)] + bs[2..]);
  }

  lemma FirstTakes(m: seq<Byte>, lo: nat, hi: nat, a: nat, b: nat, c: nat)
    requires lo + a + b + c + 4 * HEADER <= hi && Runs(m, Three(lo, hi, a, b, c, false, true), lo, hi)
    ensures var bs := Three(lo, hi, a, b, c, false, true);
            && InUse(bs, lo + HEADER) && LinkOf(bs, lo + HEADER) == 0
            && Free(bs, lo + HEADER, BackAlong(m, 0, [])) == TakenIn(lo, hi, a, b, c)
    ensures BackWalk(m, lo, 0, []) && WalkSize(m, []) == 0 && TakenIn(lo, hi, a, b, c) != []
  {
    var bs := Three(lo, hi, a, b, c, false, true);
    hide Runs, HeaderAt, Tiles, Free, BackWalk, WalkSize, BackAlong, InUse, LinkOf, Release;
    RunsTiles(m, bs, lo, hi);
    FreeIs(bs, lo, hi, 0);
    StopsAt(m, bs, lo, hi, 0, 1);
    FirstReleased(lo, hi, a, b, c);
  }

  lemma FirstReleased(lo: nat, hi: nat, a: nat, b: nat, c: nat)
    requires lo + a + b + c + 4 * HEADER <= hi
    ensures Release(Three(lo, hi, a, b, c, false, true), 0) == TakenIn(lo, hi, a, b, c)
  {
    var bs := Three(lo, hi, a, b, c, false, true);
    var seg := [bs[0].(free := true)] + bs[1..];
    assert Join(seg) == TakenIn(lo, hi, a, b, c);
    hide Three, TakenIn, Join;
    MergeStep(seg);
    MergeNothing(Join(seg));
  }

  /** The list when the first block has taken in the second. */
  function TakenIn(lo: nat, hi: nat, a: nat, b: nat, c: nat): seq<Block>
    requires lo + a + b + c + 3 * HEADER <= hi
  {
    [Block(lo, a + b + 2 * HEADER, true, 0)] + Three(lo, hi, a, b, c, true, true)[2..]
  }

  /** The header of the second block is still in memory. */
  lemma TakenInWalk(m: seq<Byte>, w: seq<Byte>, lo: nat, hi: nat, a: nat, b: nat, c: nat)
    requires lo + a + b + c + 4 * HEADER <= hi && OnlyHeader(m, w, lo) && a + 2 * b + 3 * HEADER != WORD
    requires Runs(m, Three(lo, hi, a, b, c, false, true), lo, hi) && Runs(w, TakenIn(lo, hi, a, b, c), lo, hi)
    ensures var bs, r := TakenIn(lo, hi, a, b, c), lo + a + b + 3 * HEADER;
            InUse(bs, r) && LinkOf(bs, r) == lo + a + HEADER
    ensures BackWalk(w, lo + a + b + 2 * HEADER, lo + a + HEADER, [lo + a + HEADER, lo])
    ensures WalkSize(w, [lo + a + HEADER, lo]) % WORD != 0
  {
    hide Runs, Tiles, BackWalk, WalkSize, InUse, LinkOf, OnlyHeader;
    RunsTiles(w, TakenIn(lo, hi, a, b, c), lo, hi);
    StaleHeaderWalk(m, w, Three(lo, hi, a, b, c, false, true), TakenIn(lo, hi, a, b, c), lo, hi);
  }

  lemma StaleHeaderWalk(m: seq<Byte>, w: seq<Byte>, was: seq<Block>, bs: seq<Block>, lo: nat, hi: nat)
    requires Runs(m, was, lo, hi) && Runs(w, bs, lo, hi) && OnlyHeader(m, w, lo) && |was| >= 2 && |bs| >= 2
    requires was[1].free && was[1].prev == lo && bs[0].addr == lo && bs[0].free && bs[0].prev == 0
    requires !bs[1].free && bs[1].prev == was[1].addr && lo + HEADER <= was[1].addr
    requires was[1].addr + HEADER <= bs[1].addr && (was[1].size + bs[0].size) % WORD != 0
    ensures InUse(bs, bs[1].addr + HEADER) && LinkOf(bs, bs[1].addr + HEADER) == bs[1].prev
    ensures BackWalk(w, bs[1].addr, bs[1].prev, [bs[1].prev, lo])
    ensures WalkSize(w, [bs[1].prev, lo]) % WORD != 0
  {
    hide Runs, HeaderAt, Tiles, Free, BackWalk, WalkSize, InUse, LinkOf, Release, OnlyHeader;
    RunsTiles(w, bs, lo, hi);
    FreeIs(bs, lo, hi, 1);
    Reach(m, was, lo, hi, 1);
    Reach(w, bs, lo, hi, 0);
    Reach(w, bs, lo, hi, 1);
    OnlyHeaderLength(m, w, lo);
    WroteAround(m, w, lo, was[1].addr);
    TwoStepWalk(w, bs[1].addr, was[1].addr, lo);
  }

  lemma TwoStepWalk(w: seq<Byte>, blk: nat, p: nat, q: nat)
    requires 0 < q && q + HEADER <= p && p + HEADER <= blk && blk <= |w|
    requires IsValid(w, p) && IsFree(w, p) && IsValid(w, q) && IsFree(w, q)
    requires HeaderAt(w, p).prev == q && HeaderAt(w, q).prev == 0
    ensures BackWalk(w, blk, p, [p, q]) && WalkSize(w, [p, q]) == HeaderAt(w, p).size + HeaderAt(w, q).size
  {
    hide HeaderAt;
    NullWalk(w, blk);
    assert [p, q][1..] == [q] && [q][1..] == [];
    assert BackWalk(w, blk, q, [q]);
    assert WalkSize(w, [q]) == HeaderAt(w, q).size;
  }

  // ----- A stale back link -----

  const CALLS := [Call(MallocOf(96), Back(0, 0)), Call(MallocOf(64), Back(0, 0)), Call(ReallocOf(4128, 32), Back(0, 0)),
                  Call(MallocOf(32), Back(0, 0)), Call(MallocOf(16), Back(0, 0)), Call(FreeOf(4256), Back(0, 4096)),
                  Call(FreeOf(4128), Back(0, 0))]

  const FIRST := Block(4096, 64, false, 0)
  const SECOND := Block(4160, 64, false, 4096)
  const THIRD := Block(4224, 96, false, 4096)
  const FOURTH := Block(4320, 48, false, 4224)
  const LAST := Block(4368, 240, true, 4320)

  const TWO := [Block(4096, 128, false, 0), THIRD, Block(4320, 288, true, 4224)]
  const CUT := [FIRST, SECOND.(free := true), THIRD, Block(4320, 288, true, 4224)]
  const FULL := [FIRST, SECOND, THIRD, FOURTH, LAST]
  const STALE := [FIRST.(free := true), SECOND, THIRD.(free := true), FOURTH, LAST]

  lemma CutIs()
    ensures Realloc(TWO, 4128, 32, Back(0, 0)) == Outcome(CUT, 4128)
  {
    var seg := [SECOND.(free := true)] + TWO[1..];
    MergeNothing(seg);
    assert Holder(TWO, 4128) == Some(0);
    assert Split(TWO, 64) == [FIRST] + seg;
    assert Shrink(TWO, 0, 64) == CUT;
  }

  lemma FullIs()
    ensures Malloc(CUT, 32) == Outcome([FIRST, SECOND, THIRD, CUT[3]], 4192)
    ensures Malloc([FIRST, SECOND, THIRD, CUT[3]], 16) == Outcome(FULL, 4352)
  {
    SecondTaken();
    FourthTaken();
  }

  lemma SecondTaken()
    ensures Malloc(CUT, 32) == Outcome([FIRST, SECOND, THIRD, CUT[3]], 4192)
  {
    hide Malloc, BestFit, Merge;
    Chosen(CUT, 32, 1);
    assert Claim(CUT, 1, 64) == [FIRST, SECOND, THIRD, CUT[3]];
  }

  lemma FourthTaken()
    ensures Malloc([FIRST, SECOND, THIRD, CUT[3]], 16) == Outcome(FULL, 4352)
  {
    hide Malloc, BestFit, Merge;
    var next := [FIRST, SECOND, THIRD, CUT[3]];
    Chosen(next, 16, 3);
    MergeNothing([LAST]);
    var seg := [next[3].(free := false)] + next[4..];
    assert [LAST] + seg[1..] == [LAST];
    assert Split(seg, 48) == [FOURTH, LAST];
    assert Claim(next, 3, 48) == FULL;
  }

  lemma StaleIs()
    ensures AnchoredCall(FULL, CALLS[5]) && AnchoredCall(Free(FULL, 4256, Back(0, 4096)), CALLS[6])
    ensures Free(Free(FULL, 4256, Back(0, 4096)), 4128, Back(0, 0)) == STALE
  {
    hide Free, AnchoredCall;
    ThirdFreed();
    FirstFreed();
  }

  lemma ThirdFreed()
    ensures AnchoredCall(FULL, CALLS[5])
    ensures Free(FULL, 4256, Back(0, 4096)) == [FIRST, SECOND, THIRD.(free := true), FOURTH, LAST]
  {
    assert Holder(FULL[1..], 4256) == Some(1);
    assert Holder(FULL, 4256) == Some(2);
    assert Holder(FULL, 4128) == Some(0);
    MergeNothing([THIRD.(free := true)] + FULL[3..]);
  }

  lemma FirstFreed()
    ensures var next := [FIRST, SECOND, THIRD.(free := true), FOURTH, LAST];
            AnchoredCall(next, CALLS[6]) && Free(next, 4128, Back(0, 0)) == STALE
  {
    var next := [FIRST, SECOND, THIRD.(free := true), FOURTH, LAST];
    assert Holder(next, 4128) == Some(0);
    MergeNothing([FIRST.(free := true)] + next[1..]);
  }

  lemma RunStep(bs: seq<Block>, l: Ledger, cs: seq<Call>, o: Outcome)
    requires cs != [] && Proper(l, cs[0].request) && Perform(bs, cs[0]) == o
    ensures Run(bs, l, cs) == Run(o.blocks, Book(l, cs[0].request, o.addr), cs[1..])
    ensures AnchoredRun(bs, l, cs) <==>
            AnchoredCall(bs, cs[0]) && AnchoredRun(o.blocks, Book(l, cs[0].request, o.addr), cs[1..])
  {}

  /** Seven calls on a fresh heap, each freeing at most a block whose back link is null or leads to a block in
  use. They leave no two free neighbours, and only back links to listed blocks, but malloc of 64 bytes
  followed by free of the result breaks the tiling. */
  lemma StaleLink()
    ensures AnchoredRun(Blank(4096, 4608), map[], CALLS) && Run(Blank(4096, 4608), map[], CALLS).0 == STALE
    ensures NoFreePair(STALE) && Malloc(STALE, 64).addr == 4256
    ensures var m := Malloc(STALE, 64).blocks;
            Listed(m, 4096) && !Tiles(Free(m, 4256, ListedBack(m, 4096)), 4096, 4608)
  {
    hide Tiles, Malloc, Free, Realloc, AnchoredCall, Listed, ListedBack;
    TwoBlocks(4096, 4608, 96, 64);
    var one := Malloc(Blank(4096, 4608), 96).blocks;
    MallocAnchored(Blank(4096, 4608), 96);
    MallocAnchored(one, 64);
    RunStep(Blank(4096, 4608), map[], CALLS, Outcome(one, 4128));
    RunStep(one, map[4128 := 96], CALLS[1..], Outcome(TWO, 4256));
    CutStep(map[4128 := 96, 4256 := 64]);
    StaleBreaks();
  }

  lemma MallocAnchored(bs: seq<Block>, size: nat)
    ensures AnchoredCall(bs, Call(MallocOf(size), Back(0, 0)))
  {}

  lemma CutStep(l: Ledger)
    requires 4128 in l
    ensures AnchoredRun(TWO, l, CALLS[2..]) && Run(TWO, l, CALLS[2..]).0 == STALE
  {
    hide Malloc, Free, AnchoredCall, Realloc;
    CutIs();
    CutStays();
    RunStep(TWO, l, CALLS[2..], Outcome(CUT, 4128));
    FullStep((l - {4128})[4128 := 32]);
  }

  /** The realloc does not move the block. */
  lemma CutStays()
    ensures AnchoredCall(TWO, CALLS[2])
  {
    assert Holder(TWO, 4128) == Some(0);
    assert !Moves(TWO, 0, 32);
  }

  lemma FullStep(l: Ledger)
    ensures AnchoredRun(CUT, l, CALLS[3..]) && Run(CUT, l, CALLS[3..]).0 == STALE
  {
    hide Malloc, Free, AnchoredCall;
    FullIs();
    var next, m := [FIRST, SECOND, THIRD, CUT[3]], l[4192 := 32];
    MallocAnchored(CUT, 32);
    MallocAnchored(next, 16);
    RunStep(CUT, l, CALLS[3..], Outcome(next, 4192));
    RunStep(next, m, CALLS[4..], Outcome(FULL, 4352));
    StaleStep(m[4352 := 16]);
  }

  lemma StaleStep(l: Ledger)
    ensures AnchoredRun(FULL, l, CALLS[5..]) && Run(FULL, l, CALLS[5..]).0 == STALE
  {
    hide Free, AnchoredCall;
    StaleIs();
    var next := Free(FULL, 4256, Back(0, 4096));
    RunStep(FULL, l, CALLS[5..], Outcome(next, 0));
    RunStep(next, l - {4256}, CALLS[6..], Outcome(STALE, 0));
  }

  lemma StaleBreaks()
    ensures NoFreePair(STALE) && Malloc(STALE, 64).addr == 4256
    ensures var m := Malloc(STALE, 64).blocks;
            Listed(m, 4096) && !Tiles(Free(m, 4256, ListedBack(m, 4096)), 4096, 4608)
  {
    StaleTaken();
    StaleLinks();
    hide Free, Tiles, LinksBack, LeadsToFree, Malloc, Listed, ListedBack, InUse;
    ListedAdds(TAKEN, 4096, 4608, 4096);
    FreeContract(TAKEN, 4096, 4608, 4256, ListedBack(TAKEN, 4096));
  }

  const TAKEN := [FIRST.(free := true), SECOND, THIRD, FOURTH, LAST]

  lemma StaleTaken()
    ensures Malloc(STALE, 64) == Outcome(TAKEN, 4256)
  {
    hide Malloc, BestFit;
    Chosen(STALE, 64, 2);
    assert Claim(STALE, 2, 96) == TAKEN;
  }

  lemma StaleLinks()
    ensures Tiles(TAKEN, 4096, 4608) && LinksBack(TAKEN) && LeadsToFree(TAKEN, 4096) && Listed(TAKEN, 4096)
    ensures InUse(TAKEN, 4256)
  {
    assert Holder(TAKEN, 4128) == Some(0);
    assert Holder(TAKEN[1..], 4256) == Some(1);
  }
}
