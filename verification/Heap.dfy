/** The allocator of lib/stdlib/heap.c on bytes.

Headers and payloads share one memory. Every method is proved to turn the chain of headers into the one
that Allocator computes on the list of blocks, and to touch no byte outside headers (realloc also writes
the payload it moves).
*/
module Heaps {
  import opened Options
  import opened Bytes
  import opened Blocks
  import opened Chains
  import opened Copy
  import Allocator
  import Requests

  lemma WroteTwice(m: seq<Byte>, v: seq<Byte>, w: seq<Byte>, a: nat, h: Header, k: Header)
    requires Wrote(m, v, a, h) && Wrote(v, w, a, k)
    ensures Wrote(m, w, a, k)
  {}

  lemma Bounds(m: seq<Byte>, a: nat)
    ensures HeaderAt(m, a).size < WORD && HeaderAt(m, a).next < WORD && HeaderAt(m, a).prev < WORD
    ensures HeaderAt(m, a).attr < 0x1_0000_0000
  {
    Pow4();
    Pow8();
  }

  /** Only the header at a differs. */
  ghost predicate OnlyHeader(m: seq<Byte>, w: seq<Byte>, a: nat) {
    SameOn(m, w, 0, a) && SameOn(m, w, a + HEADER, |m|)
  }

  /** Taking in the next block: its size is added and its link taken over. */
  lemma JoinStep(m: seq<Byte>, w: seq<Byte>, seg: seq<Block>, hi: nat)
    requires |seg| >= 2 && Tiles(seg, seg[0].addr, hi) && Chain(m, seg, 0)
    requires Wrote(m, w, seg[0].addr,
                   HeaderAt(m, seg[0].addr).(size := seg[0].size + seg[1].size, next := HeaderAt(m, seg[1].addr).next))
    ensures Chain(w, Join(seg), 0) && Tiles(Join(seg), seg[0].addr, hi)
  {
    hide Chain, Tiles, HeaderAt, Wrote, AllFrom;
    JoinTiles(seg, seg[0].addr, hi);
    Behind(seg, seg[0].addr, hi, 2);
    ChainAt(m, seg, 0, 0);
    ChainAt(m, seg, 0, 1);
    ChainCons(m, w, Join(seg)[0], seg[2..], 0);
  }

  /** The state of a chain that starts at blk and runs to the end of the heap. */
  ghost predicate Runs(m: seq<Byte>, seg: seq<Block>, blk: nat, hi: nat) {
    blk > 0 && Tiles(seg, blk, hi) && Chain(m, seg, 0) && hi < |m| <= WORD
  }

  class Heap {
    const ram: array<Byte>
    const heapStart: nat
    const heapEnd: nat
    ghost var blocks: seq<Block>

    /** Memory with room for the heap, where no header has been written yet. */
    constructor (memory: array<Byte>, start: nat, end: nat)
      requires 0 < start && start + HEADER <= end && end + HEADER <= memory.Length <= WORD
      requires !IsValid(memory[..], start)
      ensures Valid() && ram == memory && heapStart == start && heapEnd == end && blocks == []
    {
      ram, heapStart, heapEnd, blocks := memory, start, end, [];
    }

    function Head(a: nat): Header
      requires a + HEADER <= ram.Length
      reads ram
    {
      HeaderAt(ram[..], a)
    }

    predicate ValidAt(a: nat)
      requires a != 0 ==> a + HEADER <= ram.Length
      reads ram
    {
      IsValid(ram[..], a)
    }

    predicate FreeAt(a: nat)
      requires a != 0 ==> a + HEADER <= ram.Length
      reads ram
    {
      IsFree(ram[..], a)
    }

    /** `blk->size += next->size; blk->next = next->next`. */
    method TakeNext(blk: nat, next: nat, ghost seg: seq<Block>, ghost hi: nat)
      requires |seg| >= 2 && next == seg[1].addr && Runs(ram[..], seg, blk, hi) && hi + HEADER <= ram.Length
      modifies ram
      ensures Runs(ram[..], Join(seg), blk, hi) && OnlyHeader(old(ram[..]), ram[..], blk)
    {
      hide Runs, HeaderAt, SameOn;
      ghost var m := ram[..];
      TwoHeaders(m, seg, blk, hi);
      SetSize(ram, blk, Head(blk).size + Head(next).size);
      ghost var v := ram[..];
      NextKept(m, v, seg, blk, hi);
      SetNext(ram, blk, Head(next).next);
      WroteTwice(m, v, ram[..], blk, HeaderAt(v, blk), HeaderAt(ram[..], blk));
      JoinRuns(m, ram[..], seg, blk, hi);
    }
  
    /** The backward loop of defrag_blocks, along the walk. */
    method MergeBack(blk: nat, ghost walk: seq<nat>)
      requires blk + HEADER <= ram.Length <= WORD && BackWalk(ram[..], blk, Head(blk).prev, walk)
      modifies ram
      ensures Wrote(old(ram[..]), ram[..], blk, BackHeader(old(ram[..]), blk, walk))
    {
      hide HeaderAt, BackWalk;
      ghost var m, w := ram[..], walk;
      BackStart(m, blk, walk);
      while ValidAt(Head(blk).prev) && FreeAt(Head(blk).prev)
        invariant BackState(m, ram[..], blk, walk, w)
        decreases |w|
      {
        ghost var v := ram[..];
        BackReads(m, v, blk, walk, w);
        SetSize(ram, blk, (Head(blk).size + Head(Head(blk).prev).size) % WORD);
        ghost var u := ram[..];
        HeaderSame(v, u, HeaderAt(v, blk).prev);
        Bounds(u, HeaderAt(u, blk).prev);
        SetPrev(ram, blk, Head(Head(blk).prev).prev);
        BackStep(m, v, u, ram[..], blk, walk, w);
        w := w[1..];
      }
      BackReads(m, ram[..], blk, walk, w);
    }

    /** defrag_blocks: the free blocks that follow are taken in, then the sizes along the back links are
    added, although the blocks they belong to stay in the chain. */
    method DefragBlocks(blk: nat, ghost seg: seq<Block>, ghost hi: nat, ghost walk: seq<nat>)
      requires Runs(ram[..], seg, blk, hi) && hi + HEADER <= ram.Length <= WORD
      requires BackWalk(ram[..], blk, seg[0].prev, walk)
      modifies ram
      ensures OnlyHeader(old(ram[..]), ram[..], blk)
      ensures Defragged(old(ram[..]), ram[..], seg, walk)
    {
      hide Runs, HeaderAt, BackWalk, Chain;
      ghost var m, cur := ram[..], seg;
      FirstHeader(ram[..], cur, blk, hi);
      if !ValidAt(blk) || !FreeAt(blk) {
        return;
      }
      while ValidAt(Head(blk).next) && FreeAt(Head(blk).next)
        invariant Runs(ram[..], cur, blk, hi) && OnlyHeader(m, ram[..], blk)
        invariant cur != [] && Merge(cur) == Merge(seg) && cur[0].prev == seg[0].prev && cur[0].free
        invariant FirstFits(ram[..], cur, blk)
        decreases |cur|
      {
        TakeNext(blk, Head(blk).next, cur, hi);
        cur := Join(cur);
        FirstHeader(ram[..], cur, blk, hi);
      }
      ghost var v := ram[..];
      BackWalkSame(m, v, blk, seg[0].prev, walk);
      MergeBack(blk, walk);
      BackDone(m, v, ram[..], seg, cur, blk, hi, walk);
    }

    /** shrink_block: null for an invalid block, and otherwise the block, split when another header fits
    behind the size asked for. */
    method ShrinkBlock(blk: nat, size: nat, ghost seg: seq<Block>, ghost hi: nat) returns (p: nat)
      requires (blk != 0 ==> blk + HEADER <= ram.Length) && HEADER + size < WORD
      requires ValidAt(blk) ==> Runs(ram[..], seg, blk, hi) && hi + HEADER <= ram.Length <= WORD
      modifies ram
      ensures p == if old(ValidAt(blk)) then blk else 0
      ensures !old(ValidAt(blk)) ==> ram[..] == old(ram[..])
      ensures old(ValidAt(blk)) ==> Trims(old(ram[..]), ram[..], seg, blk, hi, size + HEADER)
    {
      hide HeaderAt, Chain, Tiles, Split, Touched;
      ghost var m := ram[..];
      if !ValidAt(blk) {
        return 0;
      }
      FirstHeader(m, seg, blk, hi);
      RoomForHeader(m, seg, blk, hi);
      TrimsNothing(m, seg, blk, hi, size + HEADER);
      if FreeAt(blk) {
        return blk;
      }
      var newSize := HEADER + size;
      var leftover := (Head(blk).size - newSize) % WORD;
      if newSize >= Head(blk).size || leftover < HEADER {
        return blk;
      }
      var newBlk := blk + newSize;
      SetHeader(ram, newBlk, Header(MAGIC, 1, leftover, Head(blk).next, blk));
      ghost var v, rest := ram[..], Rest(seg, newSize);
      SplitStarts(m, v, seg, blk, hi, newSize);
      DefragBlocks(newBlk, rest, hi, []);
      ghost var u := ram[..];
      SetSize(ram, blk, newSize);
      ghost var t := ram[..];
      SetNext(ram, blk, newBlk);
      WroteTwice(u, t, ram[..], blk, HeaderAt(t, blk), HeaderAt(ram[..], blk));
      SplitEnds(m, v, u, ram[..], seg, blk, hi, newSize);
      return blk;
    }

    // ----- The heap -----

    ghost predicate Laid() {
      0 < heapStart && heapStart + HEADER <= heapEnd && heapEnd + HEADER <= ram.Length <= WORD
    }

    /** Untouched, or a chain of headers that tiles the heap and shows the list `blocks`. */
    ghost predicate Valid()
      reads this, ram
    {
      Laid() && if blocks == [] then !IsValid(ram[..], heapStart) else Runs(ram[..], blocks, heapStart, heapEnd)
    }

    /** The list of blocks once the first one is set up. */
    ghost function Ready(bs: seq<Block>): seq<Block>
      requires Laid()
    {
      if bs == [] then Allocator.Blank(heapStart, heapEnd) else bs
    }

    /** get_first_block: one free block that spans the heap, when there is none yet. */
    method GetFirstBlock() returns (blk: nat)
      requires Valid()
      modifies ram, `blocks
      ensures Valid() && blocks == Ready(old(blocks)) && blocks != [] && blk == heapStart
      ensures Touched(old(ram[..]), ram[..], {heapStart})
      ensures old(blocks) != [] ==> ram[..] == old(ram[..])
    {
      hide HeaderAt, Chain, Tiles;
      blk := heapStart;
      if blocks != [] { FirstHeader(ram[..], blocks, heapStart, heapEnd); }
      if !ValidAt(blk) {
        var size := heapEnd - heapStart;
        SetHeader(ram, blk, Header(MAGIC, 1, size, 0, 0));
        blocks := Allocator.Blank(heapStart, heapEnd);
        BlankRuns(old(ram[..]), ram[..], heapStart, heapEnd);
        WroteTouches(old(ram[..]), ram[..], blk, Header(MAGIC, 1, size, 0, 0));
      }
    }

    /** find_best_fit: the block that BestFit chooses, or null. */
    method FindBestFit(size: nat) returns (best: nat)
      requires Valid() && HEADER + size < WORD
      modifies ram, `blocks
      ensures Valid() && blocks == Ready(old(blocks)) && blocks != []
      ensures best == AddrOf(blocks, BestFit(blocks, size + HEADER))
      ensures Touched(old(ram[..]), ram[..], {heapStart})
      ensures old(blocks) != [] ==> ram[..] == old(ram[..])
    {
      hide HeaderAt, Runs, Touched;
      best := 0;
      var blk := GetFirstBlock();
      ghost var k: nat, choice: Option<nat>, m := 0, None, ram[..];
      RunsFrom(ram[..], blocks, heapStart, heapEnd);
      Reach(ram[..], blocks, heapStart, heapEnd, 0);
      while ValidAt(blk)
        invariant ram[..] == m && Valid()
        invariant k <= |blocks| && blk == AddrOf(blocks, Some(k)) && best == AddrOf(blocks, choice)
        invariant ReachFits(ram[..], blocks, k)
        invariant choice.Some? ==> choice.value < k && ReachFits(ram[..], blocks, choice.value)
        invariant BestFrom(blocks, size + HEADER, k, choice) == BestFit(blocks, size + HEADER)
        decreases |blocks| - k
        modifies {}
      {
        if FreeAt(blk) {
          var needed := HEADER + size;
          if Head(blk).size >= needed {
            if best == 0 || Head(blk).size < Head(best).size {
              best, choice := blk, Some(k);
            }
          }
        }
        blk := Head(blk).next;
        Reach(ram[..], blocks, heapStart, heapEnd, k + 1);
        k := k + 1;
      }
    }

    /** get_block_data. */
    function BlockData(blk: nat): nat
      requires blk != 0 ==> blk + HEADER <= ram.Length
      reads ram
    {
      if ValidAt(blk) then blk + HEADER else 0
    }

    /** malloc hands out what Allocator.Malloc does, and writes headers only. */
    method Malloc(size: nat) returns (p: nat)
      requires Valid() && HEADER + size < WORD
      modifies ram, `blocks
      ensures Valid()
      ensures size == 0 ==> p == 0 && blocks == old(blocks) && ram[..] == old(ram[..])
      ensures size > 0 ==> Allocator.Outcome(blocks, p) == Allocator.Malloc(Ready(old(blocks)), size) && blocks != []
      ensures Touched(old(ram[..]), ram[..], Heads(blocks))
      ensures p != 0 && old(blocks) != [] ==> InBlock(old(ram[..]), ram[..], Allocator.Choice(old(blocks), size))
    {
      hide HeaderAt, Runs, Touched, Heads, Split, Merge, BestFit, Trims, InBlock;
      if size == 0 {
        NotTouched(ram[..], Heads(blocks));
        return 0;
      }
      ghost var m := ram[..];
      var blk := FindBestFit(size);
      ghost var bs, best, v := blocks, BestFit(blocks, size + HEADER), ram[..];
      RunsFrom(v, bs, heapStart, heapEnd);
      FirstTouched(m, v, bs, heapStart);
      BestFitMeaning(bs, size + HEADER);
      if best.Some? { Reach(v, bs, heapStart, heapEnd, best.value); }
      if !ValidAt(blk) {
        return 0;
      }
      ghost var j := best.value;
      SetAttr(ram, blk, Head(blk).attr - Head(blk).attr % 2);
      ghost var u, seg := ram[..], [bs[j].(free := false)] + bs[j + 1..];
      Marked(v, u, bs, heapStart, heapEnd, j, false);
      blk := ShrinkBlock(blk, size, seg, heapEnd);
      ClaimEnds(m, v, u, ram[..], bs, heapStart, heapEnd, j, size + HEADER);
      blocks := Claim(bs, j, size + HEADER);
      return BlockData(blk);
    }

    /** What free and realloc may be given: null, the payload of a block, or an address with no valid header
    in front of it. */
    ghost predicate Known(addr: nat)
      reads this, ram
    {
      || addr == 0
      || (&& HEADER <= addr <= ram.Length
          && (Allocator.Holder(blocks, addr).Some? || !IsValid(ram[..], addr - HEADER)))
    }

    /** The walk that the backward loop takes when the block at addr is freed. */
    ghost predicate Walks(addr: nat, walk: seq<nat>)
      reads this, ram
    {
      Allocator.InUse(blocks, addr) ==> BackWalk(ram[..], BlockOf(addr), LinkOf(blocks, addr), walk)
    }

    /** free: a block in use becomes free and takes in the free blocks behind it. The heap stays tiled
    exactly when the backward loop adds nothing. */
    method Free(addr: nat, ghost walk: seq<nat>)
      requires Valid() && Known(addr) && Walks(addr, walk)
      modifies ram, `blocks
      ensures Laid() && Touched(old(ram[..]), ram[..], Heads(blocks)) && Chain(ram[..], blocks, 0)
      ensures blocks == Allocator.Free(old(blocks), addr, BackAlong(old(ram[..]), LinkOf(old(blocks), addr), walk))
      ensures Valid() <==> (Allocator.InUse(old(blocks), addr) ==> WalkSize(old(ram[..]), walk) % WORD == 0)
      ensures if Allocator.InUse(old(blocks), addr) then OnlyHeader(old(ram[..]), ram[..], BlockOf(addr))
              else ram[..] == old(ram[..])
    {
      hide HeaderAt, Runs, Touched, Heads, Merge, Chain, BackWalk, WalkSize, WalkEnd, FreedWith;
      NotTouched(ram[..], Heads(blocks));
      ChainOf(ram[..], blocks, heapStart, heapEnd);
      if addr == 0 {
        return;
      }
      var blk := addr - HEADER;
      ghost var v, bs, h := ram[..], blocks, Allocator.Holder(blocks, addr);
      if h.Some? { Reach(v, bs, heapStart, heapEnd, h.value); }
      if !ValidAt(blk) {
        return;
      }
      if FreeAt(blk) {
        return;
      }
      ghost var i := h.value;
      SetAttr(ram, blk, Head(blk).attr - Head(blk).attr % 2 + 1);
      ghost var u, seg := ram[..], [bs[i].(free := true)] + bs[i + 1..];
      Marked(v, u, bs, heapStart, heapEnd, i, true);
      BackWalkSame(v, u, blk, bs[i].prev, walk);
      DefragBlocks(blk, seg, heapEnd, walk);
      blocks := Freed(bs, i, v, walk);
      FreeEnds(v, u, ram[..], bs, heapStart, heapEnd, i, walk);
    }

    /** The loop of expand_block: free blocks that follow are taken in until the new size is there. */
    method AbsorbFollowing(blk: nat, newSize: nat, ghost i: nat)
      requires Valid() && i < |blocks| && blk == blocks[i].addr
      modifies ram, `blocks
      ensures Valid() && blocks == Grow(old(blocks), i, newSize)
      ensures OnlyHeader(old(ram[..]), ram[..], blk)
      ensures i < |blocks| && ReachFits(ram[..], blocks, i)
    {
      hide Runs, HeaderAt, Chain, Touched, Tiles, Heads;
      ghost var m, bs, seg := ram[..], blocks, blocks[i..];
      ghost var cur := seg;
      RunsFrom(m, bs, heapStart, heapEnd);
      Cut(m, bs, heapStart, heapEnd, i);
      FirstHeader(m, cur, blk, heapEnd);
      var next := Head(blk).next;
      while FreeAt(next) && newSize > Head(blk).size
        invariant Runs(ram[..], cur, blk, heapEnd) && OnlyHeader(m, ram[..], blk)
        invariant cur != [] && Absorb(cur, newSize) == Absorb(seg, newSize)
        invariant FirstFits(ram[..], cur, blk) && next == NextOf(cur, 0, 0)
        decreases |cur|
      {
        TakeNext(blk, next, cur, heapEnd);
        cur := Join(cur);
        FirstHeader(ram[..], cur, blk, heapEnd);
        next := Head(blk).next;
      }
      blocks := bs[..i] + cur;
      OnlyHeaderTouches(m, ram[..], blk, {blk});
      GrowEnds(m, ram[..], bs, heapStart, heapEnd, i, cur);
      Reach(ram[..], blocks, heapStart, heapEnd, i);
    }

    /** The end of expand_block: another block is found, the old bytes are copied and the old block freed. */
    method MoveBlock(blk: nat, oldSize: nat, size: nat, ghost i: nat, ghost walk: seq<nat>) returns (p: nat)
      requires Valid() && i < |blocks| && blk == blocks[i].addr && !blocks[i].free
      requires HEADER <= oldSize <= blocks[i].size < HEADER + size < WORD
      requires Allocator.Malloc(blocks, size).addr != 0 ==> MayMove(ram[..], blocks, i, size, oldSize, walk)
      modifies ram, `blocks
      ensures Laid() && Chain(ram[..], blocks, 0)
      ensures Allocator.Outcome(blocks, p) ==
              Allocator.Move(old(blocks), blk + HEADER, size, BackAlong(old(ram[..]), old(blocks)[i].prev, walk))
      ensures Valid() <==> (p != 0 ==> WalkSize(old(ram[..]), walk) % WORD == 0)
      ensures MoveDone(old(ram[..]), ram[..], old(blocks), blocks, i, oldSize, p)
    {
      hide Runs, HeaderAt, Touched, Heads, Moved, Live, BackWalk, Found, Midway, MayMove, MoveDone, InBlock, Chain,
        Allocator.Malloc, Allocator.Holder, Allocator.Free, WalkSize, Allocator.Choice, WalkEnd, OnlyHeader;
      ghost var v, g := ram[..], blocks;
      RunsFrom(v, g, heapStart, heapEnd);
      p := Malloc(size);
      ghost var u, c := ram[..], blocks;
      ChainOf(u, c, heapStart, heapEnd);
      if p == 0 {
        MoveFailed(v, u, g, c, i, oldSize);
        return 0;
      }
      ghost var b, k := MoveFinds(v, u, g, c, heapStart, heapEnd, i, size, oldSize, walk);
      MemMove(ram, p, BlockData(blk), oldSize);
      ghost var t := ram[..];
      MoveCopies(v, u, t, g, c, heapStart, heapEnd, i, k, b, size, oldSize, walk);
      MidwayMeans(v, u, t, g, c, heapStart, heapEnd, i, k, b, oldSize);
      Free(BlockData(blk), walk);
      MoveEnds(v, u, t, ram[..], g, c, blocks, heapStart, heapEnd, i, k, b, oldSize);
    }

    /** shrink_block on block i of the heap. */
    method ShrinkAt(blk: nat, size: nat, ghost i: nat) returns (p: nat)
      requires Valid() && HEADER + size < WORD && i < |blocks| && blk == blocks[i].addr
      modifies ram, `blocks
      ensures Valid() && blocks == if old(blocks)[i].free then old(blocks) else Shrink(old(blocks), i, size + HEADER)
      ensures p == blk && Touched(old(ram[..]), ram[..], Heads(blocks))
      ensures blk != 0 && blk + HEADER <= ram.Length && IsValid(ram[..], blk)
    {
      hide Runs, HeaderAt, Touched, Heads, Split, Trims, Shrink;
      ghost var m, bs := ram[..], blocks;
      Reach(m, bs, heapStart, heapEnd, i);
      Cut(m, bs, heapStart, heapEnd, i);
      p := ShrinkBlock(blk, size, bs[i..], heapEnd);
      blocks := if bs[i].free then bs else Shrink(bs, i, size + HEADER);
      ShrinkEnds(m, ram[..], bs, heapStart, heapEnd, i, size + HEADER);
    }

    /** expand_block: in place when the free blocks behind make enough room, and else moved. */
    method ExpandBlock(blk: nat, size: nat, ghost i: nat, ghost walk: seq<nat>) returns (p: nat)
      requires Valid() && (blk != 0 ==> blk + HEADER <= ram.Length) && 0 < size && HEADER + size < WORD
      requires ValidAt(blk) ==> i < |blocks| && blk == blocks[i].addr && blocks[i].size <= size + HEADER
      requires ValidAt(blk) && Allocator.Moves(blocks, i, size) ==> MayMoveFrom(ram[..], blocks, i, size, walk)
      modifies ram, `blocks
      ensures Laid() && Chain(ram[..], blocks, 0)
      ensures !old(ValidAt(blk)) ==> Valid() && p == 0 && blocks == old(blocks) && ram[..] == old(ram[..])
      ensures old(ValidAt(blk)) ==>
        && Allocator.Outcome(blocks, Data(p)) ==
           Allocator.Resize(old(blocks), i, size, BackAlong(old(ram[..]), old(blocks)[i].prev, walk))
        && (Valid() <==> (Allocator.Moves(old(blocks), i, size) ==> WalkSize(old(ram[..]), walk) % WORD == 0))
        && ResizeDone(old(ram[..]), ram[..], old(blocks), blocks, i, p)
    {
      hide Runs, HeaderAt, Touched, Heads, Shrink, Grow, MoveDone, ResizeDone, WalkSize, MayMove, MayMoveFrom, Chain,
        BackAlong, Allocator.Malloc, Allocator.Resize, Allocator.Move, Allocator.Moves;
      ghost var m, bs := ram[..], blocks;
      ChainOf(m, bs, heapStart, heapEnd);
      if !ValidAt(blk) {
        return 0;
      }
      ghost var back := BackAlong(m, bs[i].prev, walk);
      Reach(m, bs, heapStart, heapEnd, i);
      if FreeAt(blk) {
        NothingDone(m, bs, i);
        FreeResize(bs, i, size, back);
        return blk;
      }
      var oldSize, newSize := Head(blk).size, HEADER + size;
      AbsorbFollowing(blk, newSize, i);
      ghost var v, g := ram[..], blocks;
      GrowSafe(m, v, bs, g, heapStart, heapEnd, i, newSize);
      ExpandIs(bs, g, i, size, back);
      if Head(blk).size >= newSize {
        p := ShrinkAt(blk, size, i);
        InPlace(m, v, ram[..], bs, g, blocks, heapStart, heapEnd, i, newSize);
        ChainOf(ram[..], blocks, heapStart, heapEnd);
        return p;
      }
      GrownMayMove(m, v, bs, g, i, size, walk);
      MoveOutcome(g, blk + HEADER, size, back);
      MoveOutcome(g, blk + HEADER, size, BackAlong(v, bs[i].prev, walk));
      var newAddr := MoveBlock(blk, oldSize, size, i, walk);
      MovedAfterGrowth(m, v, ram[..], bs, g, blocks, heapStart, heapEnd, i, newSize, newAddr);
      p := if newAddr == 0 then 0 else newAddr - HEADER;
    }

    /** What realloc needs to know of the block it frees, with or without moving it: the walk along its back
    links; and where it moves the block, that the copy fits. */
    ghost predicate Movable(addr: nat, size: nat, walk: seq<nat>)
      reads this, ram
    {
      addr != 0 ==>
        && (size == 0 ==> Walks(addr, walk))
        && (size > 0 ==>
            var h := Allocator.Holder(blocks, addr);
            h.Some? && Allocator.Moves(blocks, h.value, size) ==> MayMoveFrom(ram[..], blocks, h.value, size, walk))
    }

    /** realloc does what Allocator.Realloc does, with the sizes along the walk added to the block it frees.
    The heap stays tiled exactly when that adds nothing. It writes headers only, unless it moves the block,
    and then the old payload is at the start of the new one and every other payload is as it was. */
    method Realloc(addr: nat, size: nat, ghost walk: seq<nat>) returns (p: nat)
      requires Valid() && Known(addr) && HEADER + size < WORD && Movable(addr, size, walk)
      modifies ram, `blocks
      ensures Laid() && Chain(ram[..], blocks, 0)
      ensures addr == 0 && size == 0 ==> p == 0 && blocks == old(blocks)
      ensures addr == 0 && size > 0 ==> Allocator.Outcome(blocks, p) == Allocator.Malloc(Ready(old(blocks)), size)
      ensures addr != 0 ==>
        Allocator.Outcome(blocks, p) ==
        Allocator.Realloc(old(blocks), addr, size, BackAlong(old(ram[..]), LinkOf(old(blocks), addr), walk))
      ensures Valid() <==>
              (Requests.Frees(old(blocks), Requests.ReallocOf(addr, size)) ==> WalkSize(old(ram[..]), walk) % WORD == 0)
      ensures Bytewise(old(ram[..]), ram[..], old(blocks), blocks, addr, size, p)
    {
      hide Runs, HeaderAt, Touched, Heads, Shrink, Allocator.Malloc, Allocator.Resize, Allocator.Moves, Chain,
        MayMoveFrom, ResizeDone, Allocator.Free, Bytewise, BackAlong, WalkSize;
      ghost var m, bs, h := ram[..], blocks, Allocator.Holder(blocks, addr);
      ghost var back := BackAlong(m, LinkOf(bs, addr), walk);
      ChainOf(m, bs, heapStart, heapEnd);
      if addr == 0 {
        p := Malloc(size);
        ChainOf(ram[..], blocks, heapStart, heapEnd);
        HeadersOnly(m, ram[..], bs, blocks, addr, size, p);
        return;
      }
      if size == 0 {
        Free(addr, walk);
        HeadersOnly(m, ram[..], bs, blocks, addr, size, 0);
        return 0;
      }
      var blk := addr - HEADER;
      NotTouched(m, Heads(bs));
      if h.Some? { Reach(m, bs, heapStart, heapEnd, h.value); }
      if !ValidAt(blk) {
        HeadersOnly(m, m, bs, bs, addr, size, 0);
        return 0;
      }
      if Head(blk).size > size + HEADER {
        blk := ShrinkAt(blk, size, h.value);
        ChainOf(ram[..], blocks, heapStart, heapEnd);
        ShrunkInPlace(m, ram[..], bs, blocks, h.value, size, back);
      } else {
        blk := ExpandBlock(blk, size, h.value, walk);
      }
      ResizedBytes(m, ram[..], bs, blocks, h.value, blk, addr, size);
      p := BlockData(blk);
    }
  }

  /** The block whose payload is at an address. */
  function BlockOf(addr: nat): nat { if addr < HEADER then 0 else addr - HEADER }

  /** The stored back link of the block whose payload is at an address. */
  ghost function LinkOf(bs: seq<Block>, addr: nat): nat {
    var h := Allocator.Holder(bs, addr);
    if h.Some? then bs[h.value].prev else 0
  }

  /** What the backward loop finds along the walk from back link p. */
  ghost function BackAlong(m: seq<Byte>, p: nat, walk: seq<nat>): Allocator.Back {
    Allocator.Back(WalkSize(m, walk), WalkEnd(m, p, walk))
  }

  /** A valid heap is a chain, an untouched one the empty chain. */
  lemma ChainOf(m: seq<Byte>, bs: seq<Block>, lo: nat, hi: nat)
    ensures bs == [] || Runs(m, bs, lo, hi) ==> Chain(m, bs, 0)
  {}

  // ----- The walk of a realloc that moves, seen from before the move -----

  /** From back link p on, with block c about to be handed out and the block at blk about to be freed: the walk
  keeps clear of what changes before the old block is freed, and it ends where it reaches c. */
  ghost predicate WalkAround(m: seq<Byte>, blk: nat, c: Block, p: nat, walk: seq<nat>)
    decreases walk
  {
    if p == 0 || p == c.addr then walk == []
    else
      && p + HEADER <= |m| && Clear(p, blk) && (p + HEADER <= c.addr || End(c) <= p)
      && if walk == [] then !(IsValid(m, p) && IsFree(m, p))
         else p == walk[0] && IsValid(m, p) && IsFree(m, p) && WalkAround(m, blk, c, HeaderAt(m, p).prev, walk[1..])
  }

  /** Only the header of blk and bytes of block c changed. */
  ghost predicate Around(m: seq<Byte>, t: seq<Byte>, blk: nat, c: Block) {
    |m| == |t| && forall x :: 0 <= x < |m| && !(blk <= x < blk + HEADER) && !(c.addr <= x < End(c)) ==> m[x] == t[x]
  }

  lemma {:induction false} WalkAroundStays(m: seq<Byte>, t: seq<Byte>, blk: nat, c: Block, p: nat, walk: seq<nat>)
    requires WalkAround(m, blk, c, p, walk) && Around(m, t, blk, c)
    ensures WalkAround(t, blk, c, p, walk)
    ensures WalkSize(t, walk) == WalkSize(m, walk) && WalkEnd(t, p, walk) == WalkEnd(m, p, walk)
    decreases walk
  {
    hide HeaderAt;
    if p != 0 && p != c.addr {
      assert SameOn(m, t, p, p + HEADER);
      HeaderSame(m, t, p);
      if walk != [] { WalkAroundStays(m, t, blk, c, HeaderAt(m, p).prev, walk[1..]); }
    }
  }

  /** Once c is in use, that is the walk of the backward loop. */
  lemma {:induction false} WalkAroundIs(t: seq<Byte>, blk: nat, c: Block, p: nat, walk: seq<nat>)
    requires WalkAround(t, blk, c, p, walk) && !IsFree(t, c.addr) && c.addr + HEADER <= |t| && Clear(c.addr, blk)
    ensures BackWalk(t, blk, p, walk)
    decreases walk
  {
    hide HeaderAt;
    if p != 0 && p != c.addr && walk != [] { WalkAroundIs(t, blk, c, HeaderAt(t, p).prev, walk[1..]); }
  }

  /** Block i of the grown list g may be moved: the copy fits, and the walk keeps clear of what changes. */
  ghost predicate MayMove(m: seq<Byte>, g: seq<Block>, i: nat, size: nat, oldSize: nat, walk: seq<nat>) {
    && i < |g| && Allocator.RoomFor(g, size, oldSize)
    && WalkAround(m, g[i].addr, Allocator.Choice(g, size), g[i].prev, walk)
  }

  /** The same before block i of list bs is grown. */
  ghost predicate MayMoveFrom(m: seq<Byte>, bs: seq<Block>, i: nat, size: nat, walk: seq<nat>) {
    && i < |bs| && Allocator.CopyFits(bs, i, size)
    && WalkAround(m, bs[i].addr, Allocator.Choice(Grow(bs, i, size + HEADER), size), bs[i].prev, walk)
  }

  /** The payload address of a block, null for none. */
  function Data(blk: nat): nat { if blk == 0 then 0 else blk + HEADER }

  /** What realloc leaves in memory: only headers are written unless the block moved. */
  ghost predicate Bytewise(m: seq<Byte>, w: seq<Byte>, bs: seq<Block>, f: seq<Block>, addr: nat, size: nat, p: nat) {
    var h := Allocator.Holder(bs, addr);
    if addr != 0 && size != 0 && h.Some? then ResizeDone(m, w, bs, f, h.value, if p < HEADER then 0 else p - HEADER)
    else Touched(m, w, Heads(f))
  }

  /** What resizing block i of list bs leaves in memory, when block p results. In place, and when there is no
  room, only headers are written. Otherwise the old payload is at the start of the new one and no other
  payload changed. */
  ghost predicate ResizeDone(m: seq<Byte>, w: seq<Byte>, bs: seq<Block>, f: seq<Block>, i: nat, p: nat) {
    && i < |bs|
    && (p == 0 || p == bs[i].addr ==> Touched(m, w, Heads(f)))
    && (p != 0 && p != bs[i].addr ==>
        OthersKept(m, w, bs, i) && Copied(m, w, bs[i].addr + HEADER, p + HEADER, bs[i].size))
    && (p != 0 ==> p + HEADER <= |w| && IsValid(w, p))
  }

  /** The list after free of block i, with the sizes along the walk added to it. */
  ghost function Freed(bs: seq<Block>, i: nat, m: seq<Byte>, walk: seq<nat>): seq<Block>
    requires i < |bs|
  {
    FreedWith(bs, i, WalkSize(m, walk), WalkEnd(m, bs[i].prev, walk))
  }

  lemma NotTouched(m: seq<Byte>, heads: set<nat>)
    ensures Touched(m, m, heads)
  {}

  lemma FirstTouched(m: seq<Byte>, v: seq<Byte>, bs: seq<Block>, lo: nat)
    requires bs != [] && bs[0].addr == lo && Touched(m, v, {lo})
    ensures Touched(m, v, Heads(bs))
  {
    assert bs[0] in bs;
    TouchedMore(m, v, {lo}, Heads(bs));
  }

  /** A chain cut in front of block j. */
  lemma Cut(m: seq<Byte>, bs: seq<Block>, lo: nat, hi: nat, j: nat)
    requires Runs(m, bs, lo, hi) && j < |bs|
    ensures Chain(m, bs[..j], bs[j].addr) && Runs(m, bs[j..], bs[j].addr, hi)
    ensures lo <= bs[j].addr
    ensures forall b :: b in bs[..j] ==> b.addr + HEADER <= bs[j].addr
  {
    assert bs == bs[..j] + bs[j..];
    ChainSplit(m, bs[..j], bs[j..], 0);
    TilesSuffix(bs, lo, hi, j);
    Inside(bs, lo, hi, j);
    forall b | b in bs[..j] ensures b.addr + HEADER <= bs[j].addr {
      var i :| 0 <= i < j && bs[i] == b;
      Ordered(bs, lo, hi, i, j);
    }
  }

  /** A chain whose tail from block j on was rewritten. */
  lemma Paste(m: seq<Byte>, w: seq<Byte>, bs: seq<Block>, lo: nat, hi: nat, j: nat, seg: seq<Block>)
    requires Runs(m, bs, lo, hi) && j < |bs| && Runs(w, seg, bs[j].addr, hi) && SameOn(m, w, 0, bs[j].addr)
    ensures Runs(w, bs[..j] + seg, lo, hi)
  {
    Cut(m, bs, lo, hi, j);
    TilesReplace(bs, lo, hi, j, seg);
    assert seg != [] && seg[0].addr == bs[j].addr;
    hide Tiles, Chain;
    ChainSame(m, w, bs[..j], bs[j].addr, 0, bs[j].addr);
    ChainAppend(w, bs[..j], seg, 0);
  }

  /** Headers at or above an address: nothing below it changed. */
  lemma TouchedAbove(m: seq<Byte>, w: seq<Byte>, seg: seq<Block>, lo: nat, hi: nat)
    requires Touched(m, w, Heads(seg)) && Tiles(seg, lo, hi)
    ensures SameOn(m, w, 0, lo)
  {
    TilesFrom(seg, lo, hi);
    forall x | 0 <= x < lo && x < |m| ensures m[x] == w[x] { NotInHeaders(seg, lo, x); }
  }

  lemma NotInHeaders(seg: seq<Block>, lo: nat, x: nat)
    requires AllFrom(seg, lo) && x < lo
    ensures !InHeaders(Heads(seg), x)
  {
    forall a | a in Heads(seg) ensures a > x {
      var b :| b in seg && b.addr == a;
    }
  }

  /** Marking block j by its attribute word. */
  lemma Marked(v: seq<Byte>, u: seq<Byte>, bs: seq<Block>, lo: nat, hi: nat, j: nat, free: bool)
    requires Runs(v, bs, lo, hi) && j < |bs|
    requires Wrote(v, u, bs[j].addr, HeaderOf(bs[j].(free := free), NextOf(bs, j, 0)))
    ensures Runs(u, [bs[j].(free := free)] + bs[j + 1..], bs[j].addr, hi)
    ensures OnlyHeader(v, u, bs[j].addr)
  {
    hide HeaderAt, Chain, Wrote, AllFrom, Tiles;
    WroteOnly(v, u, bs[j].addr, HeaderOf(bs[j].(free := free), NextOf(bs, j, 0)));
    ChainAt(v, bs, 0, j);
    MarkedTiles(bs, lo, hi, j, free);
    ChainCons(v, u, bs[j].(free := free), bs[j + 1..], 0);
  }

  lemma MarkedTiles(bs: seq<Block>, lo: nat, hi: nat, j: nat, free: bool)
    requires Tiles(bs, lo, hi) && j < |bs|
    ensures Tiles([bs[j].(free := free)] + bs[j + 1..], bs[j].addr, hi)
    ensures AllFrom(bs[j + 1..], bs[j].addr + HEADER) && lo <= bs[j].addr
  {
    hide Tiles, AllFrom;
    MarkTiles(bs, lo, hi, j, free);
    TilesSuffix(bs, lo, hi, j);
    Inside(bs, lo, hi, j);
    Behind(bs[j..], bs[j].addr, hi, 1);
    assert bs[j..][1..] == bs[j + 1..];
  }

  /** After the tail from block j on was rewritten by writes to headers of the new tail. */
  lemma Rewritten(v: seq<Byte>, w: seq<Byte>, bs: seq<Block>, lo: nat, hi: nat, j: nat, seg: seq<Block>)
    requires Runs(v, bs, lo, hi) && j < |bs| && Runs(w, seg, bs[j].addr, hi) && Touched(v, w, Heads(seg))
    ensures Runs(w, bs[..j] + seg, lo, hi) && Touched(v, w, Heads(bs[..j] + seg))
    ensures lo in Heads(bs[..j] + seg)
  {
    hide Touched;
    TouchedAbove(v, w, seg, bs[j].addr, hi);
    Paste(v, w, bs, lo, hi, j, seg);
    var r := bs[..j] + seg;
    assert forall b :: b in seg ==> b in r;
    TouchedMore(v, w, Heads(seg), Heads(r));
    assert r[0] in r && r[0].addr == lo;
  }

  lemma ClaimEnds(m: seq<Byte>, v: seq<Byte>, u: seq<Byte>, w: seq<Byte>, bs: seq<Block>, lo: nat, hi: nat, j: nat,
                  need: nat)
    requires Runs(v, bs, lo, hi) && j < |bs| && OnlyHeader(v, u, bs[j].addr) && Touched(m, v, {lo})
    requires Trims(u, w, [bs[j].(free := false)] + bs[j + 1..], bs[j].addr, hi, need)
    ensures Runs(w, Claim(bs, j, need), lo, hi) && Touched(m, w, Heads(Claim(bs, j, need)))
    ensures Claim(bs, j, need) != [] && IsValid(w, bs[j].addr) && InBlock(v, w, bs[j])
  {
    BigEnough(bs, lo, hi, j);
    HeaderInBlock(v, u, bs[j].addr, bs[j]);
    InBlockTwice(v, u, w, bs[j]);
    hide Tiles, Chain, Touched, OnlyHeader, InBlock;
    var r := Split([bs[j].(free := false)] + bs[j + 1..], need);
    RunsFrom(w, r, bs[j].addr, hi);
    FirstHeader(w, r, bs[j].addr, hi);
    hide Runs;
    assert r[0] in r;
    OnlyHeaderTouches(v, u, bs[j].addr, Heads(r));
    TouchedTwice(v, u, w, Heads(r));
    Rewritten(v, w, bs, lo, hi, j, r);
    TouchedMore(m, v, {lo}, Heads(bs[..j] + r));
    TouchedTwice(m, v, w, Heads(bs[..j] + r));
  }

  lemma FreeEnds(v: seq<Byte>, u: seq<Byte>, w: seq<Byte>, bs: seq<Block>, lo: nat, hi: nat, i: nat, walk: seq<nat>)
    requires Runs(v, bs, lo, hi) && i < |bs| && OnlyHeader(v, u, bs[i].addr) && OnlyHeader(u, w, bs[i].addr)
    requires Defragged(u, w, [bs[i].(free := true)] + bs[i + 1..], walk)
    requires WalkSize(v, walk) == WalkSize(u, walk) && WalkEnd(v, bs[i].prev, walk) == WalkEnd(u, bs[i].prev, walk)
    ensures Chain(w, Freed(bs, i, v, walk), 0) && Touched(v, w, Heads(Freed(bs, i, v, walk)))
    ensures Runs(w, Freed(bs, i, v, walk), lo, hi) <==> WalkSize(v, walk) % WORD == 0
    ensures Freed(bs, i, v, walk) != [] && OnlyHeader(v, w, bs[i].addr)
  {
    hide HeaderAt, WalkSize, WalkEnd, Merge, Chain, Tiles, Touched, Heads;
    var seg := [bs[i].(free := true)] + bs[i + 1..];
    var merged := Merge(seg);
    MarkedTiles(bs, lo, hi, i, true);
    MergeTiles(seg, bs[i].addr, hi);
    var r := Backed(merged, WalkSize(v, walk), WalkEnd(v, bs[i].prev, walk));
    BackedTiles(merged, bs[i].addr, hi, WalkSize(v, walk), WalkEnd(v, bs[i].prev, walk));
    PrefixTiles(bs, lo, hi, i, r);
    Cut(v, bs, lo, hi, i);
    assert SameOn(v, w, 0, bs[i].addr);
    ChainSame(v, w, bs[..i], bs[i].addr, 0, bs[i].addr);
    ChainAppend(w, bs[..i], r, 0);
    HeadsHave(bs[..i], r);
    OnlyHeaderTouches(v, w, bs[i].addr, Heads(bs[..i] + r));
  }

  lemma HeadsHave(a: seq<Block>, b: seq<Block>)
    requires b != []
    ensures b[0].addr in Heads(a + b)
  {
    assert b[0] == (a + b)[|a|];
  }

  lemma GrowEnds(m: seq<Byte>, w: seq<Byte>, bs: seq<Block>, lo: nat, hi: nat, i: nat, cur: seq<Block>)
    requires Runs(m, bs, lo, hi) && i < |bs| && Runs(w, cur, bs[i].addr, hi) && OnlyHeader(m, w, bs[i].addr)
    ensures Runs(w, bs[..i] + cur, lo, hi) && i < |bs[..i] + cur| && bs[..i] + cur != []
  {
    hide HeaderAt, Chain, Tiles;
    RunsFrom(w, cur, bs[i].addr, hi);
    Paste(m, w, bs, lo, hi, i, cur);
  }

  /** The payloads of all other blocks in use are as they were. */
  ghost predicate OthersKept(m: seq<Byte>, w: seq<Byte>, bs: seq<Block>, i: nat) {
    i < |bs| && forall c :: c in Live(bs) && c != bs[i] ==> SameOn(m, w, c.addr + HEADER, End(c))
  }

  /** The payload of a block of `size` bytes, which was at src, is at dst. */
  ghost predicate Copied(m: seq<Byte>, w: seq<Byte>, src: nat, dst: nat, size: nat) {
    && |m| == |w|
    && forall x :: dst <= x < dst + size - HEADER && x < |w| && x - dst + src < |m| ==> w[x] == m[x - dst + src]
  }

  /** What moving block i of list g to the payload address p leaves. */
  ghost predicate MoveDone(v: seq<Byte>, w: seq<Byte>, g: seq<Block>, f: seq<Block>, i: nat, size: nat, p: nat) {
    if p == 0 then Touched(v, w, Heads(f))
    else
      && i < |g| && OthersKept(v, w, g, i) && Copied(v, w, g[i].addr + HEADER, p, size)
      && HEADER <= p <= |w| && p != g[i].addr + HEADER && IsValid(w, p - HEADER)
  }

  // ----- Moving a block -----

  /** b is the new block of list c, and block i of list g is block k of it. */
  ghost predicate Found(g: seq<Block>, c: seq<Block>, i: nat, k: nat, b: Block) {
    && i < |g| && k < |c| && c[k] == g[i] && !g[i].free
    && b in c && !b.free && b.addr != g[i].addr && Live(c) == Live(g) + {b}
    && (forall x :: x in Live(g) ==> Allocator.Apart(b, x) && b.addr != x.addr)
  }

  lemma MoveFinds(v: seq<Byte>, u: seq<Byte>, g: seq<Block>, c: seq<Block>, lo: nat, hi: nat, i: nat, size: nat,
                  oldSize: nat, walk: seq<nat>)
    returns (b: Block, k: nat)
    requires Runs(v, g, lo, hi) && i < |g| && !g[i].free && size > 0 && oldSize <= g[i].size && hi + HEADER <= |v|
    requires Allocator.Malloc(g, size).blocks == c && Allocator.Malloc(g, size).addr != 0
    requires MayMove(v, g, i, size, oldSize, walk) && Runs(u, c, lo, hi) && |u| == |v|
    ensures Found(g, c, i, k, b) && b.addr + HEADER == Allocator.Malloc(g, size).addr
    ensures HEADER + oldSize <= b.size && End(b) <= hi && g[i].addr + HEADER + oldSize <= |v|
    ensures Allocator.Holder(c, g[i].addr + HEADER) == Some(k) && IsValid(u, g[i].addr)
    ensures InChoice(g, size, b)
  {
    hide Tiles, Chain, HeaderAt, Allocator.Malloc, Allocator.Holds, Allocator.NoRoom, WalkAround, Allocator.Choice;
    b := Allocator.MallocContract(g, lo, hi, size);
    k := StillThere(g, lo, hi, i, size);
    Reach(u, c, lo, hi, k);
    Inside(g, lo, hi, i);
    var d := Allocator.MallocSize(g, lo, hi, size);
    Allocator.OneAt(c, lo, hi, b, d);
  }

  /** malloc leaves a block in use where it was. */
  lemma StillThere(g: seq<Block>, lo: nat, hi: nat, i: nat, size: nat) returns (k: nat)
    requires Tiles(g, lo, hi) && i < |g| && !g[i].free && size > 0
    ensures var c := Allocator.Malloc(g, size).blocks;
            k < |c| && c[k] == g[i] && Allocator.Holder(c, g[i].addr + HEADER) == Some(k)
  {
    hide Tiles, Allocator.Malloc, Allocator.Holds, Allocator.NoRoom;
    var c := Allocator.Malloc(g, size).blocks;
    var b := Allocator.MallocContract(g, lo, hi, size);
    assert g[i] in Live(g);
    assert g[i] in Live(c);
    k := IndexOf(c, g[i]);
    Allocator.HolderIs(c, lo, hi, k);
  }

  /** Block b lies at the start of the one that malloc takes or cuts. */
  ghost predicate InChoice(g: seq<Block>, size: nat, b: Block) {
    Allocator.Choice(g, size).addr == b.addr && End(b) <= End(Allocator.Choice(g, size))
  }

  /** Only bytes in the payload of block b changed. */
  ghost predicate InPayload(u: seq<Byte>, t: seq<Byte>, b: Block) {
    SameOn(u, t, 0, b.addr + HEADER) && SameOn(u, t, End(b), |u|)
  }

  /** A client may write what it likes in the payloads it holds: the chain stays. */
  lemma PayloadWrites(u: seq<Byte>, t: seq<Byte>, bs: seq<Block>, lo: nat, hi: nat, b: Block)
    requires Runs(u, bs, lo, hi) && b in bs && InPayload(u, t, b)
    ensures Runs(t, bs, lo, hi)
  {
    hide HeaderAt, Tiles, InPayload;
    var k := IndexOf(bs, b);
    forall i | 0 <= i < |bs| ensures Shows(t, bs[i], NextOf(bs, i, 0)) {
      HeaderKept(u, t, bs, lo, hi, k, i);
      assert Shows(u, bs[i], NextOf(bs, i, 0));
    }
    assert |t| == |u| by { InPayloadSize(u, t, b); }
  }

  lemma IndexOf(bs: seq<Block>, b: Block) returns (k: nat)
    requires b in bs
    ensures k < |bs| && bs[k] == b
  {
    k :| 0 <= k < |bs| && bs[k] == b;
  }

  lemma InPayloadSize(u: seq<Byte>, t: seq<Byte>, b: Block)
    requires InPayload(u, t, b)
    ensures |t| == |u|
  {}

  lemma HeaderKept(u: seq<Byte>, t: seq<Byte>, bs: seq<Block>, lo: nat, hi: nat, k: nat, i: nat)
    requires Tiles(bs, lo, hi) && k < |bs| && i < |bs| && InPayload(u, t, bs[k]) && hi <= |u|
    ensures HeaderAt(t, bs[i].addr) == HeaderAt(u, bs[i].addr)
  {
    HeaderOutside(bs, lo, hi, k, i);
    Inside(bs, lo, hi, i);
    hide HeaderAt;
    HeaderSame(u, t, bs[i].addr);
  }

  /** The header of any block lies outside the payload of block k. */
  lemma HeaderOutside(bs: seq<Block>, lo: nat, hi: nat, k: nat, i: nat)
    requires Tiles(bs, lo, hi) && k < |bs| && i < |bs|
    ensures bs[i].addr + HEADER <= bs[k].addr + HEADER || End(bs[k]) <= bs[i].addr
  {
    if i < k { Ordered(bs, lo, hi, i, k); } else if k < i { Ordered(bs, lo, hi, k, i); }
  }

  lemma CopyInPayload(u: seq<Byte>, b: Block, src: nat, n: nat)
    requires b.addr + HEADER + n <= End(b) && End(b) <= |u| && src + n <= |u|
    ensures InPayload(u, Moved(u, b.addr + HEADER, src, n), b)
  {}

  /** A block in use that is not the new one keeps its payload while another is claimed and filled. */
  lemma KeptSoFar(v: seq<Byte>, u: seq<Byte>, t: seq<Byte>, g: seq<Block>, c: seq<Block>, lo: nat, hi: nat, i: nat,
                  k: nat, b: Block, x: Block)
    requires Found(g, c, i, k, b) && Tiles(c, lo, hi) && Touched(v, u, Heads(c)) && InPayload(u, t, b) && x in Live(g)
    ensures SameOn(v, t, x.addr + HEADER, End(x)) && x in Live(c)
  {
    hide Tiles, Touched, Heads;
    assert x in Live(c) && x in c;
    PayloadKept(v, u, c, lo, hi, x);
    assert Allocator.Apart(b, x);
  }

  lemma MoveCopies(v: seq<Byte>, u: seq<Byte>, t: seq<Byte>, g: seq<Block>, c: seq<Block>, lo: nat, hi: nat, i: nat,
                   k: nat, b: Block, size: nat, oldSize: nat, walk: seq<nat>)
    requires Found(g, c, i, k, b) && Runs(u, c, lo, hi) && Touched(v, u, Heads(c)) && |u| == |v|
    requires InBlock(v, u, Allocator.Choice(g, size)) && InChoice(g, size, b)
    requires MayMove(v, g, i, size, oldSize, walk)
    requires HEADER + oldSize <= b.size && End(b) <= hi && g[i].addr + HEADER + oldSize <= |u|
    requires t == Moved(u, b.addr + HEADER, g[i].addr + HEADER, oldSize)
    requires Allocator.Holder(c, g[i].addr + HEADER) == Some(k)
    ensures Midway(v, u, t, g, c, lo, hi, i, k, b, oldSize)
    ensures BackWalk(t, g[i].addr, g[i].prev, walk)
    ensures BackAlong(t, g[i].prev, walk) == BackAlong(v, g[i].prev, walk)
  {
    hide HeaderAt, Chain, Tiles, Touched, Heads, Moved, BackWalk, WalkAround, Allocator.RoomFor, Allocator.Choice,
      WalkSize, WalkEnd, InPayload;
    CopyInPayload(u, b, g[i].addr + HEADER, oldSize);
    PayloadWrites(u, t, c, lo, hi, b);
    var d := Allocator.Choice(g, size);
    ChangedAround(v, u, t, d, b, g[i].addr);
    WalkAroundStays(v, t, g[i].addr, d, g[i].prev, walk);
    NewInUse(t, c, lo, hi, k, b);
    WalkAroundIs(t, g[i].addr, d, g[i].prev, walk);
  }

  lemma ChangedAround(v: seq<Byte>, u: seq<Byte>, t: seq<Byte>, d: Block, b: Block, blk: nat)
    requires InBlock(v, u, d) && InPayload(u, t, b) && d.addr == b.addr && End(b) <= End(d)
    ensures Around(v, t, blk, d)
  {}

  lemma NewInUse(t: seq<Byte>, c: seq<Block>, lo: nat, hi: nat, k: nat, b: Block)
    requires Runs(t, c, lo, hi) && k < |c| && b in c && !b.free && b.addr != c[k].addr
    ensures !IsFree(t, b.addr) && b.addr + HEADER <= |t| && Clear(b.addr, c[k].addr) && IsValid(t, b.addr)
  {
    hide HeaderAt, Chain, Tiles;
    var j := IndexOf(c, b);
    Reach(t, c, lo, hi, j);
    HeadersClear(c, lo, hi, j, k);
  }

  lemma HeadersClear(c: seq<Block>, lo: nat, hi: nat, j: nat, k: nat)
    requires Tiles(c, lo, hi) && j < |c| && k < |c| && j != k
    ensures Clear(c[j].addr, c[k].addr)
  {
    if j < k { Ordered(c, lo, hi, j, k); } else { Ordered(c, lo, hi, k, j); }
  }

  lemma NullWalk(t: seq<Byte>, blk: nat)
    ensures BackWalk(t, blk, 0, [])
  {}

  /** The state after the copy and before the old block is freed. */
  ghost predicate Midway(v: seq<Byte>, u: seq<Byte>, t: seq<Byte>, g: seq<Block>, c: seq<Block>, lo: nat, hi: nat,
                         i: nat, k: nat, b: Block, oldSize: nat) {
    && Found(g, c, i, k, b) && Runs(t, c, lo, hi) && Touched(v, u, Heads(c)) && InPayload(u, t, b) && |u| == |v|
    && HEADER + oldSize <= b.size && End(b) <= hi && g[i].addr + HEADER + oldSize <= |u|
    && t == Moved(u, b.addr + HEADER, g[i].addr + HEADER, oldSize)
    && Allocator.Holder(c, g[i].addr + HEADER) == Some(k)
  }

  lemma MidwayMeans(v: seq<Byte>, u: seq<Byte>, t: seq<Byte>, g: seq<Block>, c: seq<Block>, lo: nat, hi: nat, i: nat,
                    k: nat, b: Block, oldSize: nat)
    requires Midway(v, u, t, g, c, lo, hi, i, k, b, oldSize)
    ensures Runs(t, c, lo, hi) && c != [] && k < |c| && c[k] == g[i] && !c[k].free && IsValid(t, g[i].addr)
    ensures g[i].addr + HEADER <= |t|
  {
    hide HeaderAt, InPayload, Moved, Touched, Heads, Tiles, Chain;
    Reach(t, c, lo, hi, k);
  }

  lemma MoveFailed(v: seq<Byte>, u: seq<Byte>, g: seq<Block>, c: seq<Block>, i: nat, oldSize: nat)
    requires Touched(v, u, Heads(c))
    ensures MoveDone(v, u, g, c, i, oldSize, 0)
  {}

  lemma MoveEnds(v: seq<Byte>, u: seq<Byte>, t: seq<Byte>, w: seq<Byte>, g: seq<Block>, c: seq<Block>, f: seq<Block>,
                 lo: nat, hi: nat, i: nat, k: nat, b: Block, oldSize: nat)
    requires Midway(v, u, t, g, c, lo, hi, i, k, b, oldSize) && HEADER <= oldSize <= g[i].size
    requires OnlyHeader(t, w, g[i].addr)
    ensures MoveDone(v, w, g, f, i, oldSize, b.addr + HEADER)
  {
    hide HeaderAt, Chain, Tiles, Touched, Heads, InPayload, Moved, Live, OnlyHeader, SameOn;
    HasHead(c, k);
    OnlyHeaderTouches(t, w, g[i].addr, Heads(c));
    NewInUse(t, c, lo, hi, k, b);
    OnlyHeaderLength(t, w, g[i].addr);
    WroteAround(t, w, g[i].addr, b.addr);
    forall x | x in Live(g) && x != g[i] ensures SameOn(v, w, x.addr + HEADER, End(x)) {
      KeptToEnd(v, u, t, w, g, c, lo, hi, i, k, b, oldSize, x);
    }
    PayloadsCopied(v, u, t, w, g, c, lo, hi, i, k, b, oldSize);
  }

  lemma OnlyHeaderLength(m: seq<Byte>, w: seq<Byte>, a: nat)
    requires OnlyHeader(m, w, a)
    ensures |m| == |w|
  {}

  lemma WroteAround(m: seq<Byte>, w: seq<Byte>, a: nat, b: nat)
    requires OnlyHeader(m, w, a) && Clear(a, b) && b + HEADER <= |m|
    ensures HeaderAt(w, b) == HeaderAt(m, b)
  {
    hide HeaderAt;
    HeaderSame(m, w, b);
  }

  lemma LiveMembers(f: seq<Block>, b: Block)
    ensures b in Live(f) <==> b in f && !b.free
  {}

  lemma KeptToEnd(v: seq<Byte>, u: seq<Byte>, t: seq<Byte>, w: seq<Byte>, g: seq<Block>, c: seq<Block>,
                  lo: nat, hi: nat, i: nat, k: nat, b: Block, oldSize: nat, x: Block)
    requires Midway(v, u, t, g, c, lo, hi, i, k, b, oldSize) && x in Live(g) && x != g[i] && Touched(t, w, Heads(c))
    ensures SameOn(v, w, x.addr + HEADER, End(x))
  {
    hide HeaderAt, Chain, Tiles, Touched, Heads, InPayload, Moved, Live;
    KeptSoFar(v, u, t, g, c, lo, hi, i, k, b, x);
    LiveMembers(c, x);
    PayloadKept(t, w, c, lo, hi, x);
  }

  lemma PayloadsCopied(v: seq<Byte>, u: seq<Byte>, t: seq<Byte>, w: seq<Byte>, g: seq<Block>, c: seq<Block>,
                       lo: nat, hi: nat, i: nat, k: nat, b: Block, oldSize: nat)
    requires Midway(v, u, t, g, c, lo, hi, i, k, b, oldSize) && HEADER <= oldSize <= g[i].size
    requires Touched(t, w, Heads(c))
    ensures Copied(v, w, g[i].addr + HEADER, b.addr + HEADER, oldSize)
  {
    hide HeaderAt, Chain, Tiles, Touched, Heads, Moved, Live, Copied;
    assert g[i] in c;
    PayloadKept(v, u, c, lo, hi, g[i]);
    PayloadKept(t, w, c, lo, hi, b);
    CopiedThrough(v, u, t, w, g[i], b, oldSize);
  }

  lemma CopiedThrough(v: seq<Byte>, u: seq<Byte>, t: seq<Byte>, w: seq<Byte>, was: Block, b: Block, oldSize: nat)
    requires SameOn(v, u, was.addr + HEADER, End(was)) && SameOn(t, w, b.addr + HEADER, End(b))
    requires b.addr + HEADER + oldSize <= End(b) <= |u| && HEADER <= oldSize <= was.size
    requires was.addr + HEADER + oldSize <= |u|
    requires t == Moved(u, b.addr + HEADER, was.addr + HEADER, oldSize)
    ensures Copied(v, w, was.addr + HEADER, b.addr + HEADER, oldSize)
  {}

  lemma ShrinkEnds(m: seq<Byte>, w: seq<Byte>, bs: seq<Block>, lo: nat, hi: nat, i: nat, need: nat)
    requires Runs(m, bs, lo, hi) && i < |bs| && Trims(m, w, bs[i..], bs[i].addr, hi, need)
    ensures var r := if bs[i].free then bs else Shrink(bs, i, need);
            Runs(w, r, lo, hi) && Touched(m, w, Heads(r)) && r != []
    ensures IsValid(w, bs[i].addr)
  {
    hide Tiles, Chain, Touched, Split, HeaderAt;
    var r := if bs[i].free then bs[i..] else Split(bs[i..], need);
    RunsFrom(w, r, bs[i].addr, hi);
    FirstHeader(w, r, bs[i].addr, hi);
    Rewritten(m, w, bs, lo, hi, i, r);
    assert bs[..i] + bs[i..] == bs;
  }

  lemma NothingDone(m: seq<Byte>, bs: seq<Block>, i: nat)
    requires i < |bs| && bs[i].addr != 0 && bs[i].addr + HEADER <= |m| && IsValid(m, bs[i].addr)
    ensures ResizeDone(m, m, bs, bs, i, bs[i].addr)
  {}

  lemma FreeResize(bs: seq<Block>, i: nat, size: nat, back: Allocator.Back)
    requires i < |bs| && bs[i].free
    ensures Allocator.Resize(bs, i, size, back) == Allocator.Outcome(bs, bs[i].addr + HEADER)
    ensures !Allocator.Moves(bs, i, size)
  {}

  /** Growth in place leaves the other blocks, their payloads and the back link as they were. */
  ghost predicate Safe(m: seq<Byte>, v: seq<Byte>, bs: seq<Block>, g: seq<Block>, i: nat) {
    && i < |bs| && i < |g| && !g[i].free
    && g[i].addr == bs[i].addr && g[i].prev == bs[i].prev && g[i].size >= bs[i].size
    && Live(g) == Live(bs) - {bs[i]} + {g[i]} && Live(g) - {g[i]} == Live(bs) - {bs[i]}
    && (forall x :: x in Live(g) ==> SameOn(m, v, x.addr + HEADER, End(x)))
  }

  lemma GrowSafe(m: seq<Byte>, v: seq<Byte>, bs: seq<Block>, g: seq<Block>, lo: nat, hi: nat, i: nat, need: nat)
    requires Runs(m, bs, lo, hi) && Runs(v, g, lo, hi) && i < |bs| && !bs[i].free && need >= HEADER
    requires g == Grow(bs, i, need) && OnlyHeader(m, v, bs[i].addr)
    ensures Safe(m, v, bs, g, i) && bs[i].size >= HEADER
  {
    hide HeaderAt, Chain, Tiles, Live, Grow;
    Allocator.GrowResizes(bs, lo, hi, i, need - HEADER, g);
    GrowMeaning(bs, lo, hi, i, need);
    BigEnough(bs, lo, hi, i);
    GrowTouches(m, v, g, lo, hi, i);
    forall x | x in Live(g) ensures SameOn(m, v, x.addr + HEADER, End(x)) {
      LiveMembers(g, x);
      PayloadKept(m, v, g, lo, hi, x);
    }
  }

  lemma BigEnough(bs: seq<Block>, lo: nat, hi: nat, i: nat)
    requires Tiles(bs, lo, hi) && i < |bs|
    ensures bs[i].size >= HEADER
  {}

  /** The outcome of expand_block in its three cases. */
  lemma ExpandIs(bs: seq<Block>, g: seq<Block>, i: nat, size: nat, back: Allocator.Back)
    requires i < |bs| && !bs[i].free && bs[i].size <= size + HEADER && g == Grow(bs, i, size + HEADER) && i < |g|
    ensures g[i].size >= size + HEADER ==>
      Allocator.Resize(bs, i, size, back) == Allocator.Outcome(Shrink(g, i, size + HEADER), bs[i].addr + HEADER)
    ensures g[i].size < size + HEADER ==>
      Allocator.Resize(bs, i, size, back) == Allocator.Move(g, bs[i].addr + HEADER, size, back)
    ensures Allocator.Moves(bs, i, size) <==> g[i].size < size + HEADER && Allocator.Malloc(g, size).addr != 0
  {
    hide Shrink, Grow, Allocator.Malloc, Allocator.Move;
  }

  /** What a move needs is still there once the block has grown in vain. */
  lemma GrownMayMove(m: seq<Byte>, v: seq<Byte>, bs: seq<Block>, g: seq<Block>, i: nat, size: nat, walk: seq<nat>)
    requires i < |bs| && i < |g| && g == Grow(bs, i, size + HEADER)
    requires g[i].addr == bs[i].addr && g[i].prev == bs[i].prev && OnlyHeader(m, v, bs[i].addr)
    ensures MayMoveFrom(m, bs, i, size, walk) ==>
      && MayMove(v, g, i, size, bs[i].size, walk) && WalkSize(v, walk) == WalkSize(m, walk)
      && BackAlong(v, bs[i].prev, walk) == BackAlong(m, bs[i].prev, walk)
  {
    hide Grow, WalkAround, WalkSize, WalkEnd, Allocator.Choice, Allocator.RoomFor;
    if MayMoveFrom(m, bs, i, size, walk) {
      var c := Allocator.Choice(g, size);
      assert Around(m, v, bs[i].addr, c);
      WalkAroundStays(m, v, bs[i].addr, c, bs[i].prev, walk);
    }
  }

  lemma MoveOutcome(g: seq<Block>, a: nat, size: nat, back: Allocator.Back)
    ensures var o := Allocator.Move(g, a, size, back);
            && o.addr == Allocator.Malloc(g, size).addr
            && (if o.addr == 0 then o == Allocator.Outcome(g, 0) else o.addr >= HEADER)
  {}

  lemma GrowTouches(m: seq<Byte>, v: seq<Byte>, g: seq<Block>, lo: nat, hi: nat, i: nat)
    requires i < |g| && OnlyHeader(m, v, g[i].addr)
    ensures Touched(m, v, Heads(g))
  {
    assert g[i] in g;
    OnlyHeaderTouches(m, v, g[i].addr, Heads(g));
  }

  lemma InPlace(m: seq<Byte>, v: seq<Byte>, w: seq<Byte>, bs: seq<Block>, g: seq<Block>, f: seq<Block>, lo: nat,
                hi: nat, i: nat, need: nat)
    requires Safe(m, v, bs, g, i) && OnlyHeader(m, v, bs[i].addr) && Runs(v, g, lo, hi)
    requires f == Shrink(g, i, need) && HEADER <= need <= g[i].size && Touched(v, w, Heads(f)) && IsValid(w, bs[i].addr)
    requires bs[i].addr + HEADER <= |w|
    ensures ResizeDone(m, w, bs, f, i, bs[i].addr)
  {
    hide HeaderAt, Tiles, Chain, Live, Shrink, Heads, Touched;
    ShrinkMeaning(g, lo, hi, i, need);
    HasHead(f, i);
    OnlyHeaderTouches(m, v, bs[i].addr, Heads(f));
    TouchedTwice(m, v, w, Heads(f));
  }

  lemma HasHead(f: seq<Block>, i: nat)
    requires i < |f|
    ensures f[i].addr in Heads(f)
  {
    assert f[i] in f;
  }

  lemma MovedAfterGrowth(m: seq<Byte>, v: seq<Byte>, w: seq<Byte>, bs: seq<Block>, g: seq<Block>, f: seq<Block>,
                         lo: nat, hi: nat, i: nat, need: nat, p: nat)
    requires Safe(m, v, bs, g, i) && OnlyHeader(m, v, bs[i].addr) && MoveDone(v, w, g, f, i, bs[i].size, p)
    requires p == 0 ==> f == g
    ensures p != 0 ==> p > HEADER
    ensures ResizeDone(m, w, bs, f, i, if p == 0 then 0 else p - HEADER)
  {
    hide HeaderAt, Live, Heads, Touched;
    if p == 0 {
      HasHead(g, i);
      OnlyHeaderTouches(m, v, bs[i].addr, Heads(f));
      TouchedTwice(m, v, w, Heads(f));
    }
  }

  /** A back link that leads to a listed free block leads to a valid free header. */
  lemma LeadsInMemory(m: seq<Byte>, bs: seq<Block>, lo: nat, hi: nat, p: nat)
    requires Runs(m, bs, lo, hi)
    ensures Allocator.LeadsToFree(bs, p) ==>
            IsValid(m, p) && IsFree(m, p) && HeaderAt(m, p).size == Allocator.BlockAt(bs, p).size
    ensures Allocator.LeadsToFree(bs, p) ==> HeaderAt(m, p).prev == Allocator.BlockAt(bs, p).prev
  {
    if Allocator.LeadsToFree(bs, p) { Reach(m, bs, lo, hi, Allocator.Holder(bs, p + HEADER).value); }
  }

  lemma ShrunkInPlace(m: seq<Byte>, w: seq<Byte>, bs: seq<Block>, f: seq<Block>, i: nat, size: nat,
                      back: Allocator.Back)
    requires i < |bs| && bs[i].size > size + HEADER && f == if bs[i].free then bs else Shrink(bs, i, size + HEADER)
    requires Touched(m, w, Heads(f)) && bs[i].addr != 0 && bs[i].addr + HEADER <= |w| && IsValid(w, bs[i].addr)
    ensures ResizeDone(m, w, bs, f, i, bs[i].addr)
    ensures Allocator.Resize(bs, i, size, back) == Allocator.Outcome(f, bs[i].addr + HEADER)
    ensures !Allocator.Moves(bs, i, size)
  {
    hide Touched, Heads, Shrink, HeaderAt, Grow;
  }

  lemma ResizedBytes(m: seq<Byte>, w: seq<Byte>, bs: seq<Block>, f: seq<Block>, i: nat, p: nat, addr: nat, size: nat)
    requires ResizeDone(m, w, bs, f, i, p) && Allocator.Holder(bs, addr) == Some(i) && addr != 0 && size != 0
    ensures Bytewise(m, w, bs, f, addr, size, Data(p))
    ensures p != 0 ==> p + HEADER <= |w| && IsValid(w, p)
  {
    hide Touched, Heads, OthersKept, Copied, HeaderAt;
  }

  lemma HeadersOnly(m: seq<Byte>, w: seq<Byte>, bs: seq<Block>, f: seq<Block>, addr: nat, size: nat, p: nat)
    requires Touched(m, w, Heads(f))
    requires addr == 0 || size == 0 || Allocator.Holder(bs, addr).None?
    ensures Bytewise(m, w, bs, f, addr, size, p)
  {}

  /** The address of a block, or null. */
  function AddrOf(bs: seq<Block>, k: Option<nat>): nat {
    if k.Some? && k.value < |bs| then bs[k.value].addr else 0
  }

  lemma BlankRuns(m: seq<Byte>, w: seq<Byte>, lo: nat, hi: nat)
    requires 0 < lo && lo + HEADER <= hi < |m| <= WORD && Wrote(m, w, lo, Header(MAGIC, 1, hi - lo, 0, 0))
    ensures Runs(w, Allocator.Blank(lo, hi), lo, hi)
  {
    Requests.BlankAgrees(lo, hi);
  }

  lemma RunsFrom(m: seq<Byte>, bs: seq<Block>, lo: nat, hi: nat)
    requires Runs(m, bs, lo, hi)
    ensures bs != [] && bs[0].addr == lo && lo + HEADER <= hi < |m|
  {
    TilesFrom(bs, lo, hi);
  }

  /** What the loops read at the k-th header, or at null behind the last. */
  ghost predicate ReachFits(m: seq<Byte>, bs: seq<Block>, k: nat) {
    if k >= |bs| then true
    else
      && bs[k].addr > 0 && bs[k].addr + HEADER <= |m|
      && IsValid(m, bs[k].addr) && (IsFree(m, bs[k].addr) <==> bs[k].free)
      && HeaderAt(m, bs[k].addr).size == bs[k].size
      && HeaderAt(m, bs[k].addr).next == NextOf(bs, k, 0)
      && HeaderAt(m, bs[k].addr).attr == (if bs[k].free then 1 else 0)
      && HeaderAt(m, bs[k].addr).prev == bs[k].prev
  }

  lemma Reach(m: seq<Byte>, bs: seq<Block>, lo: nat, hi: nat, k: nat)
    requires Runs(m, bs, lo, hi)
    ensures ReachFits(m, bs, k)
  {
    if k < |bs| {
      ChainAt(m, bs, 0, k);
      TilesFrom(bs, lo, hi);
      assert bs[k] in bs;
    }
  }

  /** The header that the backward loop leaves: the sizes along the walk are added, in size_t arithmetic. */
  function BackHeader(m: seq<Byte>, blk: nat, walk: seq<nat>): Header {
    var h := HeaderAt(m, blk);
    h.(size := (h.size + WalkSize(m, walk)) % WORD, prev := WalkEnd(m, h.prev, walk))
  }

  /** Part of the way along the walk: w is still to go. */
  ghost predicate BackState(m: seq<Byte>, v: seq<Byte>, blk: nat, walk: seq<nat>, w: seq<nat>) {
    var h, k := HeaderAt(m, blk), HeaderAt(v, blk);
    && Wrote(m, v, blk, h.(size := k.size, prev := k.prev))
    && BackWalk(m, blk, k.prev, w) && WalkSize(m, w) <= WalkSize(m, walk)
    && k.size == (h.size + WalkSize(m, walk) - WalkSize(m, w)) % WORD
    && WalkEnd(m, k.prev, w) == WalkEnd(m, h.prev, walk)
    && (k.prev != 0 ==> k.prev + HEADER <= |m| && HeaderAt(v, k.prev) == HeaderAt(m, k.prev))
  }

  lemma BackStart(m: seq<Byte>, blk: nat, walk: seq<nat>)
    requires blk + HEADER <= |m| && BackWalk(m, blk, HeaderAt(m, blk).prev, walk)
    ensures BackState(m, m, blk, walk, walk)
  {
    Bounds(m, blk);
  }

  lemma ModAdd(a: nat, x: nat)
    ensures (a % WORD + x) % WORD == (a + x) % WORD
  {}

  /** The loop takes another step only where the walk has one. */
  lemma BackReads(m: seq<Byte>, v: seq<Byte>, blk: nat, walk: seq<nat>, w: seq<nat>)
    requires BackState(m, v, blk, walk, w)
    ensures IsValid(v, HeaderAt(v, blk).prev) && IsFree(v, HeaderAt(v, blk).prev) <==> w != []
    ensures HeaderAt(v, blk).prev != 0 ==> Clear(HeaderAt(v, blk).prev, blk)
  {
    hide HeaderAt, WalkSize, WalkEnd, Wrote;
  }

  lemma BackStep(m: seq<Byte>, v: seq<Byte>, u: seq<Byte>, t: seq<Byte>, blk: nat, walk: seq<nat>, w: seq<nat>)
    requires BackState(m, v, blk, walk, w) && w != []
    requires var k := HeaderAt(v, blk);
      && Wrote(v, u, blk, k.(size := (k.size + HeaderAt(v, k.prev).size) % WORD))
      && Wrote(u, t, blk, HeaderAt(u, blk).(prev := HeaderAt(v, k.prev).prev))
    ensures BackState(m, t, blk, walk, w[1..])
  {
    var h, k := HeaderAt(m, blk), HeaderAt(v, blk);
    var q := HeaderAt(m, k.prev);
    hide HeaderAt;
    ModAdd(h.size + WalkSize(m, walk) - WalkSize(m, w), q.size);
    assert SameOn(m, t, 0, blk) && SameOn(m, t, blk + HEADER, |m|);
    assert k.prev == w[0] && BackWalk(m, blk, q.prev, w[1..]);
    if q.prev != 0 { assert Clear(q.prev, blk); HeaderSame(m, t, q.prev); }
  }

  /** The first header of a chain, and what the loops test about the one behind it. */
  ghost predicate FirstFits(m: seq<Byte>, seg: seq<Block>, blk: nat) {
    && seg != [] && blk > 0 && blk + HEADER <= |m|
    && IsValid(m, blk) && (IsFree(m, blk) <==> seg[0].free)
    && HeaderAt(m, blk).size == seg[0].size && HeaderAt(m, blk).prev == seg[0].prev
    && HeaderAt(m, blk).next == NextOf(seg, 0, 0)
    && (HeaderAt(m, blk).next != 0 ==> HeaderAt(m, blk).next + HEADER <= |m|)
    && (IsValid(m, HeaderAt(m, blk).next) <==> |seg| >= 2)
    && (IsFree(m, HeaderAt(m, blk).next) <==> |seg| >= 2 && seg[1].free)
  }

  lemma FirstHeader(m: seq<Byte>, seg: seq<Block>, blk: nat, hi: nat)
    requires Runs(m, seg, blk, hi)
    ensures FirstFits(m, seg, blk)
  {
    ChainHead(m, seg, 0);
    TilesFrom(seg, blk, hi);
    if |seg| >= 2 {
      ChainRest(m, seg, 0);
      ChainHead(m, seg[1..], 0);
      assert seg[1] in seg;
    }
  }

  ghost predicate Defragged(m: seq<Byte>, w: seq<Byte>, seg: seq<Block>, walk: seq<nat>) {
    && seg != []
    && if !seg[0].free then m == w
       else Chain(w, Backed(Merge(seg), WalkSize(m, walk), WalkEnd(m, seg[0].prev, walk)), 0)
  }

  lemma BackDone(m: seq<Byte>, v: seq<Byte>, w: seq<Byte>, seg: seq<Block>, cur: seq<Block>, blk: nat, hi: nat,
                 walk: seq<nat>)
    requires seg != [] && seg[0].free && Runs(v, cur, blk, hi) && Merge(cur) == Merge(seg) && cur[0].prev == seg[0].prev
    requires !(|cur| >= 2 && cur[1].free) && cur[0].free && FirstFits(v, cur, blk)
    requires WalkSize(m, walk) == WalkSize(v, walk) && WalkEnd(m, seg[0].prev, walk) == WalkEnd(v, seg[0].prev, walk)
    requires Wrote(v, w, blk, BackHeader(v, blk, walk))
    ensures Defragged(m, w, seg, walk)
  {
    hide Chain, Tiles, Wrote, WalkSize, WalkEnd, HeaderAt, Merge;
    MergeNothing(cur);
    BackedShows(v, w, cur, blk, hi, BackHeader(v, blk, walk));
  }

  lemma BackedShows(v: seq<Byte>, w: seq<Byte>, cur: seq<Block>, blk: nat, hi: nat, h: Header)
    requires Runs(v, cur, blk, hi) && cur[0].free
    requires h == HeaderAt(v, blk).(size := h.size, prev := h.prev) && Wrote(v, w, blk, h)
    ensures Chain(w, [cur[0].(size := h.size, prev := h.prev)] + cur[1..], 0)
  {
    ChainHead(v, cur, 0);
    ChainRest(v, cur, 0);
    TilesFrom(cur, blk, hi);
    hide Chain, Tiles, Wrote, HeaderAt;
    ChainCons(v, w, cur[0].(size := h.size, prev := h.prev), cur[1..], 0);
  }

  lemma MergedNotBacked(seg: seq<Block>, m: seq<Byte>, lo: nat, hi: nat)
    requires seg != [] && Tiles(seg, lo, hi) && hi < WORD
    ensures Backed(Merge(seg), WalkSize(m, []), WalkEnd(m, seg[0].prev, [])) == Merge(seg)
    ensures Merge(seg) != [] && Merge(seg)[0].addr == lo && Tiles(Merge(seg), lo, hi)
  {
    hide Lengthened, Tiles, Merge;
    MergeLengthens(seg);
    LengthenedTiles(seg, Merge(seg), lo, hi);
    Inside(Merge(seg), lo, hi, 0);
    assert Merge(seg) == [Merge(seg)[0]] + Merge(seg)[1..];
  }

  lemma LengthenedTiles(seg: seq<Block>, r: seq<Block>, lo: nat, hi: nat)
    requires Lengthened(seg, r) && Tiles(seg, lo, hi)
    ensures Tiles(r, lo, hi) && seg != [] && r != [] && r[0].prev == seg[0].prev && r[0].addr == lo
  {}

  /** The list after the header of the split-off part is written. */
  function Rest(seg: seq<Block>, need: nat): seq<Block>
    requires seg != [] && need <= seg[0].size
  {
    [Block(seg[0].addr + need, seg[0].size - need, true, seg[0].addr)] + seg[1..]
  }

  /** Only bytes of block b changed. */
  ghost predicate InBlock(u: seq<Byte>, t: seq<Byte>, b: Block) {
    SameOn(u, t, 0, b.addr) && SameOn(u, t, End(b), |u|)
  }

  lemma InBlockTwice(m: seq<Byte>, v: seq<Byte>, w: seq<Byte>, b: Block)
    requires InBlock(m, v, b) && InBlock(v, w, b)
    ensures InBlock(m, w, b)
  {}

  lemma HeaderInBlock(m: seq<Byte>, w: seq<Byte>, a: nat, b: Block)
    requires OnlyHeader(m, w, a) && b.addr <= a && a + HEADER <= End(b)
    ensures InBlock(m, w, b)
  {}

  /** What shrink_block leaves. */
  ghost predicate Trims(m: seq<Byte>, w: seq<Byte>, seg: seq<Block>, blk: nat, hi: nat, need: nat) {
    && seg != [] && InBlock(m, w, seg[0])
    && var r := if seg[0].free then seg else Split(seg, need);
       Runs(w, r, blk, hi) && Touched(m, w, Heads(r))
  }

  lemma TrimsNothing(m: seq<Byte>, seg: seq<Block>, blk: nat, hi: nat, need: nat)
    requires Runs(m, seg, blk, hi)
    ensures seg[0].free || need + HEADER > seg[0].size ==> Trims(m, m, seg, blk, hi, need)
  {}

  lemma RoomForHeader(m: seq<Byte>, seg: seq<Block>, blk: nat, hi: nat)
    requires Runs(m, seg, blk, hi)
    ensures seg != [] && blk + seg[0].size <= hi && blk == seg[0].addr
    ensures HeaderAt(m, blk).next < WORD
  {
    TilesFrom(seg, blk, hi);
    Bounds(m, blk);
  }

  lemma SplitStarts(m: seq<Byte>, v: seq<Byte>, seg: seq<Block>, blk: nat, hi: nat, need: nat)
    requires Runs(m, seg, blk, hi) && HEADER <= need && need + HEADER <= seg[0].size
    requires Wrote(m, v, blk + need, Header(MAGIC, 1, seg[0].size - need, NextOf(seg, 0, 0), blk))
    requires FirstFits(m, seg, blk) && !seg[0].free
    ensures Runs(v, Rest(seg, need), blk + need, hi)
    ensures BackWalk(v, blk + need, blk, [])
    ensures HeaderAt(v, blk) == HeaderAt(m, blk)
  {
    hide HeaderAt, Chain, Tiles, AllFrom, Wrote;
    SplitTiles(seg, need, blk, hi);
    SplitRoom(seg, need, blk, hi);
    ChainAt(m, seg, 0, 0);
    WroteElsewhere(m, v, blk + need, Header(MAGIC, 1, seg[0].size - need, NextOf(seg, 0, 0), blk), blk);
    ChainCons(m, v, Rest(seg, need)[0], seg[1..], 0);
  }

  lemma SplitRoom(seg: seq<Block>, need: nat, lo: nat, hi: nat)
    requires Tiles(seg, lo, hi) && HEADER <= need && need + HEADER <= seg[0].size
    ensures seg[0].addr == lo && AllFrom(seg[1..], lo + need + HEADER)
  {
    TilesFrom(seg, lo, hi);
  }

  lemma WroteElsewhere(m: seq<Byte>, w: seq<Byte>, a: nat, h: Header, b: nat)
    requires Wrote(m, w, a, h) && Clear(a, b) && b + HEADER <= |m|
    ensures HeaderAt(w, b) == HeaderAt(m, b) && |w| == |m|
  {
    hide HeaderAt;
    HeaderSame(m, w, b);
  }

  lemma SplitEnds(m: seq<Byte>, v: seq<Byte>, u: seq<Byte>, w: seq<Byte>, seg: seq<Block>, blk: nat, hi: nat, need: nat)
    requires seg != [] && Runs(m, seg, blk, hi) && HEADER <= need && need + HEADER <= seg[0].size && !seg[0].free
    requires OnlyHeader(m, v, blk + need) && Runs(v, Rest(seg, need), blk + need, hi)
    requires Defragged(v, u, Rest(seg, need), []) && OnlyHeader(v, u, blk + need)
    requires Wrote(u, w, blk, HeaderAt(u, blk).(size := need, next := blk + need))
    requires HeaderAt(v, blk) == HeaderAt(m, blk)
    ensures Trims(m, w, seg, blk, hi, need)
  {
    hide Tiles, Chain, HeaderAt, Wrote, Split, Touched, Trimmed, Merge;
    var rest := Rest(seg, need);
    MergedNotBacked(rest, v, blk + need, hi);
    SplitChain(m, v, u, w, seg, blk, hi, need, Merge(rest));
    SplitMeaning(seg, need);
    TrimmedTiles(seg, Split(seg, need), need, blk, hi);
    SplitIs(seg, need);
    WroteOnly(u, w, blk, HeaderAt(u, blk).(size := need, next := blk + need));
    SplitTouches(m, v, u, w, blk, need, Split(seg, need));
    SplitInside(m, v, u, w, seg[0], need);
  }

  lemma SplitIs(seg: seq<Block>, need: nat)
    requires seg != [] && need + HEADER <= seg[0].size
    ensures Split(seg, need) == [seg[0].(size := need)] + Merge(Rest(seg, need))
  {}

  lemma WroteOnly(m: seq<Byte>, w: seq<Byte>, a: nat, h: Header)
    requires Wrote(m, w, a, h)
    ensures OnlyHeader(m, w, a) && |m| == |w|
  {}

  lemma TrimmedTiles(seg: seq<Block>, r: seq<Block>, need: nat, lo: nat, hi: nat)
    requires Trimmed(seg, r, need) && Tiles(seg, lo, hi)
    ensures Tiles(r, lo, hi) && seg[0].addr == lo
  {}

  lemma SplitChain(m: seq<Byte>, v: seq<Byte>, u: seq<Byte>, w: seq<Byte>, seg: seq<Block>, blk: nat, hi: nat,
                   need: nat, tail: seq<Block>)
    requires Runs(m, seg, blk, hi) && HEADER <= need && need + HEADER <= seg[0].size && !seg[0].free
    requires Tiles(tail, blk + need, hi) && Chain(u, tail, 0) && OnlyHeader(v, u, blk + need)
    requires Wrote(u, w, blk, HeaderAt(u, blk).(size := need, next := blk + need))
    requires HeaderAt(v, blk) == HeaderAt(m, blk)
    ensures Chain(w, [seg[0].(size := need)] + tail, 0)
  {
    ChainHead(m, seg, 0);
    TilesFrom(tail, blk + need, hi);
    HeaderSame(v, u, blk);
    hide HeaderAt, Chain, Tiles;
    ChainCons(u, w, seg[0].(size := need), tail, 0);
  }

  lemma OnlyHeaderTouches(m: seq<Byte>, w: seq<Byte>, a: nat, heads: set<nat>)
    requires OnlyHeader(m, w, a) && a in heads
    ensures Touched(m, w, heads)
  {
    forall x | 0 <= x < |m| && !InHeaders(heads, x) ensures m[x] == w[x] {
      assert a in heads;
    }
  }

  lemma SplitTouches(m: seq<Byte>, v: seq<Byte>, u: seq<Byte>, w: seq<Byte>, blk: nat, need: nat, r: seq<Block>)
    requires OnlyHeader(m, v, blk + need) && OnlyHeader(v, u, blk + need) && OnlyHeader(u, w, blk)
    requires |r| >= 2 && r[0].addr == blk && r[1].addr == blk + need
    ensures Touched(m, w, Heads(r))
  {
    assert r[0] in r && r[1] in r;
    assert blk in Heads(r) && blk + need in Heads(r);
    hide Heads, OnlyHeader;
    OnlyHeaderTouches(m, v, blk + need, Heads(r));
    OnlyHeaderTouches(v, u, blk + need, Heads(r));
    OnlyHeaderTouches(u, w, blk, Heads(r));
  }

  lemma SplitInside(m: seq<Byte>, v: seq<Byte>, u: seq<Byte>, w: seq<Byte>, b: Block, need: nat)
    requires OnlyHeader(m, v, b.addr + need) && OnlyHeader(v, u, b.addr + need) && OnlyHeader(u, w, b.addr)
    requires HEADER <= need && need + HEADER <= b.size
    ensures InBlock(m, w, b)
  {
    hide OnlyHeader, InBlock;
    HeaderInBlock(m, v, b.addr + need, b);
    HeaderInBlock(v, u, b.addr + need, b);
    HeaderInBlock(u, w, b.addr, b);
    InBlockTwice(m, v, u, b);
    InBlockTwice(m, u, w, b);
  }

  lemma TwoHeaders(m: seq<Byte>, seg: seq<Block>, blk: nat, hi: nat)
    requires |seg| >= 2 && Runs(m, seg, blk, hi) && hi + HEADER <= |m|
    ensures blk == seg[0].addr && blk + HEADER <= |m| && seg[1].addr + HEADER <= |m| && seg[0].size + seg[1].size < WORD
    ensures HeaderAt(m, blk).size == seg[0].size && HeaderAt(m, seg[1].addr).size == seg[1].size
    ensures HeaderAt(m, seg[1].addr).next < WORD
  {
    ChainHead(m, seg, 0);
    ChainRest(m, seg, 0);
    ChainHead(m, seg[1..], 0);
    TilesFrom(seg, blk, hi);
    assert seg[1] in seg;
    Inside(seg, blk, hi, 1);
    Bounds(m, seg[1].addr);
  }

  lemma JoinRuns(m: seq<Byte>, w: seq<Byte>, seg: seq<Block>, blk: nat, hi: nat)
    requires |seg| >= 2 && Runs(m, seg, blk, hi)
    requires Wrote(m, w, blk, HeaderAt(m, blk).(size := seg[0].size + seg[1].size,
                                                next := HeaderAt(m, seg[1].addr).next))
    ensures Runs(w, Join(seg), blk, hi) && OnlyHeader(m, w, blk)
  {
    hide HeaderAt, Chain;
    JoinStep(m, w, seg, hi);
  }

  lemma NextKept(m: seq<Byte>, v: seq<Byte>, seg: seq<Block>, blk: nat, hi: nat)
    requires |seg| >= 2 && Runs(m, seg, blk, hi) && OnlyHeader(m, v, blk)
    ensures HeaderAt(v, seg[1].addr) == HeaderAt(m, seg[1].addr)
  {
    assert seg[1].addr >= blk + HEADER;
    HeaderSame(m, v, seg[1].addr);
  }

  // ----- Walks that the list knows -----

  /** A back link that is null or leads to a block in use stops the backward loop at once, whatever else is in
  memory. */
  lemma AnchoredWalk(m: seq<Byte>, bs: seq<Block>, lo: nat, hi: nat, i: nat)
    requires Runs(m, bs, lo, hi) && LinksBack(bs) && i < |bs| && Allocator.Anchored(bs, bs[i].prev)
    ensures BackWalk(m, bs[i].addr, bs[i].prev, [])
  {
    hide HeaderAt, Runs, LinksBack;
    var p := bs[i].prev;
    LinkBelow(bs, i);
    if p != 0 { Reach(m, bs, lo, hi, Allocator.Holder(bs, p + HEADER).value); }
  }

  lemma LinkBelow(bs: seq<Block>, i: nat)
    requires LinksBack(bs) && i < |bs|
    ensures bs[i].prev == 0 || bs[i].prev + HEADER <= bs[i].addr
  {
    assert bs[i] in bs;
  }

  /** Where every link leads to a listed block, the backward loop does what it does on the list. */
  lemma {:induction false} ListedWalk(m: seq<Byte>, bs: seq<Block>, lo: nat, hi: nat, blk: nat, p: nat)
    returns (walk: seq<nat>)
    requires Runs(m, bs, lo, hi) && LinksBack(bs) && Allocator.Listed(bs, p) && (p == 0 || p + HEADER <= blk)
    ensures BackWalk(m, blk, p, walk) && BackAlong(m, p, walk) == Allocator.ListedBack(bs, p)
    decreases p
  {
    hide HeaderAt, Tiles, Chain;
    LeadsInMemory(m, bs, lo, hi, p);
    if p != 0 { Reach(m, bs, lo, hi, Allocator.Holder(bs, p + HEADER).value); }
    if Allocator.LeadsToFree(bs, p) {
      var b := Allocator.BlockAt(bs, p);
      var rest := ListedWalk(m, bs, lo, hi, blk, b.prev);
      walk := [p] + rest;
      assert walk[1..] == rest;
    } else {
      walk := [];
    }
  }

  /** In front of the chosen block or the one that moves, a block in use is as it was before the move. */
  lemma UsedBefore(bs: seq<Block>, lo: nat, hi: nat, i: nat, size: nat, p: nat) returns (r: nat)
    requires Tiles(bs, lo, hi) && i < |bs| && Allocator.Moves(bs, i, size) && p < bs[i].addr
    requires var c := Allocator.Filled(bs, i, size);
             var q := Allocator.Holder(c, p + HEADER);
             q.Some? && !c[q.value].free
    requires p != Allocator.Choice(Grow(bs, i, size + HEADER), size).addr
    ensures r < |bs| && bs[r].addr == p && !bs[r].free
    ensures var c := Allocator.Choice(Grow(bs, i, size + HEADER), size); p + HEADER <= c.addr || End(c) <= p
  {
    hide Tiles, Grow, Allocator.Malloc, Live, Fits, Allocator.Holds, Allocator.NoRoom, Allocator.Apart,
      Allocator.Choice;
    var g, c := Grow(bs, i, size + HEADER), Allocator.Filled(bs, i, size);
    GrowMeaning(bs, lo, hi, i, size + HEADER);
    Allocator.MallocOfNothing(g);
    var b := Allocator.MallocContract(g, lo, hi, size);
    var d := Allocator.MallocSize(g, lo, hi, size);
    var q := Allocator.Holder(c, p + HEADER).value;
    Allocator.InLive(c, q);
    NotTheNew(g, c, b, d, lo, hi, q);
    r := IndexOf(g, c[q]);
    if i < r { Ordered(g, lo, hi, i, r); }
    assert bs[r] == g[..i][r];
    ChoiceApart(g, lo, hi, r, size);
  }

  lemma NotTheNew(g: seq<Block>, c: seq<Block>, b: Block, d: Block, lo: nat, hi: nat, q: nat)
    requires Tiles(c, lo, hi) && q < |c| && b in Live(c) && d in c && b.addr == d.addr
    requires Live(c) == Live(g) + {b} && c[q] in Live(c) && c[q].addr != d.addr
    ensures c[q] in g && !c[q].free
  {}

  /** The header of a block in use is apart from the free block that malloc chooses. */
  lemma ChoiceApart(g: seq<Block>, lo: nat, hi: nat, r: nat, size: nat)
    requires Tiles(g, lo, hi) && r < |g| && !g[r].free && Allocator.Malloc(g, size).addr != 0
    ensures var c := Allocator.Choice(g, size); g[r].addr + HEADER <= c.addr || End(c) <= g[r].addr
  {
    var j := BestFit(g, size + HEADER).value;
    Allocator.BestIs(g, size + HEADER, j);
    if j < r { Ordered(g, lo, hi, j, r); } else { Ordered(g, lo, hi, r, j); }
  }

  /** So does the back link of a block that realloc moves, when it is null or leads to a block in use at the
  moment the block is freed. */
  lemma AnchoredMove(m: seq<Byte>, bs: seq<Block>, lo: nat, hi: nat, i: nat, size: nat)
    requires Runs(m, bs, lo, hi) && LinksBack(bs) && i < |bs| && Allocator.Moves(bs, i, size)
    requires Allocator.Anchored(Allocator.Filled(bs, i, size), bs[i].prev)
    ensures WalkAround(m, bs[i].addr, Allocator.Choice(Grow(bs, i, size + HEADER), size), bs[i].prev, [])
  {
    hide HeaderAt, Tiles, Runs, Grow, LinksBack, Allocator.Moves, Allocator.Choice, Allocator.Filled, Clear, End,
      Allocator.Anchored;
    LinkBelow(bs, i);
    var c, p := Allocator.Choice(Grow(bs, i, size + HEADER), size), bs[i].prev;
    if p != 0 && p != c.addr {
      RunsTiles(m, bs, lo, hi);
      AnchoredHolder(Allocator.Filled(bs, i, size), p);
      var r := UsedBefore(bs, lo, hi, i, size, p);
      StopsHere(m, bs, lo, hi, i, r, c);
    }
  }

  lemma AnchoredHolder(c: seq<Block>, p: nat)
    requires Allocator.Anchored(c, p) && p != 0
    ensures var q := Allocator.Holder(c, p + HEADER); q.Some? && !c[q.value].free
  {}

  lemma StopsHere(m: seq<Byte>, bs: seq<Block>, lo: nat, hi: nat, i: nat, r: nat, c: Block)
    requires Runs(m, bs, lo, hi) && i < |bs| && r < |bs| && !bs[r].free && bs[r].addr == bs[i].prev
    requires bs[r].addr + HEADER <= bs[i].addr && (bs[r].addr + HEADER <= c.addr || End(c) <= bs[r].addr)
    ensures bs[i].prev != c.addr ==> WalkAround(m, bs[i].addr, c, bs[i].prev, [])
  {
    hide HeaderAt, Runs;
    Reach(m, bs, lo, hi, r);
  }

  lemma RunsTiles(m: seq<Byte>, bs: seq<Block>, lo: nat, hi: nat)
    requires Runs(m, bs, lo, hi)
    ensures Tiles(bs, lo, hi) && 0 < lo && hi < WORD && hi < |m|
  {}

  // ----- malloc undone by free -----

  lemma {:induction false} WalkOutside(m: seq<Byte>, t: seq<Byte>, c: Block, p: nat, walk: seq<nat>)
    requires BackWalk(m, c.addr, p, walk) && WalkAround(m, c.addr, c, p, walk) && Around(m, t, c.addr, c)
    ensures BackWalk(t, c.addr, p, walk)
    decreases walk
  {
    hide HeaderAt;
    if p != 0 {
      HeaderSame(m, t, p);
      if walk != [] { WalkOutside(m, t, c, HeaderAt(m, p).prev, walk[1..]); }
    }
  }

  /** malloc and then free of the result. The list is as before exactly when the block behind the chosen one is
  in use and the sizes along its stored back link add nothing; and the heap stays tiled exactly when they add
  nothing. With no free header at the end of the link, that is the case. */
  method MallocThenFree(h: Heap, size: nat, ghost j: nat, ghost walk: seq<nat>)
    requires h.Valid() && 0 < size && HEADER + size < WORD
    requires j < |h.blocks| && BestFit(h.blocks, size + HEADER) == Some(j)
    requires BackWalk(h.ram[..], h.blocks[j].addr, h.blocks[j].prev, walk)
    requires WalkAround(h.ram[..], h.blocks[j].addr, h.blocks[j], h.blocks[j].prev, walk)
    modifies h.ram, h`blocks
    ensures h.blocks == old(h.blocks) <==>
            (&& !(j + 1 < |old(h.blocks)| && old(h.blocks)[j + 1].free)
             && WalkSize(old(h.ram[..]), walk) % WORD == 0
             && WalkEnd(old(h.ram[..]), old(h.blocks)[j].prev, walk) == old(h.blocks)[j].prev)
    ensures h.Valid() <==> WalkSize(old(h.ram[..]), walk) % WORD == 0
  {
    hide Runs, HeaderAt, Touched, Heads, BackWalk, WalkAround, WalkSize, WalkEnd, Claim, FreedWith, BestFit, Fits,
      InBlock;
    ghost var m, bs := h.ram[..], h.blocks;
    ghost var need, c := size + HEADER, bs[j];
    var p := h.Malloc(size);
    ghost var t := h.ram[..];
    Handed(m, t, bs, h.heapStart, h.heapEnd, j, need, walk);
    h.Free(p, walk);
    ClaimFreed(bs, h.heapStart, h.heapEnd, j, need, WalkSize(m, walk), WalkEnd(m, c.prev, walk));
  }

  lemma ClaimFreed(bs: seq<Block>, lo: nat, hi: nat, j: nat, need: nat, total: nat, end: nat)
    requires Tiles(bs, lo, hi) && hi < WORD && need >= HEADER && Fits(bs, need, j) && j < |Claim(bs, j, need)|
    ensures FreedWith(Claim(bs, j, need), j, total, end) == bs <==>
            !(j + 1 < |bs| && bs[j + 1].free) && total % WORD == 0 && end == bs[j].prev
  {
    Inside(bs, lo, hi, j);
    hide Tiles, Claim, FreedWith;
    Allocator.ClaimFreed(bs, j, need, total, end);
  }

  /** What free finds of the block that malloc has just handed out. */
  lemma Handed(m: seq<Byte>, t: seq<Byte>, bs: seq<Block>, lo: nat, hi: nat, j: nat, need: nat, walk: seq<nat>)
    requires Runs(m, bs, lo, hi) && j < |bs| && BestFit(bs, need) == Some(j) && need >= HEADER
    requires BackWalk(m, bs[j].addr, bs[j].prev, walk) && WalkAround(m, bs[j].addr, bs[j], bs[j].prev, walk)
    requires InBlock(m, t, bs[j])
    ensures var c := Claim(bs, j, need);
            && j < |c| && !c[j].free && c[j].prev == bs[j].prev && Fits(bs, need, j) && Tiles(bs, lo, hi) && hi < WORD
            && Allocator.Holder(c, bs[j].addr + HEADER) == Some(j) && bs[j].addr + HEADER <= |m| && bs[j].addr > 0
    ensures BackWalk(t, bs[j].addr, bs[j].prev, walk) && WalkSize(t, walk) == WalkSize(m, walk)
    ensures WalkEnd(t, bs[j].prev, walk) == WalkEnd(m, bs[j].prev, walk)
  {
    hide HeaderAt, Chain, Tiles, BackWalk, WalkAround, WalkSize, WalkEnd, Claim, Fits, BestFit;
    Allocator.BestIs(bs, need, j);
    ClaimMeaning(bs, lo, hi, j, need);
    Allocator.HolderIs(Claim(bs, j, need), lo, hi, j);
    Reach(m, bs, lo, hi, j);
    assert Around(m, t, bs[j].addr, bs[j]);
    WalkAroundStays(m, t, bs[j].addr, bs[j], bs[j].prev, walk);
    WalkOutside(m, t, bs[j], bs[j].prev, walk);
  }

  // ----- What a client sees of realloc -----

  /** The first n payload bytes of a block at a are now those of a block at b. */
  ghost predicate SamePrefix(m: seq<Byte>, w: seq<Byte>, a: nat, b: nat, n: int) {
    |m| == |w| && forall x :: b <= x < b + n && x < |w| && x - b + a < |m| ==> w[x] == m[x - b + a]
  }

  /** The block `was` became b: its payload starts with the old one, up to the smaller size; in place of
  null it is untouched. */
  ghost predicate PayloadOf(m: seq<Byte>, w: seq<Byte>, was: Block, b: Block, p: nat) {
    if p == 0 then b.addr == was.addr && SameOn(m, w, was.addr + HEADER, End(was))
    else
      && b.addr == p
      && SamePrefix(m, w, was.addr + HEADER, p + HEADER, (if was.size < b.size then was.size else b.size) - HEADER)
  }

  /** realloc of a block in use: wherever the result lies, its payload starts with the old one, up to the
  smaller of the two sizes; on null the old payload is untouched; and in every case so is the payload of
  every other block in use. */
  lemma ReallocPayload(m: seq<Byte>, w: seq<Byte>, bs: seq<Block>, f: seq<Block>, lo: nat, hi: nat, i: nat, size: nat,
                       back: Allocator.Back, p: nat)
    returns (b: Block)
    requires Tiles(bs, lo, hi) && 0 < lo && hi < WORD && i < |bs| && !bs[i].free && size > 0
    requires Allocator.Outcome(f, Data(p)) == Allocator.Resize(bs, i, size, back) && ResizeDone(m, w, bs, f, i, p)
    ensures b in Live(f) && PayloadOf(m, w, bs[i], b, p) && OthersKept(m, w, bs, i)
  {
    hide Tiles, Allocator.Resize, Touched, Heads, Copied, OthersKept, PayloadOf, HeaderAt, Live, Allocator.Apart,
      Allocator.Moves;
    b := Allocator.ResizeContract(bs, lo, hi, i, size, back);
    LiveMembers(f, b);
    BlockSizes(bs, lo, hi, i);
    if p == 0 || p == bs[i].addr {
      if Allocator.Moves(bs, i, size) { Allocator.MovesElsewhere(bs, lo, hi, i, size, back); }
      OthersInPlace(m, w, bs, f, lo, hi, i, b);
      InPlacePayload(m, w, bs[i], f, lo, hi, b, p);
    } else {
      MovedPrefix(m, w, bs[i], b);
    }
  }

  lemma InPlacePayload(m: seq<Byte>, w: seq<Byte>, was: Block, f: seq<Block>, lo: nat, hi: nat, b: Block, p: nat)
    requires Tiles(f, lo, hi) && b in f && Touched(m, w, Heads(f)) && b.addr == was.addr
    requires (p == 0 && b.size >= was.size) || (p == was.addr && p != 0)
    ensures PayloadOf(m, w, was, b, p)
  {
    PayloadKept(m, w, f, lo, hi, b);
    hide Tiles, Heads;
  }

  lemma BlockSizes(bs: seq<Block>, lo: nat, hi: nat, i: nat)
    requires Tiles(bs, lo, hi) && i < |bs| && lo > 0
    ensures bs[i].size >= HEADER && bs[i].addr != 0
  {
    Inside(bs, lo, hi, i);
  }

  lemma OthersInPlace(m: seq<Byte>, w: seq<Byte>, bs: seq<Block>, f: seq<Block>, lo: nat, hi: nat, i: nat, b: Block)
    requires i < |bs| && Tiles(f, lo, hi) && Touched(m, w, Heads(f)) && Live(f) == Live(bs) - {bs[i]} + {b}
    ensures OthersKept(m, w, bs, i)
  {
    hide Tiles, Touched, Heads;
    forall c | c in Live(bs) && c != bs[i] ensures SameOn(m, w, c.addr + HEADER, End(c)) {
      assert c in Live(f);
      LiveMembers(f, c);
      PayloadKept(m, w, f, lo, hi, c);
    }
  }

  lemma MovedPrefix(m: seq<Byte>, w: seq<Byte>, was: Block, b: Block)
    requires Copied(m, w, was.addr + HEADER, b.addr + HEADER, was.size) && b.addr != 0
    ensures PayloadOf(m, w, was, b, b.addr)
  {}
}
