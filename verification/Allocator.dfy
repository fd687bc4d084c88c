/** malloc, free and realloc of lib/stdlib/heap.c as functions on the list of blocks.

Addresses are those of payloads, a header above the block. What the backward loop of free finds along the stored
back link depends on header bytes in memory, also on stale ones of blocks that are no longer listed, so it is
an argument here; Heap says what it is. Where every link leads to a listed block the list alone tells it.
*/
module Allocator {
  import opened Options
  import opened Bytes
  import opened Blocks

  datatype Outcome = Outcome(blocks: seq<Block>, addr: nat)

  /** The block whose payload is at `a`, if there is one. */
  function Holder(bs: seq<Block>, a: nat): (r: Option<nat>)
    ensures match r
            case Some(i) => i < |bs| && bs[i].addr + HEADER == a
            case None => forall b :: b in bs ==> b.addr + HEADER != a
  {
    if bs == [] then None
    else if bs[0].addr + HEADER == a then Some(0)
    else
      match Holder(bs[1..], a)
      case Some(i) => Some(i + 1)
      case None => None
  }

  /** A heap that was never used. */
  function Blank(lo: nat, hi: nat): seq<Block>
    requires lo <= hi
  {
    [Block(lo, hi - lo, true, 0)]
  }

  /** The free block that malloc takes or cuts, if there is one. */
  function Choice(bs: seq<Block>, size: nat): Block {
    match BestFit(bs, size + HEADER)
    case Some(j) => if j < |bs| then bs[j] else Block(0, 0, false, 0)
    case None => Block(0, 0, false, 0)
  }

  function Malloc(bs: seq<Block>, size: nat): Outcome {
    if size == 0 then Outcome(bs, 0)
    else
      match BestFit(bs, size + HEADER)
      case Some(j) => if j < |bs| then Outcome(Claim(bs, j, size + HEADER), bs[j].addr + HEADER) else Outcome(bs, 0)
      case None => Outcome(bs, 0)
  }

  /** What the backward loop of defrag_blocks found: the sizes that it added, and the link at which it stopped. */
  datatype Back = Back(total: nat, end: nat)

  function Free(bs: seq<Block>, a: nat, back: Back): seq<Block> {
    match Holder(bs, a)
    case Some(i) => if bs[i].free then bs else FreedWith(bs, i, back.total, back.end)
    case None => bs
  }

  /** The address is the payload of a block in use. */
  predicate InUse(bs: seq<Block>, a: nat) {
    var h := Holder(bs, a);
    h.Some? && !bs[h.value].free
  }

  /** The part of realloc that looks for another block, once block i has taken in what it could. */
  function Move(grown: seq<Block>, a: nat, size: nat, back: Back): Outcome {
    var o := Malloc(grown, size);
    if o.addr == 0 then o else Outcome(Free(o.blocks, a, back), o.addr)
  }

  /** expand_block of a block in use. */
  function Expand(bs: seq<Block>, i: nat, size: nat, back: Back): Outcome
    requires i < |bs|
  {
    var a, need, grown := bs[i].addr + HEADER, size + HEADER, Grow(bs, i, size + HEADER);
    if i < |grown| && grown[i].size >= need then Outcome(Shrink(grown, i, need), a) else Move(grown, a, size, back)
  }

  /** realloc of the block at index i; a free block is returned as it is. */
  function Resize(bs: seq<Block>, i: nat, size: nat, back: Back): Outcome
    requires i < |bs|
  {
    if bs[i].free then Outcome(bs, bs[i].addr + HEADER)
    else if bs[i].size > size + HEADER then Outcome(Shrink(bs, i, size + HEADER), bs[i].addr + HEADER)
    else Expand(bs, i, size, back)
  }

  /** realloc has to move the block: it stays too small and another one fits. */
  predicate Moves(bs: seq<Block>, i: nat, size: nat)
    requires i < |bs|
  {
    var grown := Grow(bs, i, size + HEADER);
    && !bs[i].free && bs[i].size <= size + HEADER && i < |grown| && grown[i].size < size + HEADER
    && Malloc(grown, size).addr != 0
  }

  /** The list of blocks when a realloc that moves block i frees the old block. */
  function Filled(bs: seq<Block>, i: nat, size: nat): seq<Block>
    requires i < |bs|
  {
    Malloc(Grow(bs, i, size + HEADER), size).blocks
  }

  /** The block that malloc would hand out has room for `count` bytes. */
  predicate RoomFor(bs: seq<Block>, size: nat, count: nat) {
    forall b :: b in Malloc(bs, size).blocks && b.addr + HEADER == Malloc(bs, size).addr ==> HEADER + count <= b.size
  }

  /** The moving copy, which takes the old block's size with its header, stays inside the new block. */
  predicate CopyFits(bs: seq<Block>, i: nat, size: nat)
    requires i < |bs|
  {
    RoomFor(Grow(bs, i, size + HEADER), size, bs[i].size)
  }

  function Realloc(bs: seq<Block>, a: nat, size: nat, back: Back): Outcome {
    if a == 0 then Malloc(bs, size)
    else if size == 0 then Outcome(Free(bs, a, back), 0)
    else
      match Holder(bs, a)
      case Some(i) => Resize(bs, i, size, back)
      case None => Outcome(bs, 0)
  }

  // ----- Contracts -----

  /** No free block holds `size` bytes and a header. */
  predicate NoRoom(bs: seq<Block>, size: nat) { forall b :: b in bs && b.free ==> b.size < HEADER + size }

  /** Apart in memory. */
  predicate Apart(b: Block, c: Block) { End(b) <= c.addr || End(c) <= b.addr }

  /** The block b holds `size` bytes behind its header and wastes less than another header. */
  predicate Holds(b: Block, size: nat) { !b.free && HEADER + size <= b.size < HEADER + size + HEADER }

  lemma LiveApart(bs: seq<Block>, lo: nat, hi: nat, b: Block, c: Block)
    requires Tiles(bs, lo, hi) && b in bs && c in bs && b != c
    ensures Apart(b, c) && lo <= b.addr && End(b) <= hi
  {
    var i :| 0 <= i < |bs| && bs[i] == b;
    var k :| 0 <= k < |bs| && bs[k] == c;
    Inside(bs, lo, hi, i);
    if i < k { Ordered(bs, lo, hi, i, k); } else { Ordered(bs, lo, hi, k, i); }
  }

  lemma HolderIs(bs: seq<Block>, lo: nat, hi: nat, i: nat)
    requires Tiles(bs, lo, hi) && i < |bs|
    ensures Holder(bs, bs[i].addr + HEADER) == Some(i)
  {
    assert bs[i] in bs;
    var h := Holder(bs, bs[i].addr + HEADER);
    if h.Some? { Distinct(bs, lo, hi, i, h.value); }
  }

  /** NULL exactly when no free block holds the request and a header; otherwise one new block in use,
  inside the heap and apart from every block in use, none of which moved. */
  lemma MallocContract(bs: seq<Block>, lo: nat, hi: nat, size: nat) returns (b: Block)
    requires Tiles(bs, lo, hi) && size > 0
    ensures Tiles(Malloc(bs, size).blocks, lo, hi)
    ensures Malloc(bs, size).addr == 0 <==> NoRoom(bs, size)
    ensures Malloc(bs, size).addr == 0 ==> Malloc(bs, size).blocks == bs
    ensures Malloc(bs, size).addr != 0 ==>
      && b.addr + HEADER == Malloc(bs, size).addr && Holds(b, size)
      && Live(Malloc(bs, size).blocks) == Live(bs) + {b}
      && (forall c :: c in Live(bs) ==> Apart(b, c) && b.addr != c.addr) && lo <= b.addr && End(b) <= hi
  {
    BestFitMeaning(bs, size + HEADER);
    var best := BestFit(bs, size + HEADER);
    b := bs[0];
    if best.None? { NoRoomFrom(bs, size); }
    hide IsBest;
    if best.Some? {
      b := Claim(bs, best.value, size + HEADER)[best.value];
      NewBlock(bs, lo, hi, best.value, size);
    }
  }

  lemma NoRoomFrom(bs: seq<Block>, size: nat)
    requires IsBest(bs, size + HEADER, |bs|, None)
    ensures NoRoom(bs, size)
  {
    forall b | b in bs && b.free ensures b.size < HEADER + size {
      var k :| 0 <= k < |bs| && bs[k] == b;
      assert !Fits(bs, size + HEADER, k);
    }
  }

  lemma NewBlock(bs: seq<Block>, lo: nat, hi: nat, j: nat, size: nat)
    requires Tiles(bs, lo, hi) && size > 0 && Fits(bs, size + HEADER, j)
    ensures j < |Claim(bs, j, size + HEADER)| && Tiles(Claim(bs, j, size + HEADER), lo, hi)
    ensures var b := Claim(bs, j, size + HEADER)[j];
            && b.addr == bs[j].addr && Holds(b, size)
            && Live(Claim(bs, j, size + HEADER)) == Live(bs) + {b}
            && (forall c :: c in Live(bs) ==> Apart(b, c) && b.addr != c.addr) && lo <= b.addr && End(b) <= hi
  {
    var r := Claim(bs, j, size + HEADER);
    ClaimMeaning(bs, lo, hi, j, size + HEADER);
    hide Claim;
    Inside(r, lo, hi, j);
    assert Live(r) == Live(bs) + {r[j]};
    forall c | c in Live(bs) ensures Apart(r[j], c) && r[j].addr != c.addr {
      var k :| 0 <= k < |bs| && bs[k] == c;
      if c.addr == bs[j].addr { Distinct(bs, lo, hi, j, k); }
      assert c in Live(r);
      LiveApart(r, lo, hi, r[j], c);
    }
  }

  function Without(live: set<Block>, a: nat): set<Block> { set b | b in live && b.addr + HEADER != a }

  /** free takes exactly the named block out of use; any address that is not a block in use is ignored. The
  blocks still tile the heap exactly when the backward loop added nothing. */
  lemma FreeContract(bs: seq<Block>, lo: nat, hi: nat, a: nat, back: Back)
    requires Tiles(bs, lo, hi) && hi < WORD
    ensures Live(Free(bs, a, back)) == Without(Live(bs), a)
    ensures Tiles(Free(bs, a, back), lo, hi) <==> (InUse(bs, a) ==> back.total % WORD == 0)
  {
    hide Tiles, Live, FreedWith;
    match Holder(bs, a)
    case None =>
      assert forall b :: b in Live(bs) ==> b.addr + HEADER != a by { LiveAre(bs); }
    case Some(i) =>
      if bs[i].free {
        NotLive(bs, lo, hi, i);
      } else {
        FreedMeaning(bs, lo, hi, i, back.total, back.end);
        OthersThan(bs, lo, hi, i);
      }
  }

  /** free leaves two free neighbours exactly when the block in front of the freed one is free. */
  lemma FreeLeavesNoPair(bs: seq<Block>, a: nat, back: Back)
    requires NoFreePair(bs)
    ensures NoFreePair(Free(bs, a, back)) <==>
            (var h := Holder(bs, a); h.Some? && h.value > 0 && !bs[h.value].free ==> !bs[h.value - 1].free)
  {
    hide NoFreePair, FreedWith;
    var h := Holder(bs, a);
    if h.Some? { FreedLeavesNoPair(bs, h.value, back.total, back.end); }
  }

  lemma LiveAre(bs: seq<Block>)
    ensures forall b :: b in Live(bs) ==> b in bs && !b.free
  {}

  lemma NotLive(bs: seq<Block>, lo: nat, hi: nat, i: nat)
    requires Tiles(bs, lo, hi) && i < |bs| && bs[i].free
    ensures forall b :: b in Live(bs) ==> b.addr != bs[i].addr
  {
    forall b | b in Live(bs) ensures b.addr != bs[i].addr {
      var k :| 0 <= k < |bs| && bs[k] == b;
      assert k != i;
      if b.addr == bs[i].addr { Distinct(bs, lo, hi, i, k); }
    }
  }

  lemma RetiledMeans(bs: seq<Block>, r: seq<Block>, lo: nat, hi: nat, i: nat)
    requires Retiled(bs, r, lo, hi, i)
    ensures Tiles(r, lo, hi) && i < |bs| && i < |r| && r[i].addr == bs[i].addr
    ensures Live(r) == Live(bs) - {bs[i]} + (if r[i].free then {} else {r[i]})
  {}

  lemma OthersThan(bs: seq<Block>, lo: nat, hi: nat, i: nat)
    requires Tiles(bs, lo, hi) && i < |bs|
    ensures Live(bs) - {bs[i]} == set b | b in Live(bs) && b.addr != bs[i].addr
  {
    forall b | b in Live(bs) && b.addr == bs[i].addr ensures b == bs[i] {
      var k :| 0 <= k < |bs| && bs[k] == b;
      Distinct(bs, lo, hi, i, k);
    }
  }

  /** How realloc of a block in use may end: with the block in place and trimmed to the new size, with
  another block apart from all others in use, or with NULL and the block still in use, no smaller. */
  ghost predicate Resized(bs: seq<Block>, was: Block, size: nat, o: Outcome, b: Block) {
    && Live(o.blocks) == Live(bs) - {was} + {b}
    && (o.addr == 0 ==> b.addr == was.addr && b.size >= was.size && !b.free && b.size < HEADER + size)
    && (o.addr != 0 ==> b.addr + HEADER == o.addr && Holds(b, size))
    && (forall c :: c in Live(bs) - {was} ==> Apart(b, c) && b.addr != c.addr)
  }

  lemma ShrinkResizes(bs: seq<Block>, lo: nat, hi: nat, i: nat, size: nat, r: seq<Block>)
    requires Tiles(bs, lo, hi) && i < |bs| && !bs[i].free && HEADER + size <= bs[i].size
    requires r == Shrink(bs, i, size + HEADER)
    ensures Tiles(r, lo, hi) && i < |r| && Resized(bs, bs[i], size, Outcome(r, bs[i].addr + HEADER), r[i])
  {
    hide Tiles, Live, Shrink, Retiled;
    ShrinkMeaning(bs, lo, hi, i, size + HEADER);
    RetiledMeans(bs, r, lo, hi, i);
    Replaced(bs, r, lo, hi, i);
  }

  /** A block that replaces block i in the same place is apart from all others in use. */
  lemma Replaced(bs: seq<Block>, r: seq<Block>, lo: nat, hi: nat, i: nat)
    requires Tiles(bs, lo, hi) && Retiled(bs, r, lo, hi, i)
    requires !r[i].free
    ensures forall c :: c in Live(bs) - {bs[i]} ==> Apart(r[i], c) && r[i].addr != c.addr
  {
    forall c | c in Live(bs) - {bs[i]} ensures Apart(r[i], c) && r[i].addr != c.addr {
      OthersThan(bs, lo, hi, i);
      assert c in Live(r);
      LiveApart(r, lo, hi, r[i], c);
    }
  }

  /** expand_block where it does not move: the block grows over free space, then is trimmed. */
  lemma GrowResizes(bs: seq<Block>, lo: nat, hi: nat, i: nat, size: nat, g: seq<Block>)
    requires Tiles(bs, lo, hi) && i < |bs| && !bs[i].free
    requires g == Grow(bs, i, size + HEADER)
    ensures Tiles(g, lo, hi) && i < |g| && !g[i].free && g[i].addr == bs[i].addr && g[i].size >= bs[i].size
    ensures Live(g) == Live(bs) - {bs[i]} + {g[i]}
    ensures forall c :: c in Live(bs) - {bs[i]} ==> Apart(g[i], c) && g[i].addr != c.addr
    ensures Live(g) - {g[i]} == Live(bs) - {bs[i]}
  {
    hide Tiles, Live, Grow, Retiled;
    GrowMeaning(bs, lo, hi, i, size + HEADER);
    RetiledMeans(bs, g, lo, hi, i);
    Replaced(bs, g, lo, hi, i);
  }

  lemma MallocOfNothing(bs: seq<Block>)
    ensures Malloc(bs, 0) == Outcome(bs, 0)
  {}

  /** The end of a realloc that grew the block to g[i] in vain: the block moves, or nothing else fits. */
  lemma MoveResizes(bs: seq<Block>, lo: nat, hi: nat, i: nat, size: nat, g: seq<Block>, back: Back) returns (b: Block)
    requires Tiles(g, lo, hi) && hi < WORD && i < |bs| && i < |g| && size > 0
    requires !g[i].free && g[i].addr == bs[i].addr && bs[i].size <= g[i].size < HEADER + size
    requires Live(g) == Live(bs) - {bs[i]} + {g[i]} && Live(g) - {g[i]} == Live(bs) - {bs[i]}
    requires forall c :: c in Live(bs) - {bs[i]} ==> Apart(g[i], c) && g[i].addr != c.addr
    ensures Resized(bs, bs[i], size, Move(g, bs[i].addr + HEADER, size, back), b)
    ensures Move(g, bs[i].addr + HEADER, size, back).addr == Malloc(g, size).addr
    ensures Tiles(Move(g, bs[i].addr + HEADER, size, back).blocks, lo, hi) <==>
            (Malloc(g, size).addr != 0 ==> back.total % WORD == 0)
  {
    hide Tiles, Live, Malloc, Free, NoRoom, InUse;
    var a := bs[i].addr + HEADER;
    var o := Malloc(g, size);
    b := MallocContract(g, lo, hi, size);
    if o.addr == 0 {
      b := g[i];
    } else {
      FreeContract(o.blocks, lo, hi, a, back);
      InLive(g, i);
      MovedLive(bs, g, i, o.blocks, b);
      LiveInUse(o.blocks, lo, hi, g[i]);
    }
  }

  lemma LiveInUse(bs: seq<Block>, lo: nat, hi: nat, b: Block)
    requires Tiles(bs, lo, hi) && b in Live(bs)
    ensures InUse(bs, b.addr + HEADER)
  {
    var i :| 0 <= i < |bs| && bs[i] == b;
    HolderIs(bs, lo, hi, i);
  }

  lemma MovedLive(bs: seq<Block>, g: seq<Block>, i: nat, m: seq<Block>, b: Block)
    requires i < |bs| && i < |g| && g[i].addr == bs[i].addr
    requires Live(g) == Live(bs) - {bs[i]} + {g[i]} && Live(m) == Live(g) + {b}
    requires forall c :: c in Live(bs) - {bs[i]} ==> g[i].addr != c.addr
    requires b.addr != g[i].addr
    ensures Without(Live(m), bs[i].addr + HEADER) == Live(bs) - {bs[i]} + {b}
  {
    hide Live;
  }

  /** realloc of a block in use with a size above zero. The blocks still tile the heap exactly when it does
  not move the block or the backward loop added nothing. */
  lemma ResizeContract(bs: seq<Block>, lo: nat, hi: nat, i: nat, size: nat, back: Back) returns (b: Block)
    requires Tiles(bs, lo, hi) && hi < WORD && i < |bs| && !bs[i].free && size > 0
    ensures Resized(bs, bs[i], size, Resize(bs, i, size, back), b)
    ensures Tiles(Resize(bs, i, size, back).blocks, lo, hi) <==> (Moves(bs, i, size) ==> back.total % WORD == 0)
  {
    hide Tiles, Grow, Shrink, Move, Malloc, Live;
    var need := size + HEADER;
    if bs[i].size > need {
      ShrinkResizes(bs, lo, hi, i, size, Shrink(bs, i, need));
      b := Shrink(bs, i, need)[i];
    } else {
      var g := Grow(bs, i, need);
      GrowResizes(bs, lo, hi, i, size, g);
      if g[i].size >= need {
        ShrinkResizes(g, lo, hi, i, size, Shrink(g, i, need));
        b := Shrink(g, i, need)[i];
      } else {
        b := MoveResizes(bs, lo, hi, i, size, g, back);
      }
    }
  }

  /** A realloc that moves a block returns another address. */
  lemma MovesElsewhere(bs: seq<Block>, lo: nat, hi: nat, i: nat, size: nat, back: Back)
    requires Tiles(bs, lo, hi) && i < |bs| && Moves(bs, i, size)
    ensures Resize(bs, i, size, back).addr != 0 && Resize(bs, i, size, back).addr != bs[i].addr + HEADER
  {
    hide Tiles, Grow, Malloc, Shrink, Live, NoRoom;
    var g := Grow(bs, i, size + HEADER);
    GrowResizes(bs, lo, hi, i, size, g);
    MallocOfNothing(g);
    var b := MallocContract(g, lo, hi, size);
    InLive(g, i);
  }

  lemma InLive(bs: seq<Block>, i: nat)
    requires i < |bs| && !bs[i].free
    ensures bs[i] in Live(bs)
  {}

  lemma OneAt(bs: seq<Block>, lo: nat, hi: nat, b: Block, c: Block)
    requires Tiles(bs, lo, hi) && b in bs && c in bs && b.addr == c.addr
    ensures b == c
  {
    var i :| 0 <= i < |bs| && bs[i] == b;
    var k :| 0 <= k < |bs| && bs[k] == c;
    Distinct(bs, lo, hi, i, k);
  }

  /** The new block is the chosen one, cut to size when another header fits behind it. */
  lemma ClaimSize(bs: seq<Block>, j: nat, need: nat)
    requires j < |bs| && Fits(bs, need, j)
    ensures j < |Claim(bs, j, need)| && Claim(bs, j, need)[j].addr == bs[j].addr
    ensures Claim(bs, j, need)[j].size == if bs[j].size < need + HEADER then bs[j].size else need
  {
    hide Merge;
  }

  lemma MallocSize(bs: seq<Block>, lo: nat, hi: nat, size: nat) returns (b: Block)
    requires Tiles(bs, lo, hi) && Malloc(bs, size).addr != 0
    ensures Tiles(Malloc(bs, size).blocks, lo, hi)
    ensures b in Malloc(bs, size).blocks && b.addr + HEADER == Malloc(bs, size).addr
    ensures size + HEADER <= b.size <= Choice(bs, size).size && b.addr == Choice(bs, size).addr
    ensures b.size == if Choice(bs, size).size < size + 2 * HEADER then Choice(bs, size).size else size + HEADER
  {
    hide Tiles, Claim, Fits;
    var j := BestFit(bs, size + HEADER).value;
    BestIs(bs, size + HEADER, j);
    ClaimSize(bs, j, size + HEADER);
    ClaimMeaning(bs, lo, hi, j, size + HEADER);
    b := Claim(bs, j, size + HEADER)[j];
  }

  // ----- When realloc fails -----

  /** The free space directly behind a block. */
  function FreeRun(seg: seq<Block>): nat {
    if seg != [] && seg[0].free then seg[0].size + FreeRun(seg[1..]) else 0
  }

  lemma {:induction false} AbsorbReach(seg: seq<Block>, need: nat)
    requires seg != [] && need >= HEADER
    ensures Absorb(seg, need) != []
    ensures Absorb(seg, need)[0].size < need <==> seg[0].size + FreeRun(seg[1..]) < need
    ensures Absorb(seg, need)[0].size < need ==>
            (NoRoom(Absorb(seg, need)[1..], need - HEADER) <==> NoRoom(seg[1..], need - HEADER))
    decreases |seg|
  {
    if |seg| >= 2 && seg[1].free && need > seg[0].size {
      assert Join(seg)[1..] == seg[1..][1..];
      assert seg[1..] == [seg[1]] + seg[1..][1..];
      AbsorbReach(Join(seg), need);
    }
  }

  lemma NoRoomInTail(bs: seq<Block>, i: nat, seg: seq<Block>, size: nat)
    requires i < |bs| && seg != [] && !seg[0].free && !bs[i].free
    requires NoRoom(seg[1..], size) <==> NoRoom(bs[i + 1..], size)
    ensures NoRoom(bs[..i] + seg, size) <==> NoRoom(bs, size)
  {
    assert bs == bs[..i] + [bs[i]] + bs[i + 1..];
    assert bs[..i] + seg == bs[..i] + [seg[0]] + seg[1..];
    NoRoomSplit(bs[..i], bs[i], bs[i + 1..], size);
    NoRoomSplit(bs[..i], seg[0], seg[1..], size);
  }

  lemma NoRoomSplit(a: seq<Block>, b: Block, c: seq<Block>, size: nat)
    requires !b.free
    ensures NoRoom(a + [b] + c, size) <==> NoRoom(a, size) && NoRoom(c, size)
  {
    var all := a + [b] + c;
    assert forall x :: x in all <==> x in a || x == b || x in c;
  }

  /** realloc of a block in use to a size above zero returns NULL exactly when the block with the free
  space behind it is too small and no free block holds the new size either. */
  lemma ReallocFails(bs: seq<Block>, lo: nat, hi: nat, i: nat, size: nat, back: Back)
    requires Tiles(bs, lo, hi) && i < |bs| && !bs[i].free && size > 0
    ensures Resize(bs, i, size, back).addr == 0 <==>
            bs[i].size + FreeRun(bs[i + 1..]) < HEADER + size && NoRoom(bs, size)
  {
    hide Tiles, Shrink, Malloc, NoRoom, Absorb, FreeRun;
    var need := size + HEADER;
    if bs[i].size <= need {
      var g := Grow(bs, i, need);
      GrowResizes(bs, lo, hi, i, size, g);
      assert bs[i..][1..] == bs[i + 1..];
      AbsorbReach(bs[i..], need);
      assert g[i] == Absorb(bs[i..], need)[0];
      if g[i].size < need {
        NoRoomInTail(bs, i, Absorb(bs[i..], need), size);
        var _ := MallocContract(g, lo, hi, size);
      }
    }
  }

  /** It returns the old address exactly when the block with the free space behind it is large enough. */
  lemma ReallocStays(bs: seq<Block>, lo: nat, hi: nat, i: nat, size: nat, back: Back)
    requires Tiles(bs, lo, hi) && i < |bs| && !bs[i].free && size > 0
    ensures Resize(bs, i, size, back).addr == bs[i].addr + HEADER <==>
            bs[i].size + FreeRun(bs[i + 1..]) >= HEADER + size
  {
    hide Tiles, Shrink, Malloc, NoRoom, Absorb, FreeRun, Live;
    var need := size + HEADER;
    if bs[i].size <= need {
      var g := Grow(bs, i, need);
      GrowResizes(bs, lo, hi, i, size, g);
      assert bs[i..][1..] == bs[i + 1..];
      AbsorbReach(bs[i..], need);
      assert g[i] == Absorb(bs[i..], need)[0];
      if g[i].size < need {
        var _ := MallocContract(g, lo, hi, size);
        InLive(g, i);
      }
    }
  }

  /** The address is the payload of the lowest of the smallest free blocks that hold `size` bytes. */
  ghost predicate BestAt(bs: seq<Block>, size: nat, a: nat) {
    exists j: nat :: IsBest(bs, HEADER + size, |bs|, Some(j)) && a == bs[j].addr + HEADER
  }

  /** malloc hands out the best fit. */
  lemma MallocIsBest(bs: seq<Block>, size: nat)
    requires size > 0 && Malloc(bs, size).addr != 0
    ensures BestAt(bs, size, Malloc(bs, size).addr)
  {
    hide IsBest, BestFit;
    BestFitMeaning(bs, size + HEADER);
    if BestFit(bs, size + HEADER).Some? { assert IsBest(bs, HEADER + size, |bs|, BestFit(bs, size + HEADER)); }
  }

  lemma {:induction false} PartOfTotal(bs: seq<Block>, k: nat)
    requires k < |bs|
    ensures bs[k].size <= TotalSize(bs)
    decreases |bs|
  {
    if k > 0 { PartOfTotal(bs[1..], k - 1); }
  }

  /** g is bs without k blocks behind block i, which itself may differ. */
  ghost predicate Dropped(bs: seq<Block>, g: seq<Block>, i: nat, k: nat) {
    && i + k < |bs| && |g| == |bs| - k
    && (forall x: nat :: x < i ==> g[x] == bs[x])
    && (forall x: nat :: i + k < x < |bs| ==> bs[x] == g[x - k])
  }

  lemma GrownPlaces(bs: seq<Block>, i: nat, k: nat, g: seq<Block>)
    requires i + k < |bs| && g == bs[..i] + InOne(bs[i..], k)
    ensures Dropped(bs, g, i, k) && g[i].size == TotalSize(bs[i..][..k + 1])
  {}

  lemma TakenInSmall(bs: seq<Block>, i: nat, k: nat, need: nat, x: nat)
    requires i + k < |bs| && TotalSize(bs[i..][..k + 1]) < need && i <= x <= i + k
    ensures !Fits(bs, need, x)
  {
    PartOfTotal(bs[i..][..k + 1], x - i);
  }

  /** The best fit is the same without blocks that are too small. */
  lemma StillBest(bs: seq<Block>, g: seq<Block>, need: nat, i: nat, k: nat, j: nat)
    requires Dropped(bs, g, i, k) && IsBest(g, need, |g|, Some(j)) && g[i].size < need
    requires forall x: nat :: i <= x <= i + k ==> !Fits(bs, need, x)
    ensures exists n: nat :: IsBest(bs, need, |bs|, Some(n)) && bs[n] == g[j]
  {
    var n := if j < i then j else j + k;
    assert bs[n] == g[j];
    forall x: nat | x < |bs| && Fits(bs, need, x)
      ensures bs[n].size <= bs[x].size && (x < n ==> bs[n].size < bs[x].size)
    {
      var y := if x < i then x else x - k;
      assert Fits(g, need, y) && g[y] == bs[x];
    }
    assert IsBest(bs, need, |bs|, Some(n));
  }

  /** The free blocks that a block in use took in were too small to be the best fit. */
  lemma GrownBest(bs: seq<Block>, i: nat, k: nat, g: seq<Block>, size: nat, a: nat)
    requires i + k < |bs| && g == bs[..i] + InOne(bs[i..], k) && i < |g|
    requires g[i].size < HEADER + size && BestAt(g, size, a)
    ensures BestAt(bs, size, a)
  {
    hide TotalSize, InOne, Fits, Dropped;
    var need := HEADER + size;
    var j: nat :| IsBest(g, need, |g|, Some(j)) && a == g[j].addr + HEADER;
    hide IsBest;
    GrownPlaces(bs, i, k, g);
    forall x: nat | i <= x <= i + k ensures !Fits(bs, need, x) { TakenInSmall(bs, i, k, need, x); }
    StillBest(bs, g, need, i, k, j);
  }

  /** A realloc that moves the block takes the best fit as well. */
  lemma MoveIsBest(bs: seq<Block>, lo: nat, hi: nat, i: nat, size: nat, back: Back)
    requires Tiles(bs, lo, hi) && i < |bs| && !bs[i].free && size > 0
    requires Resize(bs, i, size, back).addr != 0 && Resize(bs, i, size, back).addr != bs[i].addr + HEADER
    ensures BestAt(bs, size, Resize(bs, i, size, back).addr)
  {
    hide Tiles, Live, Malloc, Grow, Shrink, Free, InOne, Absorb, BestAt;
    var g := Grow(bs, i, size + HEADER);
    GrowResizes(bs, lo, hi, i, size, g);
    MallocIsBest(g, size);
    var k := GrowExact(bs, i, size + HEADER);
    GrownBest(bs, i, k, g, size, Malloc(g, size).addr);
  }

  lemma GrowExact(bs: seq<Block>, i: nat, need: nat) returns (k: nat)
    requires i < |bs|
    ensures i + k < |bs| && Grow(bs, i, need) == bs[..i] + InOne(bs[i..], k)
  {
    hide Absorb, InOne;
    k := AbsorbExact(bs[i..], need);
  }

  // ----- malloc undone by free -----

  lemma {:induction false} MergeShorter(seg: seq<Block>)
    ensures |Merge(seg)| <= |seg|
    ensures |seg| >= 2 && seg[1].free ==> |Merge(seg)| < |seg|
    decreases |seg|
  {
    if |seg| >= 2 && seg[1].free { MergeShorter(Join(seg)); }
  }

  /** The tail that free makes of the block that malloc has just cut from b. */
  function Restored(b: Block, rest: seq<Block>, need: nat): seq<Block> {
    var t := Split([b.(free := false)] + rest, need);
    if t == [] then [] else Merge([t[0].(free := true)] + t[1..])
  }

  /** Either the block is whole again, or the free block behind it is gone from the list. */
  lemma RestoredIs(b: Block, rest: seq<Block>, need: nat)
    requires b.free && HEADER <= need <= b.size
    ensures if rest != [] && rest[0].free then 0 < |Restored(b, rest, need)| <= |rest|
            else Restored(b, rest, need) == [b] + rest
  {
    hide Merge;
    var seg := [b.(free := false)] + rest;
    assert seg[1..] == rest;
    if need + HEADER > b.size {
      assert [seg[0].(free := true)] + seg[1..] == [b] + rest;
      MergeNothing([b] + rest);
      MergeShorter([b] + rest);
      MergeLengthens([b] + rest);
    } else {
      var n := Block(b.addr + need, b.size - need, true, b.addr);
      var u := b.(size := need);
      var t := Split(seg, need);
      assert t == [b.(free := false, size := need)] + Merge([n] + rest);
      assert [t[0].(free := true)] + t[1..] == [u] + Merge([n] + rest);
      if rest != [] && rest[0].free { NotRestored(rest, n, u); } else { RestoredWhole(b, rest, n, u); }
    }
  }

  lemma NotRestored(rest: seq<Block>, n: Block, u: Block)
    requires n.free && rest != [] && rest[0].free
    ensures 0 < |Merge([u] + Merge([n] + rest))| <= |rest|
  {
    hide Merge;
    var tail, inner := [n] + rest, Merge([n] + rest);
    assert tail[1] == rest[0];
    MergeShorter(tail);
    MergeLengthens(tail);
    var whole := [u] + inner;
    assert whole[1] == inner[0];
    MergeShorter(whole);
    MergeLengthens(whole);
  }

  lemma RestoredWhole(b: Block, rest: seq<Block>, n: Block, u: Block)
    requires b.free && n.free && u == b.(size := u.size) && u.size + n.size == b.size && !(rest != [] && rest[0].free)
    ensures Merge([u] + Merge([n] + rest)) == [b] + rest
  {
    hide Merge;
    MergeNothing([n] + rest);
    MergeNothing([b] + rest);
    var whole := [u] + ([n] + rest);
    assert whole[2..] == rest;
    assert Join(whole) == [b] + rest;
    MergeStep(whole);
  }

  lemma MergeStep(seg: seq<Block>)
    requires |seg| >= 2 && seg[1].free
    ensures Merge(seg) == Merge(Join(seg))
  {}

  lemma BestIs(bs: seq<Block>, need: nat, j: nat)
    requires BestFit(bs, need) == Some(j)
    ensures Fits(bs, need, j) && j < |bs|
  {
    BestFitMeaning(bs, need);
  }

  lemma BackedSame(seg: seq<Block>, b: Block, rest: seq<Block>, total: nat, end: nat)
    requires b.size < WORD && (seg == [b] + rest || 0 < |seg| <= |rest|)
    ensures Backed(seg, total, end) == [b] + rest <==> seg == [b] + rest && total % WORD == 0 && end == b.prev
  {
    BackedFirst(seg, total, end);
    SameSize(b.size, total);
    if seg == [b] + rest {
      assert seg[1..] == rest;
      var r := Backed(seg, total, end);
      assert r == [r[0]] + rest;
    }
  }

  /** A block that malloc cut from the free block at index j, freed with `total` bytes added along the back
  links: the list is restored exactly when nothing is added and the next block was not free. */
  lemma ClaimFreed(bs: seq<Block>, j: nat, need: nat, total: nat, end: nat)
    requires j < |bs| && j < |Claim(bs, j, need)| && bs[j].free && HEADER <= need <= bs[j].size < WORD
    ensures FreedWith(Claim(bs, j, need), j, total, end) == bs <==>
            !(j + 1 < |bs| && bs[j + 1].free) && total % WORD == 0 && end == bs[j].prev
  {
    hide Claim, Restored, Backed, FreedWith;
    FreedOfClaim(bs, j, need, total, end);
    RestoredIs(bs[j], bs[j + 1..], need);
    BackedSame(Restored(bs[j], bs[j + 1..], need), bs[j], bs[j + 1..], total, end);
    assert bs == bs[..j] + ([bs[j]] + bs[j + 1..]);
    SamePrefix(bs[..j], Backed(Restored(bs[j], bs[j + 1..], need), total, end), [bs[j]] + bs[j + 1..]);
  }

  lemma FreedOfClaim(bs: seq<Block>, j: nat, need: nat, total: nat, end: nat)
    requires j < |bs| && j < |Claim(bs, j, need)|
    ensures FreedWith(Claim(bs, j, need), j, total, end) ==
            bs[..j] + Backed(Restored(bs[j], bs[j + 1..], need), total, end)
  {
    hide Split, Merge, Backed;
    var c, t := Claim(bs, j, need), Split([bs[j].(free := false)] + bs[j + 1..], need);
    assert c[..j] == bs[..j] && c[j] == t[0] && c[j + 1..] == t[1..];
  }

  lemma SamePrefix(a: seq<Block>, b: seq<Block>, c: seq<Block>)
    ensures a + b == a + c <==> b == c
  {
    assert (a + b)[|a|..] == b;
    assert (a + c)[|a|..] == c;
  }

  /** malloc followed by free of the result restores the list of blocks exactly when the block behind the
  chosen one is not free, and the backward loop added nothing and stopped where it began. */
  lemma MallocFreeRoundTrip(bs: seq<Block>, lo: nat, hi: nat, size: nat, j: nat, back: Back)
    requires Tiles(bs, lo, hi) && hi < WORD && size > 0 && j < |bs| && BestFit(bs, size + HEADER) == Some(j)
    ensures Free(Malloc(bs, size).blocks, Malloc(bs, size).addr, back) == bs <==>
            !(j + 1 < |bs| && bs[j + 1].free) && back.total % WORD == 0 && back.end == bs[j].prev
  {
    hide Tiles, Live, Claim, FreedWith, Retiled, BestFit;
    var need := size + HEADER;
    BestIs(bs, need, j);
    ChosenStays(bs, lo, hi, j, need);
    ClaimFreed(bs, j, need, back.total, back.end);
  }

  /** What free finds of the block that malloc handed out. */
  lemma ChosenStays(bs: seq<Block>, lo: nat, hi: nat, j: nat, need: nat)
    requires Tiles(bs, lo, hi) && hi < WORD && need >= HEADER && Fits(bs, need, j)
    ensures Tiles(Claim(bs, j, need), lo, hi) && j < |Claim(bs, j, need)| && bs[j].size < WORD && bs[j].free
    ensures Claim(bs, j, need)[j].prev == bs[j].prev && !Claim(bs, j, need)[j].free
    ensures Holder(Claim(bs, j, need), bs[j].addr + HEADER) == Some(j)
  {
    hide Claim;
    ClaimMeaning(bs, lo, hi, j, need);
    HolderIs(Claim(bs, j, need), lo, hi, j);
    Inside(bs, lo, hi, j);
  }

  // ----- Back links that lead to listed blocks -----

  /** A listed free block is at address p. */
  predicate LeadsToFree(bs: seq<Block>, p: nat) {
    var k := Holder(bs, p + HEADER);
    p != 0 && k.Some? && bs[k.value].free
  }

  /** The block at address p of which LeadsToFree holds. */
  function BlockAt(bs: seq<Block>, p: nat): (b: Block)
    requires LeadsToFree(bs, p)
    ensures b in bs && b.addr == p && b.free
  {
    bs[Holder(bs, p + HEADER).value]
  }

  /** The link is null or the address of a block in use: whatever else memory holds, the loop stops here. */
  predicate Anchored(bs: seq<Block>, p: nat) { p == 0 || InUse(bs, p + HEADER) }

  /** Every link on the way back from p is null or the address of a listed block. */
  predicate Listed(bs: seq<Block>, p: nat)
    decreases p
  {
    if LeadsToFree(bs, p) then BlockAt(bs, p).prev < p && Listed(bs, BlockAt(bs, p).prev) else Anchored(bs, p)
  }

  /** Then this is what the backward loop finds from back link p on. */
  function ListedBack(bs: seq<Block>, p: nat): Back
    requires Listed(bs, p)
    decreases p
  {
    if LeadsToFree(bs, p) then
      var b, rest := BlockAt(bs, p), ListedBack(bs, BlockAt(bs, p).prev);
      Back(b.size + rest.total, rest.end)
    else Back(0, p)
  }

  /** The sizes are those of different blocks, which lie one below the other, so they add less than the heap; and
  they add nothing exactly when the first link leads to no free block. */
  lemma {:induction false} ListedAdds(bs: seq<Block>, lo: nat, hi: nat, p: nat)
    requires Tiles(bs, lo, hi) && LinksBack(bs) && hi < WORD && Listed(bs, p)
    ensures LeadsToFree(bs, p) ==> HEADER <= ListedBack(bs, p).total <= End(BlockAt(bs, p)) - lo
    ensures ListedBack(bs, p).total % WORD == 0 <==> !LeadsToFree(bs, p)
    ensures ListedBack(bs, p).end <= p
    decreases p
  {
    hide Tiles, LinksBack, LeadsToFree, BlockAt;
    if LeadsToFree(bs, p) {
      BlockBounds(bs, lo, hi, p);
      ListedAdds(bs, lo, hi, BlockAt(bs, p).prev);
      if LeadsToFree(bs, BlockAt(bs, p).prev) { BlocksApart(bs, lo, hi, BlockAt(bs, p).prev, p); }
    }
  }

  lemma BlockBounds(bs: seq<Block>, lo: nat, hi: nat, p: nat)
    requires Tiles(bs, lo, hi) && LeadsToFree(bs, p)
    ensures var b := BlockAt(bs, p); b.addr == p && b.size >= HEADER && lo <= p && End(b) <= hi
  {
    Inside(bs, lo, hi, Holder(bs, p + HEADER).value);
  }

  lemma BlocksApart(bs: seq<Block>, lo: nat, hi: nat, q: nat, p: nat)
    requires Tiles(bs, lo, hi) && LeadsToFree(bs, q) && LeadsToFree(bs, p) && q < p
    ensures End(BlockAt(bs, q)) <= p
  {
    var j, k := Holder(bs, q + HEADER).value, Holder(bs, p + HEADER).value;
    if j > k { Ordered(bs, lo, hi, k, j); }
    Ordered(bs, lo, hi, j, k);
  }

  /** No call makes a back link lead forwards. */
  lemma MallocLinksBack(bs: seq<Block>, size: nat)
    requires LinksBack(bs)
    ensures LinksBack(Malloc(bs, size).blocks)
  {
    hide LinksBack, Claim;
    var best := BestFit(bs, size + HEADER);
    if best.Some? {
      BestFitMeaning(bs, size + HEADER);
      ClaimLinksBack(bs, best.value, size + HEADER);
    }
  }

  lemma FreeLinksBack(bs: seq<Block>, a: nat, back: Back)
    requires LinksBack(bs)
    requires var h := Holder(bs, a); h.Some? ==> back.end <= bs[h.value].prev
    ensures LinksBack(Free(bs, a, back))
  {
    hide LinksBack, FreedWith;
    var h := Holder(bs, a);
    if h.Some? { FreedLinksBack(bs, h.value, back.total, back.end); }
  }
}
