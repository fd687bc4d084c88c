/** The allocator of lib/stdlib/heap.c seen as a list of blocks, in address order.

Heap is proved to keep its headers in step with the functions of this module. `prev` is the stored
back link: it is set when a block is split off and never updated, so it may be stale.
*/
module Blocks {
  import opened Options
  import opened Bytes

  datatype Block = Block(addr: nat, size: nat, free: bool, prev: nat)

  function End(b: Block): nat { b.addr + b.size }

  /** The blocks cover [lo, hi) without gap or overlap, and each has room for its header. */
  ghost predicate Tiles(bs: seq<Block>, lo: nat, hi: nat) {
    && bs != [] && bs[0].addr == lo && End(bs[|bs| - 1]) == hi
    && (forall i :: 0 <= i < |bs| ==> bs[i].size >= HEADER)
    && (forall i :: 0 <= i < |bs| - 1 ==> End(bs[i]) == bs[i + 1].addr)
  }

  /** The blocks in use. */
  function Live(bs: seq<Block>): set<Block> { set b | b in bs && !b.free }

  ghost predicate NoFreePair(bs: seq<Block>) {
    forall i :: 0 <= i < |bs| - 1 ==> !(bs[i].free && bs[i + 1].free)
  }

  /** Every stored back link is null or leads to a lower address, with a header between. */
  ghost predicate LinksBack(bs: seq<Block>) {
    forall b :: b in bs ==> b.prev == 0 || b.prev + HEADER <= b.addr
  }

  function TotalSize(bs: seq<Block>): nat {
    if bs == [] then 0 else bs[0].size + TotalSize(bs[1..])
  }

  // ----- The steps of the allocator -----

  /** The first block takes in the second. */
  function Join(seg: seq<Block>): seq<Block>
    requires |seg| >= 2
  {
    [seg[0].(size := seg[0].size + seg[1].size)] + seg[2..]
  }

  /** The forward half of defrag_blocks: the first block takes in every free block that follows it. */
  function Merge(seg: seq<Block>): seq<Block>
    decreases |seg|
  {
    if |seg| >= 2 && seg[1].free then Merge(Join(seg)) else seg
  }

  /** The loop of expand_block: take in following free blocks until `need` bytes are there. */
  function Absorb(seg: seq<Block>, need: nat): seq<Block>
    decreases |seg|
  {
    if |seg| >= 2 && seg[1].free && need > seg[0].size then Absorb(Join(seg), need) else seg
  }

  /** shrink_block on the first block, which is in use. */
  function Split(seg: seq<Block>, need: nat): seq<Block>
    requires seg != []
  {
    if need + HEADER > seg[0].size then seg
    else
      [seg[0].(size := need)]
      + Merge([Block(seg[0].addr + need, seg[0].size - need, true, seg[0].addr)] + seg[1..])
  }

  /** find_best_fit from index i on, with the best block so far. */
  function BestFrom(bs: seq<Block>, need: nat, i: nat, best: Option<nat>): Option<nat>
    requires i <= |bs| && (best.Some? ==> best.value < |bs|)
    decreases |bs| - i
  {
    if i == |bs| then best
    else if bs[i].free && bs[i].size >= need && (best.None? || bs[i].size < bs[best.value].size) then
      BestFrom(bs, need, i + 1, Some(i))
    else BestFrom(bs, need, i + 1, best)
  }

  /** malloc of a block of `need` bytes, header included, in the free block at index j. */
  function Claim(bs: seq<Block>, j: nat, need: nat): seq<Block>
    requires j < |bs|
  {
    bs[..j] + Split([bs[j].(free := false)] + bs[j + 1..], need)
  }

  /** The first block with `total` more bytes, in size_t arithmetic, and another back link: what the backward
  half of defrag_blocks leaves. */
  function Backed(bs: seq<Block>, total: nat, end: nat): seq<Block> {
    if bs == [] then bs else [bs[0].(size := (bs[0].size + total) % WORD, prev := end)] + bs[1..]
  }

  /** The forward half of free of the block at index i. */
  function Release(bs: seq<Block>, i: nat): seq<Block>
    requires i < |bs|
  {
    bs[..i] + Merge([bs[i].(free := true)] + bs[i + 1..])
  }

  /** free of the block at index i: the forward half, then `total` bytes along the back links. */
  function FreedWith(bs: seq<Block>, i: nat, total: nat, end: nat): seq<Block>
    requires i < |bs|
  {
    bs[..i] + Backed(Merge([bs[i].(free := true)] + bs[i + 1..]), total, end)
  }

  /** The part of expand_block before the block is moved. */
  function Grow(bs: seq<Block>, i: nat, need: nat): seq<Block>
    requires i < |bs|
  {
    bs[..i] + Absorb(bs[i..], need)
  }

  function Shrink(bs: seq<Block>, i: nat, need: nat): seq<Block>
    requires i < |bs|
  {
    bs[..i] + Split(bs[i..], need)
  }

  // ----- Lists of blocks -----

  lemma TilesSuffix(bs: seq<Block>, lo: nat, hi: nat, i: nat)
    requires Tiles(bs, lo, hi) && i < |bs|
    ensures Tiles(bs[i..], bs[i].addr, hi)
    ensures i > 0 ==> Tiles(bs[..i], lo, bs[i].addr)
  {}

  lemma TilesAppend(a: seq<Block>, b: seq<Block>, lo: nat, mid: nat, hi: nat)
    requires (a == [] && lo == mid) || Tiles(a, lo, mid)
    requires Tiles(b, mid, hi)
    ensures Tiles(a + b, lo, hi)
  {}

  /** Replacing the tail from index i on by another tiling of the same range. */
  lemma TilesReplace(bs: seq<Block>, lo: nat, hi: nat, i: nat, seg: seq<Block>)
    requires Tiles(bs, lo, hi) && i < |bs| && Tiles(seg, bs[i].addr, hi)
    ensures Tiles(bs[..i] + seg, lo, hi)
  {
    TilesSuffix(bs, lo, hi, i);
    TilesAppend(bs[..i], seg, lo, bs[i].addr, hi);
  }

  lemma LiveAppend(a: seq<Block>, b: seq<Block>)
    ensures Live(a + b) == Live(a) + Live(b)
  {}

  /** Merging and absorbing only lengthen the first block, at the expense of free blocks. */
  ghost predicate Lengthened(seg: seq<Block>, r: seq<Block>) {
    && seg != [] && r != []
    && r[0] == seg[0].(size := r[0].size) && r[0].size >= seg[0].size
    && Live(r[1..]) == Live(seg[1..])
    && (forall b :: b in r[1..] ==> b in seg[1..])
    && (forall lo: nat, hi: nat :: Tiles(seg, lo, hi) ==> Tiles(r, lo, hi))
  }

  lemma JoinLengthens(seg: seq<Block>)
    requires |seg| >= 2 && seg[1].free
    ensures Lengthened(seg, Join(seg))
  {
    assert Join(seg)[1..] == seg[2..];
    assert seg[1..] == [seg[1]] + seg[2..];
    LiveAppend([seg[1]], seg[2..]);
    forall lo: nat, hi: nat | Tiles(seg, lo, hi) ensures Tiles(Join(seg), lo, hi) {
      JoinTiles(seg, lo, hi);
    }
  }

  lemma JoinTiles(seg: seq<Block>, lo: nat, hi: nat)
    requires |seg| >= 2 && Tiles(seg, lo, hi)
    ensures Tiles(Join(seg), lo, hi)
  {}

  lemma LengthenedTransitive(a: seq<Block>, b: seq<Block>, c: seq<Block>)
    requires Lengthened(a, b) && Lengthened(b, c)
    ensures Lengthened(a, c)
  {}

  lemma LengthenedReflexive(a: seq<Block>)
    requires a != []
    ensures Lengthened(a, a)
  {}

  lemma MergeNothing(seg: seq<Block>)
    ensures !(|seg| >= 2 && seg[1].free) ==> Merge(seg) == seg
  {}

  lemma {:induction false} MergeLengthens(seg: seq<Block>)
    requires seg != []
    ensures Lengthened(seg, Merge(seg))
    ensures |Merge(seg)| >= 2 ==> !Merge(seg)[1].free
    decreases |seg|
  {
    hide Lengthened;
    LengthenedReflexive(seg);
    if |seg| >= 2 && seg[1].free {
      JoinLengthens(seg);
      MergeLengthens(Join(seg));
      LengthenedTransitive(seg, Join(seg), Merge(seg));
    }
  }

  lemma {:induction false} AbsorbLengthens(seg: seq<Block>, need: nat)
    requires seg != []
    ensures Lengthened(seg, Absorb(seg, need))
    ensures Absorb(seg, need)[0].size < need && |Absorb(seg, need)| >= 2 ==> !Absorb(seg, need)[1].free
    decreases |seg|
  {
    hide Lengthened;
    LengthenedReflexive(seg);
    if |seg| >= 2 && seg[1].free && need > seg[0].size {
      JoinLengthens(seg);
      AbsorbLengthens(Join(seg), need);
      LengthenedTransitive(seg, Join(seg), Absorb(seg, need));
    }
  }

  /** The first block with the k blocks behind it in one. */
  function InOne(seg: seq<Block>, k: nat): seq<Block>
    requires k < |seg|
  {
    [seg[0].(size := TotalSize(seg[..k + 1]))] + seg[k + 1..]
  }

  lemma InOneOfNone(seg: seq<Block>)
    requires seg != []
    ensures InOne(seg, 0) == seg
  {
    assert seg[..1] == [seg[0]];
    assert TotalSize([seg[0]]) == seg[0].size + TotalSize([seg[0]][1..]);
  }

  lemma TotalOfJoin(seg: seq<Block>, k: nat)
    requires |seg| >= 2 && k + 1 < |seg|
    ensures TotalSize(Join(seg)[..k + 1]) == TotalSize(seg[..k + 2])
  {
    var j, a := Join(seg)[..k + 1], seg[..k + 2];
    assert j[1..] == a[1..][1..];
    assert TotalSize(j) == j[0].size + TotalSize(j[1..]);
    assert TotalSize(a) == a[0].size + TotalSize(a[1..]);
    assert TotalSize(a[1..]) == a[1..][0].size + TotalSize(a[1..][1..]);
  }

  lemma InOneOfJoin(seg: seq<Block>, k: nat)
    requires |seg| >= 2 && k + 1 < |seg|
    ensures InOne(seg, k + 1) == InOne(Join(seg), k)
  {
    TotalOfJoin(seg, k);
    assert Join(seg)[k + 1..] == seg[k + 2..];
  }

  /** Merging forwards takes in exactly the free blocks up to the next block in use. */
  lemma {:induction false} MergeExact(seg: seq<Block>) returns (k: nat)
    requires seg != []
    ensures k < |seg| && Merge(seg) == InOne(seg, k)
    ensures forall j :: 1 <= j <= k ==> seg[j].free
    ensures k + 1 < |seg| ==> !seg[k + 1].free
    decreases |seg|
  {
    k := 0;
    InOneOfNone(seg);
    if |seg| >= 2 && seg[1].free {
      var n := MergeExact(Join(seg));
      InOneOfJoin(seg, n);
      forall j | 2 <= j <= n + 1 ensures seg[j].free { assert seg[j] == Join(seg)[j - 1]; }
      assert n + 2 < |seg| ==> seg[n + 2] == Join(seg)[n + 1];
      k := n + 1;
    }
  }

  /** The growth loop takes in as many free blocks as it needs and no more. */
  lemma {:induction false} AbsorbExact(seg: seq<Block>, need: nat) returns (k: nat)
    requires seg != []
    ensures k < |seg| && Absorb(seg, need) == InOne(seg, k)
    ensures forall j :: 1 <= j <= k ==> seg[j].free
    ensures k > 0 ==> TotalSize(seg[..k]) < need
    ensures k + 1 < |seg| && TotalSize(seg[..k + 1]) < need ==> !seg[k + 1].free
    decreases |seg|
  {
    k := 0;
    InOneOfNone(seg);
    assert InOne(seg, 0)[0].size == TotalSize(seg[..1]);
    if |seg| >= 2 && seg[1].free && need > seg[0].size {
      var n := AbsorbExact(Join(seg), need);
      InOneOfJoin(seg, n);
      TotalOfJoin(seg, n);
      if n > 0 { TotalOfJoin(seg, n - 1); }
      forall j | 2 <= j <= n + 1 ensures seg[j].free { assert seg[j] == Join(seg)[j - 1]; }
      assert n + 2 < |seg| ==> seg[n + 2] == Join(seg)[n + 1];
      k := n + 1;
    }
  }

  // ----- Splitting -----

  /** What shrink_block promises of a block of at least `need` bytes: it keeps its place, wastes less
  than a header, and only free space changes behind it. */
  ghost predicate Trimmed(seg: seq<Block>, r: seq<Block>, need: nat) {
    && seg != [] && r != []
    && r[0] == seg[0].(size := r[0].size)
    && need <= r[0].size < need + HEADER && r[0].size <= seg[0].size
    && Live(r[1..]) == Live(seg[1..])
    && (forall lo: nat, hi: nat :: Tiles(seg, lo, hi) ==> Tiles(r, lo, hi))
  }

  lemma SplitMeaning(seg: seq<Block>, need: nat)
    requires seg != [] && HEADER <= need <= seg[0].size
    ensures Trimmed(seg, Split(seg, need), need)
  {
    if need + HEADER <= seg[0].size {
      var rest := [Block(seg[0].addr + need, seg[0].size - need, true, seg[0].addr)] + seg[1..];
      MergeLengthens(rest);
      SplitLive(seg, need, rest);
      forall lo: nat, hi: nat | Tiles(seg, lo, hi) ensures Tiles(Split(seg, need), lo, hi) {
        SplitTiles(seg, need, lo, hi);
        TilesAppend([seg[0].(size := need)], Merge(rest), lo, lo + need, hi);
      }
    }
  }

  /** A block is cut exactly when another header fits behind: then it has just the size asked for, and a free
  block with its back link follows. */
  lemma SplitExact(seg: seq<Block>, need: nat)
    requires seg != []
    ensures var r := Split(seg, need);
            if need + HEADER <= seg[0].size then
              && |r| >= 2 && r[0] == seg[0].(size := need)
              && r[1].free && r[1].addr == seg[0].addr + need && r[1].prev == seg[0].addr
              && (|r| > 2 ==> !r[2].free)
            else r == seg
  {
    if need + HEADER <= seg[0].size {
      MergeLengthens([Block(seg[0].addr + need, seg[0].size - need, true, seg[0].addr)] + seg[1..]);
    }
  }

  lemma SplitTiles(seg: seq<Block>, need: nat, lo: nat, hi: nat)
    requires Tiles(seg, lo, hi) && HEADER <= need && need + HEADER <= seg[0].size
    ensures Tiles([Block(seg[0].addr + need, seg[0].size - need, true, seg[0].addr)] + seg[1..], lo + need, hi)
  {}

  lemma SplitLive(seg: seq<Block>, need: nat, rest: seq<Block>)
    requires seg != [] && need + HEADER <= seg[0].size
    requires rest == [Block(seg[0].addr + need, seg[0].size - need, true, seg[0].addr)] + seg[1..]
    requires Lengthened(rest, Merge(rest))
    ensures Live(Split(seg, need)[1..]) == Live(seg[1..])
  {
    assert Split(seg, need)[1..] == Merge(rest);
    assert rest[1..] == seg[1..];
    assert Merge(rest) == [Merge(rest)[0]] + Merge(rest)[1..];
    LiveAppend([Merge(rest)[0]], Merge(rest)[1..]);
  }

  // ----- The list as a whole -----

  lemma {:induction false} Ordered(bs: seq<Block>, lo: nat, hi: nat, i: nat, k: nat)
    requires Tiles(bs, lo, hi) && i < k < |bs|
    ensures End(bs[i]) <= bs[k].addr
    decreases k
  {
    if i < k - 1 { Ordered(bs, lo, hi, i, k - 1); }
  }

  lemma Inside(bs: seq<Block>, lo: nat, hi: nat, i: nat)
    requires Tiles(bs, lo, hi) && i < |bs|
    ensures lo <= bs[i].addr && End(bs[i]) <= hi
  {
    if i > 0 { Ordered(bs, lo, hi, 0, i); }
    if i < |bs| - 1 { Ordered(bs, lo, hi, i, |bs| - 1); }
  }

  /** No two blocks share an address, so a block is in one place only. */
  lemma Distinct(bs: seq<Block>, lo: nat, hi: nat, i: nat, k: nat)
    requires Tiles(bs, lo, hi) && i < |bs| && k < |bs| && bs[i].addr == bs[k].addr
    ensures i == k
  {
    if i < k { Ordered(bs, lo, hi, i, k); } else if k < i { Ordered(bs, lo, hi, k, i); }
  }

  /** The sizes always sum to the size of the heap. */
  lemma {:induction false} SizesSum(bs: seq<Block>, lo: nat, hi: nat)
    requires Tiles(bs, lo, hi)
    ensures TotalSize(bs) == hi - lo
    decreases |bs|
  {
    if |bs| > 1 { TilesSuffix(bs, lo, hi, 1); SizesSum(bs[1..], bs[1].addr, hi); }
  }

  /** Replacing the tail of a list: what is in use is what was in use before it and in the new tail. */
  lemma LiveTail(bs: seq<Block>, i: nat, seg: seq<Block>)
    requires i < |bs| && seg != [] && Live(seg[1..]) == Live(bs[i + 1..])
    ensures Live(bs[..i] + seg) == Live(bs[..i]) + Live([seg[0]]) + Live(bs[i + 1..])
  {
    assert bs[..i] + seg == bs[..i] + [seg[0]] + seg[1..];
    LiveAppend(bs[..i] + [seg[0]], seg[1..]);
    LiveAppend(bs[..i], [seg[0]]);
  }

  /** The block at index i is nowhere else in the list. */
  lemma NotElsewhere(bs: seq<Block>, lo: nat, hi: nat, i: nat)
    requires Tiles(bs, lo, hi) && i < |bs|
    ensures bs[i] !in bs[..i] && bs[i] !in bs[i + 1..]
  {
    var b := bs[i];
    if b in bs[..i] {
      var k :| 0 <= k < i && bs[k] == b;
      Ordered(bs, lo, hi, k, i);
    }
    if b in bs[i + 1..] {
      var k :| i < k < |bs| && bs[k] == b;
      Ordered(bs, lo, hi, i, k);
    }
  }

  lemma LiveSplit(bs: seq<Block>, i: nat)
    requires i < |bs|
    ensures Live(bs) == Live(bs[..i]) + Live([bs[i]]) + Live(bs[i + 1..])
  {
    assert bs == bs[..i] + [bs[i]] + bs[i + 1..];
    LiveAppend(bs[..i] + [bs[i]], bs[i + 1..]);
    LiveAppend(bs[..i], [bs[i]]);
  }

  /** Exchanging the head of a tail changes what is in use by that head alone. */
  lemma LiveExchange(bs: seq<Block>, lo: nat, hi: nat, i: nat, seg: seq<Block>)
    requires Tiles(bs, lo, hi) && i < |bs| && seg != [] && Live(seg[1..]) == Live(bs[i + 1..])
    ensures Live(bs[..i] + seg) == Live(bs) - {bs[i]} + Live([seg[0]])
  {
    LiveTail(bs, i, seg);
    LiveSplit(bs, i);
    NotElsewhere(bs, lo, hi, i);
    LiveOne(bs[i]);
    hide Tiles;
    var before, after := Live(bs[..i]), Live(bs[i + 1..]);
    assert bs[i] !in before && bs[i] !in after;
    hide Live;
  }

  lemma LiveOne(b: Block)
    ensures Live([b]) == if b.free then {} else {b}
  {
    assert [b][0] == b;
  }

  // ----- Best fit -----

  ghost predicate Fits(bs: seq<Block>, need: nat, i: nat) { i < |bs| && bs[i].free && bs[i].size >= need }

  /** j is the lowest of the smallest free blocks among the first n that hold `need` bytes. */
  ghost predicate IsBest(bs: seq<Block>, need: nat, n: nat, best: Option<nat>) {
    match best
    case None => forall k :: 0 <= k < n ==> !Fits(bs, need, k)
    case Some(j) =>
      && j < n && Fits(bs, need, j)
      && (forall k :: 0 <= k < n && Fits(bs, need, k) ==> bs[j].size <= bs[k].size)
      && (forall k :: 0 <= k < j && Fits(bs, need, k) ==> bs[j].size < bs[k].size)
  }

  function BestFit(bs: seq<Block>, need: nat): Option<nat> { BestFrom(bs, need, 0, None) }

  lemma {:induction false} BestFromIsBest(bs: seq<Block>, need: nat, i: nat, best: Option<nat>)
    requires i <= |bs| && IsBest(bs, need, i, best)
    ensures IsBest(bs, need, |bs|, BestFrom(bs, need, i, best))
    decreases |bs| - i
  {
    if i < |bs| {
      if bs[i].free && bs[i].size >= need && (best.None? || bs[i].size < bs[best.value].size) {
        BestFromIsBest(bs, need, i + 1, Some(i));
      } else {
        BestFromIsBest(bs, need, i + 1, best);
      }
    }
  }

  /** find_best_fit returns the lowest of the smallest free blocks that fit, and nothing exactly when
  no free block fits. */
  lemma BestFitMeaning(bs: seq<Block>, need: nat)
    ensures IsBest(bs, need, |bs|, BestFit(bs, need))
  {
    BestFromIsBest(bs, need, 0, None);
  }

  // ----- What each operation does to the heap -----

  /** From bs to r: the tail from index i on was retiled; block i is replaced by r[i], and nothing else
  in use has changed. */
  ghost predicate Retiled(bs: seq<Block>, r: seq<Block>, lo: nat, hi: nat, i: nat) {
    && i < |bs| && i < |r| && Tiles(r, lo, hi)
    && r[..i] == bs[..i] && r[i].addr == bs[i].addr && r[i].prev == bs[i].prev
    && Live(r) == Live(bs) - {bs[i]} + (if r[i].free then {} else {r[i]})
  }

  lemma RetileTail(bs: seq<Block>, lo: nat, hi: nat, i: nat, seg: seq<Block>)
    requires Tiles(bs, lo, hi) && i < |bs| && Tiles(seg, bs[i].addr, hi) && seg[0].prev == bs[i].prev
    requires Live(seg[1..]) == Live(bs[i + 1..])
    ensures Retiled(bs, bs[..i] + seg, lo, hi, i)
  {
    TilesReplace(bs, lo, hi, i, seg);
    LiveExchange(bs, lo, hi, i, seg);
    LiveOne(seg[0]);
    assert (bs[..i] + seg)[i] == seg[0];
    hide Live;
  }

  /** malloc: the chosen block is handed out with at least the bytes asked for and less than a header
  wasted; every block in use keeps its place and size. */
  lemma ClaimMeaning(bs: seq<Block>, lo: nat, hi: nat, j: nat, need: nat)
    requires Tiles(bs, lo, hi) && HEADER <= need && Fits(bs, need, j)
    ensures Retiled(bs, Claim(bs, j, need), lo, hi, j)
    ensures !Claim(bs, j, need)[j].free && need <= Claim(bs, j, need)[j].size < need + HEADER
  {
    var seg := [bs[j].(free := false)] + bs[j + 1..];
    SplitMeaning(seg, need);
    TilesSuffix(bs, lo, hi, j);
    assert Tiles(seg, bs[j].addr, hi);
    assert seg[1..] == bs[j + 1..];
    RetileTail(bs, lo, hi, j, Split(seg, need));
  }

  /** free: exactly the freed block stops being in use. */
  lemma ReleaseMeaning(bs: seq<Block>, lo: nat, hi: nat, i: nat)
    requires Tiles(bs, lo, hi) && i < |bs|
    ensures Retiled(bs, Release(bs, i), lo, hi, i) && Release(bs, i)[i].free
  {
    var seg := [bs[i].(free := true)] + bs[i + 1..];
    MergeLengthens(seg);
    TilesSuffix(bs, lo, hi, i);
    assert Tiles(seg, bs[i].addr, hi);
    assert seg[1..] == bs[i + 1..];
    RetileTail(bs, lo, hi, i, Merge(seg));
  }

  /** expand_block's loop: the block grows over free space only. */
  lemma GrowMeaning(bs: seq<Block>, lo: nat, hi: nat, i: nat, need: nat)
    requires Tiles(bs, lo, hi) && i < |bs|
    ensures Retiled(bs, Grow(bs, i, need), lo, hi, i)
    ensures Grow(bs, i, need)[i] == bs[i].(size := Grow(bs, i, need)[i].size)
    ensures bs[i].size <= Grow(bs, i, need)[i].size
  {
    AbsorbLengthens(bs[i..], need);
    TilesSuffix(bs, lo, hi, i);
    assert bs[i..][1..] == bs[i + 1..];
    RetileTail(bs, lo, hi, i, Absorb(bs[i..], need));
  }

  /** shrink_block: the block keeps at least `need` bytes and gives up all but a header's worth. */
  lemma ShrinkMeaning(bs: seq<Block>, lo: nat, hi: nat, i: nat, need: nat)
    requires Tiles(bs, lo, hi) && i < |bs| && HEADER <= need <= bs[i].size
    ensures Retiled(bs, Shrink(bs, i, need), lo, hi, i)
    ensures Shrink(bs, i, need)[i] == bs[i].(size := Shrink(bs, i, need)[i].size)
    ensures need <= Shrink(bs, i, need)[i].size < need + HEADER && Shrink(bs, i, need)[i].size <= bs[i].size
  {
    SplitMeaning(bs[i..], need);
    TilesSuffix(bs, lo, hi, i);
    assert bs[i..][1..] == bs[i + 1..];
    RetileTail(bs, lo, hi, i, Split(bs[i..], need));
  }

  // ----- Neighbouring free blocks -----

  lemma {:induction false} MergeLeavesNoPair(seg: seq<Block>)
    requires seg != [] && NoFreePair(seg[1..])
    ensures NoFreePair(Merge(seg))
    decreases |seg|
  {
    if |seg| >= 2 && seg[1].free {
      assert Join(seg)[1..] == seg[1..][1..];
      MergeLeavesNoPair(Join(seg));
    } else {
      assert seg == [seg[0]] + seg[1..];
    }
  }

  lemma {:induction false} AbsorbLeavesNoPair(seg: seq<Block>, need: nat)
    requires seg != [] && !seg[0].free && NoFreePair(seg[1..])
    ensures Absorb(seg, need) != [] && NoFreePair(Absorb(seg, need)) && !Absorb(seg, need)[0].free
    decreases |seg|
  {
    if |seg| >= 2 && seg[1].free && need > seg[0].size {
      assert Join(seg)[1..] == seg[1..][1..];
      AbsorbLeavesNoPair(Join(seg), need);
    } else {
      assert seg == [seg[0]] + seg[1..];
    }
  }

  lemma SplitLeavesNoPair(seg: seq<Block>, need: nat)
    requires seg != [] && !seg[0].free && NoFreePair(seg[1..])
    ensures NoFreePair(Split(seg, need)) && !Split(seg, need)[0].free
  {
    if need + HEADER > seg[0].size {
      assert seg == [seg[0]] + seg[1..];
    } else {
      var rest := [Block(seg[0].addr + need, seg[0].size - need, true, seg[0].addr)] + seg[1..];
      assert rest[1..] == seg[1..];
      MergeLeavesNoPair(rest);
      assert Split(seg, need)[1..] == Merge(rest);
    }
  }

  lemma NoPairTail(bs: seq<Block>, i: nat, seg: seq<Block>)
    requires i < |bs| && NoFreePair(bs) && NoFreePair(seg) && seg != []
    requires !seg[0].free
    ensures NoFreePair(bs[..i] + seg)
  {}

  /** Handing out, growing and shrinking never leave two free neighbours. */
  lemma ClaimLeavesNoPair(bs: seq<Block>, j: nat, need: nat)
    requires NoFreePair(bs) && j < |bs|
    ensures NoFreePair(Claim(bs, j, need))
  {
    var seg := [bs[j].(free := false)] + bs[j + 1..];
    assert seg[1..] == bs[j + 1..];
    SplitLeavesNoPair(seg, need);
    NoPairTail(bs, j, Split(seg, need));
  }

  lemma GrowLeavesNoPair(bs: seq<Block>, i: nat, need: nat)
    requires NoFreePair(bs) && i < |bs| && !bs[i].free
    ensures NoFreePair(Grow(bs, i, need))
  {
    AbsorbLeavesNoPair(bs[i..], need);
    NoPairTail(bs, i, Absorb(bs[i..], need));
  }

  lemma ShrinkLeavesNoPair(bs: seq<Block>, i: nat, need: nat)
    requires NoFreePair(bs) && i < |bs| && !bs[i].free
    ensures NoFreePair(Shrink(bs, i, need))
  {
    SplitLeavesNoPair(bs[i..], need);
    NoPairTail(bs, i, Split(bs[i..], need));
  }

  /** free as written leaves two free neighbours exactly when the block in front of the freed one is
  free: only the blocks behind are merged. */
  lemma ReleaseLeavesNoPair(bs: seq<Block>, i: nat)
    requires NoFreePair(bs) && i < |bs|
    ensures NoFreePair(Release(bs, i)) <==> !(i > 0 && bs[i - 1].free)
  {
    var seg := [bs[i].(free := true)] + bs[i + 1..];
    assert seg[1..] == bs[i + 1..];
    MergeLeavesNoPair(seg);
    MergeLengthens(seg);
    var r := Release(bs, i);
    assert |r| == i + |Merge(seg)|;
    assert r[i] == Merge(seg)[0] && r[i].free;
    if i > 0 {
      assert r[i - 1] == bs[i - 1];
      if !bs[i - 1].free {
        forall k | 0 <= k < |r| - 1 ensures !(r[k].free && r[k + 1].free) {
          if k >= i { assert r[k] == Merge(seg)[k - i] && r[k + 1] == Merge(seg)[k + 1 - i]; }
          else if k < i - 1 { assert r[k] == bs[k] && r[k + 1] == bs[k + 1]; }
        }
      }
    } else {
      assert r == Merge(seg);
    }
  }

  // ----- The backward half of free -----

  lemma SameSize(size: nat, total: nat)
    requires size < WORD
    ensures (size + total) % WORD == size <==> total % WORD == 0
  {}

  lemma SizedTiles(bs: seq<Block>, lo: nat, hi: nat, size: nat, end: nat)
    requires Tiles(bs, lo, hi)
    ensures Tiles([bs[0].(size := size, prev := end)] + bs[1..], lo, hi) <==> size == bs[0].size
  {
    var r := [bs[0].(size := size, prev := end)] + bs[1..];
    if Tiles(r, lo, hi) && |bs| > 1 { assert r[1] == bs[1] && End(r[0]) == r[1].addr; }
  }

  /** A list that tiles, with one size changed, tiles no more; other fields do not matter. */
  lemma BackedTiles(bs: seq<Block>, lo: nat, hi: nat, total: nat, end: nat)
    requires bs != [] && Tiles(bs, lo, hi) && hi < WORD
    ensures Tiles(Backed(bs, total, end), lo, hi) <==> total % WORD == 0
  {
    hide Tiles;
    Inside(bs, lo, hi, 0);
    SameSize(bs[0].size, total);
    SizedTiles(bs, lo, hi, (bs[0].size + total) % WORD, end);
  }

  lemma PrefixTiles(bs: seq<Block>, lo: nat, hi: nat, i: nat, seg: seq<Block>)
    requires Tiles(bs, lo, hi) && i < |bs| && seg != [] && seg[0].addr == bs[i].addr
    ensures Tiles(bs[..i] + seg, lo, hi) <==> Tiles(seg, bs[i].addr, hi)
  {
    if Tiles(seg, bs[i].addr, hi) { TilesReplace(bs, lo, hi, i, seg); }
    if Tiles(bs[..i] + seg, lo, hi) {
      TilesSuffix(bs[..i] + seg, lo, hi, i);
      assert (bs[..i] + seg)[i..] == seg;
    }
  }

  lemma MergeTiles(seg: seq<Block>, lo: nat, hi: nat)
    requires Tiles(seg, lo, hi)
    ensures Merge(seg) != [] && Tiles(Merge(seg), lo, hi) && Merge(seg)[0].addr == lo
    ensures Merge(seg)[0].prev == seg[0].prev && (seg[0].free ==> Merge(seg)[0].free)
    ensures Live(Merge(seg)[1..]) == Live(seg[1..])
  {
    MergeLengthens(seg);
  }

  lemma MarkTiles(bs: seq<Block>, lo: nat, hi: nat, i: nat, free: bool)
    requires Tiles(bs, lo, hi) && i < |bs|
    ensures Tiles([bs[i].(free := free)] + bs[i + 1..], bs[i].addr, hi)
  {
    TilesSuffix(bs, lo, hi, i);
  }

  lemma BackedFirst(seg: seq<Block>, total: nat, end: nat)
    requires seg != []
    ensures |Backed(seg, total, end)| == |seg| && Backed(seg, total, end)[1..] == seg[1..]
    ensures Backed(seg, total, end)[0] == seg[0].(size := (seg[0].size + total) % WORD, prev := end)
    ensures seg[0].size < WORD && total == 0 && end == seg[0].prev ==> Backed(seg, total, end) == seg
  {
    assert seg == [seg[0]] + seg[1..];
  }

  /** The heap stays tiled exactly when the sizes along the back links add nothing; the freed block is out of
  use in any case. */
  lemma FreedMeaning(bs: seq<Block>, lo: nat, hi: nat, i: nat, total: nat, end: nat)
    requires Tiles(bs, lo, hi) && i < |bs| && hi < WORD
    ensures Tiles(FreedWith(bs, i, total, end), lo, hi) <==> total % WORD == 0
    ensures Live(FreedWith(bs, i, total, end)) == Live(bs) - {bs[i]}
    ensures total == 0 && end == bs[i].prev ==> FreedWith(bs, i, total, end) == Release(bs, i)
  {
    hide Tiles, Merge, Backed, Live;
    var seg := [bs[i].(free := true)] + bs[i + 1..];
    MarkTiles(bs, lo, hi, i, true);
    MergeTiles(seg, bs[i].addr, hi);
    var merged := Merge(seg);
    Inside(merged, bs[i].addr, hi, 0);
    BackedFirst(merged, total, end);
    BackedTiles(merged, bs[i].addr, hi, total, end);
    PrefixTiles(bs, lo, hi, i, Backed(merged, total, end));
    assert seg[1..] == bs[i + 1..];
    LiveExchange(bs, lo, hi, i, Backed(merged, total, end));
    LiveOne(Backed(merged, total, end)[0]);
  }

  lemma NoPairOfSame(r: seq<Block>, s: seq<Block>)
    requires |r| == |s| && forall k :: 0 <= k < |r| ==> r[k].free == s[k].free
    ensures NoFreePair(r) <==> NoFreePair(s)
  {}

  /** Two free neighbours are left exactly when the block in front of the freed one is free: the backward
  half adds its size but leaves it in the list. */
  lemma FreedLeavesNoPair(bs: seq<Block>, i: nat, total: nat, end: nat)
    requires NoFreePair(bs) && i < |bs|
    ensures NoFreePair(FreedWith(bs, i, total, end)) <==> !(i > 0 && bs[i - 1].free)
  {
    hide NoFreePair, FreedWith, Release;
    ReleaseLeavesNoPair(bs, i);
    FreedFlags(bs, i, total, end);
    NoPairOfSame(FreedWith(bs, i, total, end), Release(bs, i));
  }

  lemma FreedFlags(bs: seq<Block>, i: nat, total: nat, end: nat)
    requires i < |bs|
    ensures var r, s := FreedWith(bs, i, total, end), Release(bs, i);
            |r| == |s| && forall k :: 0 <= k < |r| ==> r[k].free == s[k].free
  {
    hide Merge;
    var merged := Merge([bs[i].(free := true)] + bs[i + 1..]);
    assert forall k :: 0 <= k < |merged| ==> Backed(merged, total, end)[k].free == merged[k].free;
  }

  // ----- Back links lead backwards -----

  lemma LinksOf(a: seq<Block>, b: seq<Block>)
    ensures LinksBack(a + b) <==> LinksBack(a) && LinksBack(b)
  {
    assert forall x :: x in a + b <==> x in a || x in b;
  }

  lemma LinksOfPart(bs: seq<Block>, i: nat)
    requires i <= |bs| && LinksBack(bs)
    ensures LinksBack(bs[..i]) && LinksBack(bs[i..])
  {
    assert bs == bs[..i] + bs[i..];
    LinksOf(bs[..i], bs[i..]);
  }

  lemma LinksLengthened(seg: seq<Block>, r: seq<Block>)
    requires Lengthened(seg, r) && LinksBack(seg)
    ensures LinksBack(r)
  {
    assert seg[0] in seg && forall b :: b in seg[1..] ==> b in seg;
    assert r == [r[0]] + r[1..];
  }

  lemma SplitLinksBack(seg: seq<Block>, need: nat)
    requires seg != [] && LinksBack(seg) && need >= HEADER
    ensures LinksBack(Split(seg, need))
  {
    if need + HEADER <= seg[0].size {
      var rest := [Block(seg[0].addr + need, seg[0].size - need, true, seg[0].addr)] + seg[1..];
      LinksOfPart(seg, 1);
      assert seg[0] in seg;
      LinksOf([rest[0]], seg[1..]);
      MergeLengthens(rest);
      LinksLengthened(rest, Merge(rest));
      LinksOf([seg[0].(size := need)], Merge(rest));
    }
  }

  lemma MarkedLinksBack(bs: seq<Block>, i: nat, free: bool)
    requires i < |bs| && LinksBack(bs)
    ensures LinksBack(bs[..i]) && LinksBack([bs[i].(free := free)] + bs[i + 1..])
  {
    LinksOfPart(bs, i);
    LinksOfPart(bs, i + 1);
    assert bs[i] in bs;
    LinksOf([bs[i].(free := free)], bs[i + 1..]);
  }

  /** No operation makes a back link lead forwards. */
  lemma ClaimLinksBack(bs: seq<Block>, j: nat, need: nat)
    requires j < |bs| && LinksBack(bs) && need >= HEADER
    ensures LinksBack(Claim(bs, j, need))
  {
    var seg := [bs[j].(free := false)] + bs[j + 1..];
    MarkedLinksBack(bs, j, false);
    SplitLinksBack(seg, need);
    LinksOf(bs[..j], Split(seg, need));
  }

  lemma FreedLinksBack(bs: seq<Block>, i: nat, total: nat, end: nat)
    requires i < |bs| && LinksBack(bs) && (end == 0 || end <= bs[i].prev)
    ensures LinksBack(FreedWith(bs, i, total, end))
  {
    hide Merge;
    var seg := [bs[i].(free := true)] + bs[i + 1..];
    MarkedLinksBack(bs, i, true);
    MergeLengthens(seg);
    LinksLengthened(seg, Merge(seg));
    BackedFirst(Merge(seg), total, end);
    var r := Backed(Merge(seg), total, end);
    LinksOfPart(Merge(seg), 1);
    assert bs[i] in bs && r == [r[0]] + r[1..];
    LinksOf([r[0]], r[1..]);
    LinksOf(bs[..i], r);
  }

  lemma GrowLinksBack(bs: seq<Block>, i: nat, need: nat)
    requires i < |bs| && LinksBack(bs)
    ensures LinksBack(Grow(bs, i, need))
  {
    LinksOfPart(bs, i);
    AbsorbLengthens(bs[i..], need);
    LinksLengthened(bs[i..], Absorb(bs[i..], need));
    LinksOf(bs[..i], Absorb(bs[i..], need));
  }

  lemma ShrinkLinksBack(bs: seq<Block>, i: nat, need: nat)
    requires i < |bs| && LinksBack(bs) && need >= HEADER
    ensures LinksBack(Shrink(bs, i, need))
  {
    LinksOfPart(bs, i);
    SplitLinksBack(bs[i..], need);
    LinksOf(bs[..i], Split(bs[i..], need));
  }
}
