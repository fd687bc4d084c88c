/** A list of blocks as the chain of headers that lib/stdlib/heap.c keeps in memory. */
module Chains {
  import opened Sums
  import opened Bytes
  import opened Blocks

  function HeaderOf(b: Block, next: nat): Header {
    Header(MAGIC, if b.free then 1 else 0, b.size, next, b.prev)
  }

  /** The address of the block after index i; `tail` follows the last one. */
  function NextOf(bs: seq<Block>, i: nat, tail: nat): nat { if i + 1 < |bs| then bs[i + 1].addr else tail }

  ghost predicate Shows(m: seq<Byte>, b: Block, next: nat) { HeaderAt(m, b.addr) == HeaderOf(b, next) }

  /** The headers of the blocks, each linked to the next. */
  ghost predicate Chain(m: seq<Byte>, bs: seq<Block>, tail: nat) {
    forall i :: 0 <= i < |bs| ==> Shows(m, bs[i], NextOf(bs, i, tail))
  }

  /** The first `lo` bytes hold no header of these blocks. */
  ghost predicate AllFrom(bs: seq<Block>, lo: nat) { forall b :: b in bs ==> b.addr >= lo }

  lemma ChainHead(m: seq<Byte>, bs: seq<Block>, tail: nat)
    requires bs != [] && Chain(m, bs, tail)
    ensures HeaderAt(m, bs[0].addr) == HeaderOf(bs[0], NextOf(bs, 0, tail))
    ensures bs[0].addr != 0 ==> IsValid(m, bs[0].addr) && (IsFree(m, bs[0].addr) <==> bs[0].free)
  {
    assert Shows(m, bs[0], NextOf(bs, 0, tail));
  }

  lemma ChainRest(m: seq<Byte>, bs: seq<Block>, tail: nat)
    requires bs != [] && Chain(m, bs, tail)
    ensures Chain(m, bs[1..], tail)
  {
    forall i | 0 <= i < |bs| - 1 ensures Shows(m, bs[1..][i], NextOf(bs[1..], i, tail)) {
      assert Shows(m, bs[i + 1], NextOf(bs, i + 1, tail));
    }
  }

  lemma ChainSplit(m: seq<Byte>, a: seq<Block>, b: seq<Block>, tail: nat)
    requires b != [] && Chain(m, a + b, tail)
    ensures Chain(m, a, b[0].addr) && Chain(m, b, tail)
  {
    var all := a + b;
    forall i | 0 <= i < |a| ensures Shows(m, a[i], NextOf(a, i, b[0].addr)) {
      assert Shows(m, all[i], NextOf(all, i, tail));
    }
    forall i | 0 <= i < |b| ensures Shows(m, b[i], NextOf(b, i, tail)) {
      assert Shows(m, all[|a| + i], NextOf(all, |a| + i, tail));
    }
  }

  lemma ChainAppend(m: seq<Byte>, a: seq<Block>, b: seq<Block>, tail: nat)
    requires b != [] && Chain(m, a, b[0].addr) && Chain(m, b, tail)
    ensures Chain(m, a + b, tail)
  {
    var all := a + b;
    forall i | 0 <= i < |all| ensures Shows(m, all[i], NextOf(all, i, tail)) {
      if i < |a| { assert Shows(m, a[i], NextOf(a, i, b[0].addr)); }
      else { assert Shows(m, b[i - |a|], NextOf(b, i - |a|, tail)); }
    }
  }

  /** Headers in a part of memory that did not change. */
  lemma ChainSame(m: seq<Byte>, w: seq<Byte>, bs: seq<Block>, tail: nat, lo: nat, hi: nat)
    requires Chain(m, bs, tail) && SameOn(m, w, lo, hi)
    requires forall b :: b in bs ==> lo <= b.addr && b.addr + HEADER <= hi
    ensures Chain(w, bs, tail)
  {
    forall i | 0 <= i < |bs| ensures Shows(w, bs[i], NextOf(bs, i, tail)) {
      assert Shows(m, bs[i], NextOf(bs, i, tail));
      assert bs[i] in bs;
      hide HeaderAt;
      HeaderSame(m, w, bs[i].addr);
    }
  }

  /** Writing the header of a block in front of a chain. */
  lemma ChainCons(m: seq<Byte>, w: seq<Byte>, b: Block, rest: seq<Block>, tail: nat)
    requires Chain(m, rest, tail) && AllFrom(rest, b.addr + HEADER)
    requires Wrote(m, w, b.addr, HeaderOf(b, if rest == [] then tail else rest[0].addr))
    ensures Chain(w, [b] + rest, tail)
  {
    hide HeaderAt;
    var all := [b] + rest;
    forall i | 0 <= i < |all| ensures Shows(w, all[i], NextOf(all, i, tail)) {
      if i > 0 {
        assert Shows(m, rest[i - 1], NextOf(rest, i - 1, tail));
        assert rest[i - 1] in rest;
        HeaderSame(m, w, all[i].addr);
      }
    }
  }

  lemma TilesFrom(bs: seq<Block>, lo: nat, hi: nat)
    requires Tiles(bs, lo, hi)
    ensures AllFrom(bs, lo)
    ensures AllFrom(bs[1..], lo + HEADER) && AllFrom(bs[1..], End(bs[0]))
    ensures lo + HEADER <= hi && End(bs[0]) <= hi
    ensures forall b :: b in bs ==> b.addr + HEADER <= hi
  {
    forall b | b in bs ensures b.addr >= lo && b.addr + HEADER <= hi {
      var k :| 0 <= k < |bs| && bs[k] == b;
      Inside(bs, lo, hi, k);
    }
    forall b | b in bs[1..] ensures b.addr >= End(bs[0]) {
      var k :| 0 < k < |bs| && bs[k] == b;
      Ordered(bs, lo, hi, 0, k);
    }
    Inside(bs, lo, hi, 0);
  }

  /** The blocks from index k on lie behind the first header. */
  lemma Behind(bs: seq<Block>, lo: nat, hi: nat, k: nat)
    requires Tiles(bs, lo, hi) && 0 < k <= |bs|
    ensures AllFrom(bs[k..], lo + HEADER) && bs[0].addr == lo
  {
    forall b | b in bs[k..] ensures b.addr >= lo + HEADER {
      var i :| k <= i < |bs| && bs[i] == b;
      Ordered(bs, lo, hi, 0, i);
    }
  }

  /** The header of block k. */
  lemma ChainAt(m: seq<Byte>, bs: seq<Block>, tail: nat, k: nat)
    requires Chain(m, bs, tail) && k < |bs|
    ensures HeaderAt(m, bs[k].addr) == HeaderOf(bs[k], NextOf(bs, k, tail))
    ensures Chain(m, bs[k + 1..], tail)
  {
    assert Shows(m, bs[k], NextOf(bs, k, tail));
    var rest := bs[k + 1..];
    forall i | 0 <= i < |rest| ensures Shows(m, rest[i], NextOf(rest, i, tail)) {
      assert Shows(m, bs[k + 1 + i], NextOf(bs, k + 1 + i, tail));
    }
  }

  // ----- Which bytes change -----

  ghost predicate InHeaders(heads: set<nat>, x: int) { exists a :: a in heads && a <= x < a + HEADER }

  /** Only bytes of the headers at these addresses changed. */
  ghost predicate Touched(m: seq<Byte>, w: seq<Byte>, heads: set<nat>) {
    |m| == |w| && forall x :: 0 <= x < |m| && !InHeaders(heads, x) ==> m[x] == w[x]
  }

  lemma WroteTouches(m: seq<Byte>, w: seq<Byte>, a: nat, h: Header)
    requires Wrote(m, w, a, h)
    ensures Touched(m, w, {a})
  {
    forall x | 0 <= x < |m| && !InHeaders({a}, x) ensures m[x] == w[x] {
      assert a in {a};
    }
  }

  lemma TouchedMore(m: seq<Byte>, w: seq<Byte>, heads: set<nat>, more: set<nat>)
    requires Touched(m, w, heads) && heads <= more
    ensures Touched(m, w, more)
  {
    forall x | InHeaders(heads, x) ensures InHeaders(more, x) {
      var a :| a in heads && a <= x < a + HEADER;
      assert a in more;
    }
  }

  lemma TouchedTwice(m: seq<Byte>, v: seq<Byte>, w: seq<Byte>, heads: set<nat>)
    requires Touched(m, v, heads) && Touched(v, w, heads)
    ensures Touched(m, w, heads)
  {}

  function Heads(bs: seq<Block>): set<nat> { set b | b in bs :: b.addr }

  /** A stretch of memory that lies behind the header of one block and before the end of it is in no header. */
  lemma PayloadKept(m: seq<Byte>, w: seq<Byte>, bs: seq<Block>, lo: nat, hi: nat, b: Block)
    requires Tiles(bs, lo, hi) && b in bs && Touched(m, w, Heads(bs))
    ensures SameOn(m, w, b.addr + HEADER, End(b))
  {
    var k :| 0 <= k < |bs| && bs[k] == b;
    forall x | b.addr + HEADER <= x < End(b) && x < |m| ensures m[x] == w[x] {
      if InHeaders(Heads(bs), x) {
        var a :| a in Heads(bs) && a <= x < a + HEADER;
        var c :| c in bs && c.addr == a;
        var i :| 0 <= i < |bs| && bs[i] == c;
        if i < k { Ordered(bs, lo, hi, i, k); } else if i > k { Ordered(bs, lo, hi, k, i); }
        assert false;
      }
    }
  }

  // ----- The walk of defrag_blocks over stored back links -----

  /** The two headers at a and b do not overlap. */
  predicate Clear(a: nat, b: nat) { a + HEADER <= b || b + HEADER <= a }

  /** From back link p, the loop that merges `blk` backwards visits exactly the addresses in walk and stops:
  each is that of a valid free header, and the last link is null or leads to no such header. */
  ghost predicate BackWalk(m: seq<Byte>, blk: nat, p: nat, walk: seq<nat>)
    decreases walk
  {
    && (p != 0 ==> p + HEADER <= |m| && Clear(p, blk))
    && (if walk == [] then !(IsValid(m, p) && IsFree(m, p))
        else p == walk[0] && IsValid(m, p) && IsFree(m, p) && BackWalk(m, blk, HeaderAt(m, p).prev, walk[1..]))
  }

  function WalkSize(m: seq<Byte>, walk: seq<nat>): nat {
    if walk == [] then 0 else HeaderAt(m, walk[0]).size + WalkSize(m, walk[1..])
  }

  function WalkEnd(m: seq<Byte>, p: nat, walk: seq<nat>): nat
    decreases walk
  {
    if walk == [] then p else WalkEnd(m, HeaderAt(m, p).prev, walk[1..])
  }

  /** The i-th link of a walk from back link p on. */
  function LinkAt(m: seq<Byte>, p: nat, walk: seq<nat>, i: nat): nat
    requires i <= |walk|
  {
    if i == 0 then p else HeaderAt(m, walk[i - 1]).prev
  }

  /** Where the loop may look at the link. */
  predicate InReach(m: seq<Byte>, blk: nat, p: nat) { p != 0 ==> p + HEADER <= |m| && Clear(p, blk) }

  /** The loop goes from link to link as long as each leads to a valid free header, and no further. */
  lemma {:induction false} BackWalkMeaning(m: seq<Byte>, blk: nat, p: nat, walk: seq<nat>)
    ensures BackWalk(m, blk, p, walk) <==>
            (&& (forall i: nat :: i <= |walk| ==> InReach(m, blk, LinkAt(m, p, walk, i)))
             && (forall i: nat :: i < |walk| ==> Follows(m, p, walk, i))
             && !(IsValid(m, LinkAt(m, p, walk, |walk|)) && IsFree(m, LinkAt(m, p, walk, |walk|))))
    decreases walk
  {
    hide HeaderAt;
    assert LinkAt(m, p, walk, 0) == p;
    if walk != [] {
      var q, rest := HeaderAt(m, walk[0]).prev, walk[1..];
      BackWalkMeaning(m, blk, q, rest);
      LaterReach(m, blk, p, q, walk);
      LaterSteps(m, p, q, walk);
      assert LinkAt(m, p, walk, |walk|) == LinkAt(m, q, rest, |rest|);
    }
  }

  /** The loop may look at all links when it may look at the first and at those behind. */
  lemma LaterReach(m: seq<Byte>, blk: nat, p: nat, q: nat, walk: seq<nat>)
    requires walk != [] && q == HeaderAt(m, walk[0]).prev
    ensures (forall i: nat :: i <= |walk| ==> InReach(m, blk, LinkAt(m, p, walk, i))) <==>
            (&& InReach(m, blk, p)
             && (forall i: nat :: i < |walk| ==> InReach(m, blk, LinkAt(m, q, walk[1..], i))))
  {
    hide HeaderAt, InReach;
    forall i: nat | i < |walk| ensures LinkAt(m, q, walk[1..], i) == LinkAt(m, p, walk, i + 1) {}
    assert LinkAt(m, p, walk, 0) == p;
    if (forall i: nat :: i < |walk| ==> InReach(m, blk, LinkAt(m, q, walk[1..], i))) && InReach(m, blk, p) {
      forall i: nat | i <= |walk| ensures InReach(m, blk, LinkAt(m, p, walk, i)) {
        if i > 0 { assert InReach(m, blk, LinkAt(m, q, walk[1..], i - 1)); }
      }
    }
  }

  /** Step i of a walk from p follows its link to a valid free header. */
  predicate Follows(m: seq<Byte>, p: nat, walk: seq<nat>, i: nat)
    requires i < |walk|
  {
    walk[i] == LinkAt(m, p, walk, i) && IsValid(m, walk[i]) && IsFree(m, walk[i])
  }

  lemma LaterSteps(m: seq<Byte>, p: nat, q: nat, walk: seq<nat>)
    requires walk != [] && q == HeaderAt(m, walk[0]).prev
    ensures (forall i: nat :: i < |walk| ==> Follows(m, p, walk, i)) <==>
            (&& walk[0] == p && IsValid(m, p) && IsFree(m, p)
             && (forall i: nat :: i < |walk| - 1 ==> Follows(m, q, walk[1..], i)))
  {
    hide HeaderAt, IsValid, IsFree;
    forall i: nat | i < |walk| - 1 ensures Follows(m, q, walk[1..], i) <==> Follows(m, p, walk, i + 1) {
      assert LinkAt(m, q, walk[1..], i) == LinkAt(m, p, walk, i + 1);
    }
    assert Follows(m, p, walk, 0) <==> walk[0] == p && IsValid(m, p) && IsFree(m, p);
    if Follows(m, p, walk, 0) && forall i: nat :: i < |walk| - 1 ==> Follows(m, q, walk[1..], i) {
      forall i: nat | i < |walk| ensures Follows(m, p, walk, i) {
        if i > 0 { assert Follows(m, q, walk[1..], i - 1); }
      }
    }
  }

  function SizesAlong(m: seq<Byte>, walk: seq<nat>): (r: seq<nat>)
    ensures |r| == |walk| && forall i :: 0 <= i < |r| ==> r[i] == HeaderAt(m, walk[i]).size
  {
    seq<nat>(|walk|, i requires 0 <= i < |walk| => HeaderAt(m, walk[i]).size)
  }

  /** It adds the size of every header that it visits, once, and stops at the link of the last one. */
  lemma {:induction false} WalkTotals(m: seq<Byte>, p: nat, walk: seq<nat>)
    ensures WalkSize(m, walk) == Sum(SizesAlong(m, walk))
    ensures (forall i: nat :: i < |walk| ==> walk[i] == LinkAt(m, p, walk, i)) ==>
            WalkEnd(m, p, walk) == LinkAt(m, p, walk, |walk|)
    decreases walk
  {
    hide HeaderAt;
    if walk != [] {
      var q, rest := HeaderAt(m, walk[0]).prev, walk[1..];
      WalkTotals(m, q, rest);
      assert SizesAlong(m, walk)[1..] == SizesAlong(m, rest);
      if forall i: nat :: i < |walk| ==> walk[i] == LinkAt(m, p, walk, i) {
        assert walk[0] == LinkAt(m, p, walk, 0);
        forall i: nat | i < |rest| ensures rest[i] == LinkAt(m, q, rest, i) {
          assert walk[i + 1] == LinkAt(m, p, walk, i + 1);
        }
      }
    }
  }

  /** Writing the header of blk does not disturb the walk. */
  lemma {:induction false} BackWalkSame(m: seq<Byte>, w: seq<Byte>, blk: nat, p: nat, walk: seq<nat>)
    requires BackWalk(m, blk, p, walk) && SameOn(m, w, 0, blk) && SameOn(m, w, blk + HEADER, |m|)
    ensures BackWalk(w, blk, p, walk) && WalkSize(w, walk) == WalkSize(m, walk)
    ensures WalkEnd(w, p, walk) == WalkEnd(m, p, walk)
    decreases walk
  {
    hide HeaderAt;
    if p != 0 { HeaderSame(m, w, p); }
    if walk != [] { BackWalkSame(m, w, blk, HeaderAt(m, p).prev, walk[1..]); }
  }
}
