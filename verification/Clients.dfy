/** Whole runs on bytes: calls of malloc, free and realloc alternate with the client's own stores. When the heap
stays valid, and what a client finds in its payloads.
*/
module Clients {
  import opened Options
  import opened Bytes
  import opened Blocks
  import opened Chains
  import opened Requests
  import opened Heaps
  import Allocator

  /** What a client may rely on at each address it holds: the bytes it stored or that realloc carried over. A
  byte is None until it is stored to. */
  type Contents = map<nat, seq<Option<Byte>>>

  function LedgerOf(k: Contents): Ledger { map a | a in k :: |k[a]| }

  function Unknown(size: nat): (s: seq<Option<Byte>>)
    ensures |s| == size && forall x :: 0 <= x < size ==> s[x] == None
  {
    seq(size, x => None)
  }

  /** A payload cut or extended to a new size. */
  function Fitted(s: seq<Option<Byte>>, size: nat): (r: seq<Option<Byte>>)
    ensures |r| == size
    ensures forall x :: 0 <= x < size ==> r[x] == if x < |s| then s[x] else None
  {
    if size <= |s| then s[..size] else s + Unknown(size - |s|)
  }

  /** What the client may rely on after a call that returned p. */
  function After(k: Contents, q: Request, p: nat): Contents {
    match q
    case MallocOf(size) => if p == 0 then k else k[p := Unknown(size)]
    case FreeOf(a) => k - {a}
    case ReallocOf(a, size) =>
      if a != 0 && size == 0 then k - {a}
      else if p == 0 then k
      else (k - {a})[p := Fitted(if a in k then k[a] else [], size)]
  }

  /** A call changes nothing about addresses that it does not name. The block that malloc returned is unknown all
  over; the one that realloc returned begins with what the old one held, up to the smaller size. */
  lemma AfterMeaning(k: Contents, q: Request, p: nat)
    ensures forall c :: c in k && c != p && (q.MallocOf? || c != q.addr) ==>
      c in After(k, q, p) && After(k, q, p)[c] == k[c]
    ensures q.MallocOf? && p != 0 ==> p in After(k, q, p) && After(k, q, p)[p] == Unknown(q.size)
    ensures q.FreeOf? ==> q.addr !in After(k, q, p)
    ensures q.ReallocOf? && q.addr != 0 && q.size == 0 ==> q.addr !in After(k, q, p)
    ensures q.ReallocOf? && q.size > 0 && p == 0 ==> After(k, q, p) == k
    ensures q.ReallocOf? && q.size > 0 && p != 0 && q.addr in k ==>
      && p in After(k, q, p) && |After(k, q, p)[p]| == q.size && (q.addr != p ==> q.addr !in After(k, q, p))
      && (forall x :: 0 <= x < q.size ==> After(k, q, p)[p][x] == if x < |k[q.addr]| then k[q.addr][x] else None)
  {}

  /** And after it stored bytes of its own. */
  function Overwritten(s: seq<Option<Byte>>, at: nat, bytes: seq<Byte>): (r: seq<Option<Byte>>)
    requires at + |bytes| <= |s|
    ensures |r| == |s|
    ensures forall x :: 0 <= x < |s| ==> r[x] == if at <= x < at + |bytes| then Some(bytes[x - at]) else s[x]
  {
    seq(|s|, x requires 0 <= x < |s| => if at <= x < at + |bytes| then Some(bytes[x - at]) else s[x])
  }

  /** The bytes at a are those the client relies on. */
  ghost predicate Remembers(m: seq<Byte>, a: nat, s: seq<Option<Byte>>) {
    forall x :: 0 <= x < |s| && s[x].Some? ==> a + x < |m| && m[a + x] == s[x].value
  }

  ghost predicate Content(m: seq<Byte>, k: Contents) { forall a :: a in k ==> Remembers(m, a, k[a]) }

  /** The invariant of a run: memory shows the blocks, those in use are the client's, and its bytes are there. */
  ghost predicate Kept(m: seq<Byte>, bs: seq<Block>, lo: nat, hi: nat, k: Contents) {
    Runs(m, bs, lo, hi) && Agree(Live(bs), LedgerOf(k)) && Content(m, k)
  }

  // ----- One call -----

  /** The backward loop takes this walk when the request frees a block; and where realloc moves the block, what it
  copies fits the new one. */
  ghost predicate WalkOf(m: seq<Byte>, bs: seq<Block>, q: Request, walk: seq<nat>) {
    Frees(bs, q) ==>
      if q.ReallocOf? && q.size > 0 then MayMoveFrom(m, bs, Allocator.Holder(bs, q.addr).value, q.size, walk)
      else BackWalk(m, BlockOf(q.addr), LinkOf(bs, q.addr), walk)
  }

  /** The request with what the loop finds. */
  ghost function CallOf(m: seq<Byte>, bs: seq<Block>, q: Request, walk: seq<nat>): Call {
    Call(q, if q.MallocOf? then Allocator.Back(0, 0) else BackAlong(m, LinkOf(bs, q.addr), walk))
  }

  /** What a call leaves: a chain of headers that shows the list Perform computes, in memory of which only headers
  were written, unless realloc moved the block. */
  ghost predicate Served(m: seq<Byte>, bs: seq<Block>, q: Request, walk: seq<nat>, p: nat, w: seq<Byte>,
                         f: seq<Block>) {
    && |w| == |m| && Chain(w, f, 0) && Allocator.Outcome(f, p) == Perform(bs, CallOf(m, bs, q, walk))
    && match q
       case MallocOf(_) => Touched(m, w, Heads(f))
       case FreeOf(_) => Touched(m, w, Heads(f))
       case ReallocOf(a, size) => Bytewise(m, w, bs, f, a, size, p)
  }

  /** The size asked for fits a word with a header. */
  predicate FitsWord(q: Request) { q.FreeOf? || HEADER + q.size < WORD }

  /** Heap serves a request so. */
  method Serve(h: Heap, q: Request, ghost walk: seq<nat>) returns (p: nat)
    requires h.Valid() && h.blocks != [] && FitsWord(q) && WalkOf(h.ram[..], h.blocks, q, walk)
    requires !q.MallocOf? ==> h.Known(q.addr)
    modifies h.ram, h`blocks
    ensures Served(old(h.ram[..]), old(h.blocks), q, walk, p, h.ram[..], h.blocks)
    ensures h.Valid() <==> AddsNothing(old(h.blocks), CallOf(old(h.ram[..]), old(h.blocks), q, walk))
  {
    hide Runs, HeaderAt, Touched, Heads, Bytewise, BackWalk, Chain, Allocator.Malloc, Allocator.Free,
      Allocator.Resize, WalkSize, WalkEnd, MayMoveFrom, Allocator.Moves, Allocator.InUse;
    ghost var m, bs := h.ram[..], h.blocks;
    FreeOfNull(bs);
    match q
    case MallocOf(size) =>
      p := h.Malloc(size);
      ChainOf(h.ram[..], h.blocks, h.heapStart, h.heapEnd);
      Allocator.MallocOfNothing(bs);
    case FreeOf(a) =>
      h.Free(a, walk);
      p := 0;
    case ReallocOf(a, size) =>
      Allocator.MallocOfNothing(bs);
      p := h.Realloc(a, size, walk);
  }

  lemma FreeOfNull(bs: seq<Block>)
    ensures !Allocator.InUse(bs, 0)
  {}

  /** A block whose back link is null or leads to a block in use when it is freed leaves the loop nothing to walk,
  whatever else is in memory. */
  lemma AnchoredWalks(m: seq<Byte>, bs: seq<Block>, lo: nat, hi: nat, q: Request)
    requires Runs(m, bs, lo, hi) && LinksBack(bs) && AnchoredRequest(bs, q)
    requires q.ReallocOf? ==>
             var h := Allocator.Holder(bs, q.addr);
             h.Some? && Allocator.Moves(bs, h.value, q.size) ==> Allocator.CopyFits(bs, h.value, q.size)
    ensures WalkOf(m, bs, q, [])
  {
    hide Runs, BackWalk, Allocator.Moves, Allocator.CopyFits, WalkAround, Allocator.Choice, Allocator.Filled,
      Allocator.Anchored;
    if Frees(bs, q) {
      var i := Allocator.Holder(bs, q.addr).value;
      if q.ReallocOf? && q.size > 0 { AnchoredMove(m, bs, lo, hi, i, q.size); } else { AnchoredWalk(m, bs, lo, hi, i); }
    }
  }

  // ----- What stays in the payloads -----

  lemma Still(m: seq<Byte>, w: seq<Byte>, a: nat, s: seq<Option<Byte>>, hi: nat)
    requires Remembers(m, a, s) && SameOn(m, w, a, hi) && a + |s| <= hi
    ensures Remembers(w, a, s)
  {}

  /** Writing headers only leaves what the client relies on in a block that is still listed. */
  lemma HeadersLeave(m: seq<Byte>, w: seq<Byte>, f: seq<Block>, lo: nat, hi: nat, b: Block, s: seq<Option<Byte>>)
    requires Tiles(f, lo, hi) && b in f && Touched(m, w, Heads(f)) && HEADER + |s| <= b.size
    requires Remembers(m, b.addr + HEADER, s)
    ensures Remembers(w, b.addr + HEADER, s)
  {
    PayloadKept(m, w, f, lo, hi, b);
    hide Tiles, Touched, Heads;
    Still(m, w, b.addr + HEADER, s, End(b));
  }

  /** Every address that stays held keeps its bytes, when only headers were written. */
  lemma HeldLeft(m: seq<Byte>, bs: seq<Block>, w: seq<Byte>, f: seq<Block>, lo: nat, hi: nat, k: Contents, gone: nat)
    requires Kept(m, bs, lo, hi, k) && Tiles(f, lo, hi) && Touched(m, w, Heads(f))
    requires forall b :: b in Live(bs) && b.addr + HEADER != gone ==> b in f
    ensures Content(w, k - {gone})
  {
    hide Tiles, Touched, Heads, Remembers, Chain, Agree, Live;
    forall a | a in k - {gone} ensures Remembers(w, a, k[a]) {
      var b := HeldBlock(bs, LedgerOf(k), a);
      HeadersLeave(m, w, f, lo, hi, b, k[a]);
    }
  }

  lemma NewUnknown(m: seq<Byte>, p: nat, size: nat)
    ensures Remembers(m, p, Unknown(size))
  {}

  /** A call that writes headers only keeps the invariant. */
  lemma HeadersKeep(m: seq<Byte>, bs: seq<Block>, lo: nat, hi: nat, k: Contents, size: nat, p: nat, w: seq<Byte>,
                    f: seq<Block>)
    requires Kept(m, bs, lo, hi, k) && Tiles(f, lo, hi) && Touched(m, w, Heads(f))
    requires Allocator.Malloc(bs, size) == Allocator.Outcome(f, p)
    ensures Content(w, if p == 0 then k else k[p := Unknown(size)])
  {
    hide Tiles, Touched, Heads, Remembers, Chain, Agree, Allocator.Malloc, Allocator.NoRoom, Allocator.Holds;
    Allocator.MallocOfNothing(bs);
    if size > 0 { var _ := Allocator.MallocContract(bs, lo, hi, size); }
    assert forall b :: b in Live(bs) ==> b in Live(f);
    LiveListed(f);
    hide Live;
    NullIsNotHeld(bs, LedgerOf(k));
    assert k - {0} == k;
    HeldLeft(m, bs, w, f, lo, hi, k, 0);
    NewUnknown(w, p, size);
  }

  lemma LiveListed(f: seq<Block>)
    ensures forall b :: b in Live(f) ==> b in f
  {}

  lemma FreeLeaves(m: seq<Byte>, bs: seq<Block>, lo: nat, hi: nat, k: Contents, a: nat, back: Allocator.Back,
                   w: seq<Byte>, f: seq<Block>)
    requires Kept(m, bs, lo, hi, k) && Tiles(f, lo, hi) && Touched(m, w, Heads(f)) && 0 < lo && hi < WORD
    requires Allocator.Free(bs, a, back) == f
    ensures Content(w, k - {a})
  {
    hide Tiles, Touched, Heads, Remembers, Chain, Agree, Allocator.Free, Allocator.InUse, Live;
    Allocator.FreeContract(bs, lo, hi, a, back);
    LiveListed(f);
    assert forall b :: b in Live(bs) && b.addr + HEADER != a ==> b in Live(f);
    HeldLeft(m, bs, w, f, lo, hi, k, a);
  }

  lemma OthersLeave(m: seq<Byte>, bs: seq<Block>, lo: nat, hi: nat, k: Contents, i: nat, w: seq<Byte>)
    requires Kept(m, bs, lo, hi, k) && OthersKept(m, w, bs, i) && !bs[i].free
    ensures Content(w, k - {bs[i].addr + HEADER})
  {
    hide Runs, Remembers, Agree, Live;
    forall c | c in k - {bs[i].addr + HEADER} ensures Remembers(w, c, k[c]) {
      var d := HeldBlock(bs, LedgerOf(k), c);
      Still(m, w, c, k[c], End(d));
    }
  }

  /** The payload that realloc returns begins with what the client relied on before. */
  lemma CarriedOver(m: seq<Byte>, w: seq<Byte>, was: Block, b: Block, s: seq<Option<Byte>>, size: nat)
    requires Remembers(m, was.addr + HEADER, s) && HEADER + |s| <= was.size && HEADER + size <= b.size && End(b) <= |w|
    requires PayloadOf(m, w, was, b, b.addr) && b.addr != 0
    ensures Remembers(w, b.addr + HEADER, Fitted(s, size))
  {
    var r := Fitted(s, size);
    forall x | 0 <= x < |r| && r[x].Some? ensures w[b.addr + HEADER + x] == r[x].value {
      assert s[x].Some?;
    }
  }

  lemma FailedLeaves(m: seq<Byte>, w: seq<Byte>, was: Block, b: Block, s: seq<Option<Byte>>)
    requires Remembers(m, was.addr + HEADER, s) && HEADER + |s| <= was.size && PayloadOf(m, w, was, b, 0)
    ensures Remembers(w, was.addr + HEADER, s)
  {
    Still(m, w, was.addr + HEADER, s, End(was));
  }

  /** The bytes s that the client relied on are carried over, or still there when realloc fails. */
  lemma ResizedPayload(m: seq<Byte>, bs: seq<Block>, lo: nat, hi: nat, i: nat, size: nat, back: Allocator.Back, p: nat,
                       w: seq<Byte>, f: seq<Block>, s: seq<Option<Byte>>)
    requires Tiles(bs, lo, hi) && 0 < lo && hi < WORD && i < |bs| && !bs[i].free && size > 0
    requires Tiles(f, lo, hi) && hi < |w|
    requires Remembers(m, bs[i].addr + HEADER, s) && HEADER + |s| <= bs[i].size
    requires Allocator.Outcome(f, p) == Allocator.Resize(bs, i, size, back)
    requires ResizeDone(m, w, bs, f, i, if p < HEADER then 0 else p - HEADER)
    ensures OthersKept(m, w, bs, i)
    ensures if p == 0 then Remembers(w, bs[i].addr + HEADER, s) else Remembers(w, p, Fitted(s, size))
  {
    hide Tiles, Remembers, Live, ResizeDone, Allocator.Resize, PayloadOf, OthersKept, Allocator.Apart,
      Allocator.Moves;
    var blk := if p < HEADER then 0 else p - HEADER;
    var d := Allocator.ResizeContract(bs, lo, hi, i, size, back);
    Listed(f, bs, i, d);
    if p != 0 { InHeap(f, lo, hi, d); }
    var b := ReallocPayload(m, w, bs, f, lo, hi, i, size, back, blk);
    if p == 0 {
      FailedLeaves(m, w, bs[i], b, s);
    } else {
      SameBlock(f, lo, hi, b, d, m, w, bs[i], blk);
      CarriedOver(m, w, bs[i], b, s, size);
    }
  }

  lemma ResizeLeaves(m: seq<Byte>, bs: seq<Block>, lo: nat, hi: nat, k: Contents, i: nat, size: nat,
                     back: Allocator.Back, p: nat, w: seq<Byte>, f: seq<Block>)
    requires Kept(m, bs, lo, hi, k) && i < |bs| && !bs[i].free && size > 0 && Runs(w, f, lo, hi)
    requires bs[i].addr + HEADER in k && HEADER + |k[bs[i].addr + HEADER]| <= bs[i].size
    requires Allocator.Outcome(f, p) == Allocator.Resize(bs, i, size, back)
    requires ResizeDone(m, w, bs, f, i, if p < HEADER then 0 else p - HEADER)
    ensures Content(w, After(k, ReallocOf(bs[i].addr + HEADER, size), p))
  {
    hide Tiles, Chain, Remembers, Agree, Live, ResizeDone, Allocator.Resize, OthersKept;
    var a := bs[i].addr + HEADER;
    assert Remembers(m, a, k[a]);
    hide Content;
    ResizedPayload(m, bs, lo, hi, i, size, back, p, w, f, k[a]);
    OthersLeave(m, bs, lo, hi, k, i, w);
    if p == 0 {
      assert (k - {a})[a := k[a]] == k;
      ContentWith(w, k - {a}, a, k[a]);
    } else {
      ContentWith(w, k - {a}, p, Fitted(k[a], size));
    }
  }

  lemma ContentWith(w: seq<Byte>, k: Contents, p: nat, s: seq<Option<Byte>>)
    requires Content(w, k) && Remembers(w, p, s)
    ensures Content(w, k[p := s])
  {}

  lemma Listed(f: seq<Block>, bs: seq<Block>, i: nat, d: Block)
    requires i < |bs| && Live(f) == Live(bs) - {bs[i]} + {d}
    ensures d in f && !d.free
  {
    assert d in Live(f);
  }

  lemma InHeap(f: seq<Block>, lo: nat, hi: nat, d: Block)
    requires Tiles(f, lo, hi) && d in f
    ensures lo <= d.addr && End(d) <= hi
  {
    var i := IndexOf(f, d);
    Inside(f, lo, hi, i);
  }

  lemma SameBlock(f: seq<Block>, lo: nat, hi: nat, b: Block, d: Block, m: seq<Byte>, w: seq<Byte>, was: Block, p: nat)
    requires Tiles(f, lo, hi) && b in Live(f) && d in f && PayloadOf(m, w, was, b, p) && p != 0 && d.addr == p
    ensures b == d && b.addr == p
  {
    Allocator.OneAt(f, lo, hi, b, d);
  }

  /** Every call keeps the heap valid exactly when the backward loop adds nothing to a block that it frees. Then
  the client finds what it relied on before in each payload it still holds. */
  lemma ServeKeeps(m: seq<Byte>, bs: seq<Block>, lo: nat, hi: nat, k: Contents, q: Request, walk: seq<nat>, p: nat,
                   w: seq<Byte>, f: seq<Block>)
    requires Kept(m, bs, lo, hi, k) && Served(m, bs, q, walk, p, w, f) && Proper(LedgerOf(k), q)
    ensures Runs(w, f, lo, hi) <==> AddsNothing(bs, CallOf(m, bs, q, walk))
    ensures Runs(w, f, lo, hi) ==> Kept(w, f, lo, hi, After(k, q, p))
  {
    hide Tiles, Chain, Touched, Heads, Content, Agree, Live, Proper, AddsNothing, Bytewise, Book, LedgerOf, After,
      Perform, CallOf;
    var c := CallOf(m, bs, q, walk);
    RequestOf(m, bs, q, walk);
    PerformKeeps(bs, lo, hi, LedgerOf(k), c);
    NullIsNotHeld(bs, LedgerOf(k));
    LedgerAfter(k, q, p);
    if Tiles(f, lo, hi) { ContentAfter(m, bs, lo, hi, k, q, walk, p, w, f); }
  }

  lemma RequestOf(m: seq<Byte>, bs: seq<Block>, q: Request, walk: seq<nat>)
    ensures CallOf(m, bs, q, walk).request == q
  {}

  lemma LedgerAfter(k: Contents, q: Request, p: nat)
    requires Proper(LedgerOf(k), q) && 0 !in LedgerOf(k)
    ensures LedgerOf(After(k, q, p)) == Book(LedgerOf(k), q, p)
  {}

  lemma ContentAfter(m: seq<Byte>, bs: seq<Block>, lo: nat, hi: nat, k: Contents, q: Request, walk: seq<nat>, p: nat,
                     w: seq<Byte>, f: seq<Block>)
    requires Kept(m, bs, lo, hi, k) && Served(m, bs, q, walk, p, w, f) && Proper(LedgerOf(k), q) && Tiles(f, lo, hi)
    ensures Content(w, After(k, q, p))
  {
    hide Tiles, Chain, Touched, Heads, Content, Agree, Live, Allocator.Malloc, Allocator.Free, Allocator.Resize,
      ResizeDone, BackAlong;
    var back := CallOf(m, bs, q, walk).back;
    match q
    case MallocOf(size) => HeadersKeep(m, bs, lo, hi, k, size, p, w, f);
    case FreeOf(a) => FreeLeaves(m, bs, lo, hi, k, a, back, w, f);
    case ReallocOf(a, size) =>
      NullNotKept(bs, k);
      if a == 0 {
        HeadersKeep(m, bs, lo, hi, k, size, p, w, f);
        assert k - {0} == k && Fitted([], size) == Unknown(size);
      } else if size == 0 {
        FreeLeaves(m, bs, lo, hi, k, a, back, w, f);
      } else {
        var i := Held(bs, lo, hi, LedgerOf(k), a);
        RoomOfHeld(bs, lo, hi, k, i);
        ResizeLeaves(m, bs, lo, hi, k, i, size, back, p, w, f);
      }
  }

  lemma NullNotKept(bs: seq<Block>, k: Contents)
    requires Agree(Live(bs), LedgerOf(k))
    ensures 0 !in k
  {
    NullIsNotHeld(bs, LedgerOf(k));
  }

  lemma RoomOfHeld(bs: seq<Block>, lo: nat, hi: nat, k: Contents, i: nat)
    requires Tiles(bs, lo, hi) && Agree(Live(bs), LedgerOf(k)) && i < |bs| && bs[i].addr + HEADER in k
    requires !bs[i].free
    ensures bs[i].addr + HEADER in k && HEADER + |k[bs[i].addr + HEADER]| <= bs[i].size
  {
    hide Tiles;
    assert bs[i] in Live(bs);
    Booking(Live(bs), LedgerOf(k), bs[i]);
  }

  // ----- The client's stores -----

  /** The client stores bytes from offset `at` on in the payload at a. */
  ghost predicate Stores(m: seq<Byte>, w: seq<Byte>, a: nat, at: nat, bytes: seq<Byte>) {
    && |m| == |w| && a + at + |bytes| <= |w| && w[a + at..a + at + |bytes|] == bytes
    && SameOn(m, w, 0, a + at) && SameOn(m, w, a + at + |bytes|, |m|)
  }

  /** A store within a payload the client holds keeps the invariant. */
  lemma StoreKeeps(m: seq<Byte>, bs: seq<Block>, lo: nat, hi: nat, k: Contents, a: nat, at: nat, bytes: seq<Byte>,
                   w: seq<Byte>)
    requires Kept(m, bs, lo, hi, k) && a in k && at + |bytes| <= |k[a]| && Stores(m, w, a, at, bytes)
    ensures Kept(w, bs, lo, hi, k[a := Overwritten(k[a], at, bytes)])
  {
    hide Runs, Agree, Live, Remembers, Stores;
    var b := HeldBlock(bs, LedgerOf(k), a);
    StoreInPayload(m, w, a, at, bytes, b);
    PayloadWrites(m, w, bs, lo, hi, b);
    assert LedgerOf(k[a := Overwritten(k[a], at, bytes)]) == LedgerOf(k);
    StoredAt(m, w, a, at, bytes, k[a]);
    forall c | c in k && c != a ensures Remembers(w, c, k[c]) {
      StoredApart(m, bs, lo, hi, k, a, at, bytes, w, c);
    }
  }

  lemma StoreInPayload(m: seq<Byte>, w: seq<Byte>, a: nat, at: nat, bytes: seq<Byte>, b: Block)
    requires Stores(m, w, a, at, bytes) && b.addr + HEADER == a && HEADER + at + |bytes| <= b.size
    ensures InPayload(m, w, b)
  {}

  lemma StoredAt(m: seq<Byte>, w: seq<Byte>, a: nat, at: nat, bytes: seq<Byte>, s: seq<Option<Byte>>)
    requires Stores(m, w, a, at, bytes) && at + |bytes| <= |s| && Remembers(m, a, s)
    ensures Remembers(w, a, Overwritten(s, at, bytes))
  {
    var r := Overwritten(s, at, bytes);
    forall x | 0 <= x < |r| && r[x].Some? ensures a + x < |w| && w[a + x] == r[x].value {
      if at <= x < at + |bytes| {
        assert w[a + x] == w[a + at..a + at + |bytes|][x - at];
      } else {
        assert s[x].Some?;
      }
    }
  }

  lemma StoredApart(m: seq<Byte>, bs: seq<Block>, lo: nat, hi: nat, k: Contents, a: nat, at: nat, bytes: seq<Byte>,
                    w: seq<Byte>, c: nat)
    requires Kept(m, bs, lo, hi, k) && a in k && at + |bytes| <= |k[a]| && Stores(m, w, a, at, bytes) && c in k
    requires c != a
    ensures Remembers(w, c, k[c])
  {
    hide Tiles, Chain, Agree, Live, Remembers;
    HeldApart(bs, lo, hi, LedgerOf(k), a, c);
    Still(m, w, c, k[c], c + |k[c]|);
  }

  // ----- Runs -----

  datatype Event =
    | Called(request: Request, walk: seq<nat>, result: nat)
    | Stored(a: nat, at: nat, bytes: seq<Byte>)

  datatype Snapshot = Snapshot(ram: seq<Byte>, blocks: seq<Block>)

  /** What Serve promises of a call, or a store of the client's within a payload that it holds. */
  ghost predicate Happens(s: Snapshot, e: Event, t: Snapshot, k: Contents) {
    match e
    case Called(q, walk, p) =>
      && Proper(LedgerOf(k), q) && WalkOf(s.ram, s.blocks, q, walk)
      && Served(s.ram, s.blocks, q, walk, p, t.ram, t.blocks)
    case Stored(a, at, bytes) =>
      a in k && at + |bytes| <= |k[a]| && Stores(s.ram, t.ram, a, at, bytes) && s.blocks == t.blocks
  }

  /** What the client may rely on after an event. */
  function Next(k: Contents, e: Event): Contents {
    match e
    case Called(q, _, p) => After(k, q, p)
    case Stored(a, at, bytes) =>
      if a in k && at + |bytes| <= |k[a]| then k[a := Overwritten(k[a], at, bytes)] else k
  }

  function Finally(k: Contents, es: seq<Event>): Contents
    decreases |es|
  {
    if es == [] then k else Finally(Next(k, es[0]), es[1..])
  }

  ghost predicate ValidAt(s: Snapshot, lo: nat, hi: nat) { Runs(s.ram, s.blocks, lo, hi) }

  /** The snapshots ss between the events es of a run. Nothing is said of what follows on a heap that is not
  valid any more. */
  ghost predicate Trace(ss: seq<Snapshot>, es: seq<Event>, lo: nat, hi: nat, k: Contents)
    decreases |es|
  {
    && |ss| == |es| + 1
    && (es == [] || !ValidAt(ss[0], lo, hi)
        || (Happens(ss[0], es[0], ss[1], k) && Trace(ss[1..], es[1..], lo, hi, Next(k, es[0]))))
  }

  /** The sizes along the walk of each block that is freed come to nothing in a word. */
  ghost predicate Adding0(ss: seq<Snapshot>, es: seq<Event>)
    requires |ss| == |es| + 1
    decreases |es|
  {
    es == []
    || (&& (es[0].Called? ==> AddsNothing(ss[0].blocks, CallOf(ss[0].ram, ss[0].blocks, es[0].request, es[0].walk)))
        && Adding0(ss[1..], es[1..]))
  }

  /** Whatever Serve does next, and whatever the client stores, is part of a run. */
  lemma {:induction false} TraceGrows(ss: seq<Snapshot>, es: seq<Event>, lo: nat, hi: nat, k: Contents, e: Event,
                                      t: Snapshot)
    requires Trace(ss, es, lo, hi, k) && Happens(ss[|es|], e, t, Finally(k, es))
    ensures Trace(ss + [t], es + [e], lo, hi, k) && Finally(k, es + [e]) == Next(Finally(k, es), e)
    decreases |es|
  {
    hide Happens, Next, ValidAt;
    if es == [] {
      assert ss == [ss[0]] && (ss + [t])[1..] == [t] && (es + [e])[1..] == [];
    } else {
      assert (ss + [t])[1..] == ss[1..] + [t] && (es + [e])[1..] == es[1..] + [e];
      FinallyLast(k, es, e);
      if ValidAt(ss[0], lo, hi) { TraceGrows(ss[1..], es[1..], lo, hi, Next(k, es[0]), e, t); }
    }
  }

  lemma {:induction false} FinallyLast(k: Contents, es: seq<Event>, e: Event)
    ensures Finally(k, es + [e]) == Next(Finally(k, es), e)
    decreases |es|
  {
    hide Next;
    if es == [] {
      assert (es + [e])[1..] == [];
    } else {
      assert (es + [e])[1..] == es[1..] + [e];
      FinallyLast(Next(k, es[0]), es[1..], e);
    }
  }

  /** A run may begin on a heap whose first block has just been set up, with nothing held. */
  lemma Begins(m: seq<Byte>, lo: nat, hi: nat)
    requires 0 < lo && lo + HEADER <= hi && Runs(m, Allocator.Blank(lo, hi), lo, hi)
    ensures Kept(m, Allocator.Blank(lo, hi), lo, hi, map[])
  {
    hide Runs;
    BlankAgrees(lo, hi);
    assert LedgerOf(map[]) == map[];
  }

  /** Over any run of calls and stores the heap is valid in every snapshot exactly when the sizes along the walk of
  each freed block add nothing. Then the blocks in use are the client's, and every payload that it holds has
  the bytes it stored there, carried along by realloc. */
  lemma {:induction false} TraceKeeps(ss: seq<Snapshot>, es: seq<Event>, lo: nat, hi: nat, k: Contents)
    requires Trace(ss, es, lo, hi, k) && Kept(ss[0].ram, ss[0].blocks, lo, hi, k)
    ensures (forall s :: s in ss ==> ValidAt(s, lo, hi)) <==> Adding0(ss, es)
    ensures Adding0(ss, es) ==> Kept(ss[|es|].ram, ss[|es|].blocks, lo, hi, Finally(k, es))
    decreases |es|
  {
    hide Runs, Agree, Content, Served, Proper, Stores, After, LedgerOf, AddsNothing, CallOf, WalkOf;
    assert ss == [ss[0]] + ss[1..];
    if es != [] {
      match es[0] {
        case Called(q, walk, p) =>
          ServeKeeps(ss[0].ram, ss[0].blocks, lo, hi, k, q, walk, p, ss[1].ram, ss[1].blocks);
        case Stored(a, at, bytes) =>
          StoreKeeps(ss[0].ram, ss[0].blocks, lo, hi, k, a, at, bytes, ss[1].ram);
      }
      if ValidAt(ss[1], lo, hi) {
        TraceKeeps(ss[1..], es[1..], lo, hi, Next(k, es[0]));
      }
    }
  }

  /** So it is valid throughout a run in which no freed block's back link leads to a valid free header. */
  lemma {:induction false} QuietRun(ss: seq<Snapshot>, es: seq<Event>)
    requires |ss| == |es| + 1 && forall e :: e in es && e.Called? ==> e.walk == []
    ensures Adding0(ss, es)
    decreases |es|
  {
    hide Frees;
    if es != [] {
      assert es[0] in es && forall e :: e in es[1..] ==> e in es;
      QuietRun(ss[1..], es[1..]);
    }
  }
}
