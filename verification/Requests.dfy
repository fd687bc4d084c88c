/** Whole runs of malloc, free and realloc against what their client knows.

Each call comes with what the backward loop of free found, which depends on memory; Clients takes it from there.
AnchoredRun is a condition on the lists alone under which the loop finds nothing in any memory.
*/
module Requests {
  import opened Options
  import opened Bytes
  import opened Blocks
  import opened Allocator

  datatype Request = MallocOf(size: nat) | FreeOf(addr: nat) | ReallocOf(addr: nat, size: nat)

  /** What a client knows: the addresses it was given and has not given back, with the bytes it asked for. */
  type Ledger = map<nat, nat>

  datatype Call = Call(request: Request, back: Back)

  function Perform(bs: seq<Block>, c: Call): Outcome {
    match c.request
    case MallocOf(size) => Malloc(bs, size)
    case FreeOf(a) => Outcome(Free(bs, a, c.back), 0)
    case ReallocOf(a, size) => Realloc(bs, a, size, c.back)
  }

  function Book(l: Ledger, q: Request, result: nat): Ledger {
    match q
    case MallocOf(size) => if result == 0 then l else l[result := size]
    case FreeOf(a) => l - {a}
    case ReallocOf(a, size) =>
      if a != 0 && size == 0 then l - {a}
      else if result == 0 then l
      else (l - {a})[result := size]
  }

  /** A client frees what it likes but passes to realloc only NULL or an address it holds. */
  predicate Proper(l: Ledger, q: Request) { q.ReallocOf? && q.addr != 0 ==> q.addr in l }

  /** The heap and the ledger after a run of calls; requests that are not proper are not made. */
  function Run(bs: seq<Block>, l: Ledger, cs: seq<Call>): (seq<Block>, Ledger)
    decreases |cs|
  {
    if cs == [] then (bs, l)
    else if Proper(l, cs[0].request) then
      var o := Perform(bs, cs[0]);
      Run(o.blocks, Book(l, cs[0].request, o.addr), cs[1..])
    else Run(bs, l, cs[1..])
  }

  // ----- The block that a request frees -----

  /** The request frees a block: the one named, or the old one of a realloc that moves. */
  predicate Frees(bs: seq<Block>, q: Request) {
    match q
    case MallocOf(_) => false
    case FreeOf(a) => InUse(bs, a)
    case ReallocOf(a, size) =>
      a != 0 && if size == 0 then InUse(bs, a) else var h := Holder(bs, a); h.Some? && Moves(bs, h.value, size)
  }

  /** The list of blocks when it does. */
  function AtFree(bs: seq<Block>, q: Request): seq<Block> {
    if q.ReallocOf? && q.size > 0 && Frees(bs, q) then Filled(bs, Holder(bs, q.addr).value, q.size) else bs
  }

  /** The stored back link of that block. */
  function FreedLink(bs: seq<Block>, q: Request): nat
    requires Frees(bs, q)
  {
    bs[Holder(bs, q.addr).value].prev
  }

  /** The sizes that the backward loop added come to nothing in a word. */
  predicate AddsNothing(bs: seq<Block>, c: Call) { Frees(bs, c.request) ==> c.back.total % WORD == 0 }

  predicate Harmless(bs: seq<Block>, l: Ledger, cs: seq<Call>)
    decreases |cs|
  {
    cs == [] ||
    if Proper(l, cs[0].request) then
      && AddsNothing(bs, cs[0])
      && var o := Perform(bs, cs[0]);
         Harmless(o.blocks, Book(l, cs[0].request, o.addr), cs[1..])
    else Harmless(bs, l, cs[1..])
  }

  /** The blocks tile the heap at every point of the run. */
  ghost predicate TiledThroughout(bs: seq<Block>, lo: nat, hi: nat, l: Ledger, cs: seq<Call>)
    decreases |cs|
  {
    && Tiles(bs, lo, hi)
    && (cs == [] ||
        if Proper(l, cs[0].request) then
          var o := Perform(bs, cs[0]);
          TiledThroughout(o.blocks, lo, hi, Book(l, cs[0].request, o.addr), cs[1..])
        else TiledThroughout(bs, lo, hi, l, cs[1..]))
  }

  /** The back link of the block that the request frees is null or leads to a block in use at that moment. */
  predicate AnchoredRequest(bs: seq<Block>, q: Request) { Frees(bs, q) ==> Anchored(AtFree(bs, q), FreedLink(bs, q)) }

  /** So the backward loop finds nothing and stops where it began. */
  predicate AnchoredCall(bs: seq<Block>, c: Call) {
    AnchoredRequest(bs, c.request) && (Frees(bs, c.request) ==> c.back == Back(0, FreedLink(bs, c.request)))
  }

  predicate AnchoredRun(bs: seq<Block>, l: Ledger, cs: seq<Call>)
    decreases |cs|
  {
    cs == [] ||
    if Proper(l, cs[0].request) then
      && AnchoredCall(bs, cs[0])
      && var o := Perform(bs, cs[0]);
         AnchoredRun(o.blocks, Book(l, cs[0].request, o.addr), cs[1..])
    else AnchoredRun(bs, l, cs[1..])
  }

  // ----- The ledger -----

  ghost predicate Has(live: set<Block>, a: nat) { exists b :: b in live && b.addr + HEADER == a }

  /** The ledger accounts for the block, which has room for what was asked. */
  predicate Booked(l: Ledger, b: Block) { b.addr + HEADER in l && HEADER + l[b.addr + HEADER] <= b.size }

  /** The blocks in use are exactly those in the ledger, each with room for what was asked. */
  ghost predicate Agree(live: set<Block>, l: Ledger) {
    && (forall b :: b in live ==> Booked(l, b))
    && (forall a :: a in l ==> Has(live, a))
  }

  lemma HasKept(live: set<Block>, after: set<Block>, a: nat)
    requires Has(live, a) && forall b :: b in live && b.addr + HEADER == a ==> b in after
    ensures Has(after, a)
  {
    var b :| b in live && b.addr + HEADER == a;
    assert b in after;
  }

  lemma HasMore(live: set<Block>, b: Block, a: nat)
    requires Has(live, a) || a == b.addr + HEADER
    ensures Has(live + {b}, a)
  {
    if a == b.addr + HEADER { assert b in live + {b}; } else { HasKept(live, live + {b}, a); }
  }

  lemma BookedStill(l: Ledger, c: Block, a: nat, size: nat)
    requires Booked(l, c) && c.addr + HEADER != a
    ensures Booked(l[a := size], c)
  {}

  lemma BookedNew(l: Ledger, b: Block, size: nat)
    requires HEADER + size <= b.size
    ensures Booked(l[b.addr + HEADER := size], b)
  {}

  lemma AgreeAdd(live: set<Block>, l: Ledger, b: Block, size: nat)
    requires Agree(live, l) && HEADER + size <= b.size
    requires forall c :: c in live ==> c.addr != b.addr
    ensures Agree(live + {b}, l[b.addr + HEADER := size])
  {
    hide Booked, Has;
    BookedNew(l, b, size);
    forall c | c in live ensures Booked(l[b.addr + HEADER := size], c) { BookedStill(l, c, b.addr + HEADER, size); }
    forall a | a in l[b.addr + HEADER := size] ensures Has(live + {b}, a) { HasMore(live, b, a); }
  }

  lemma AgreeRemove(live: set<Block>, l: Ledger, a: nat)
    requires Agree(live, l)
    ensures Agree(Without(live, a), l - {a})
  {
    hide Has;
    forall c | c in Without(live, a) ensures Booked(l - {a}, c) { assert Booked(l, c); }
    forall x | x in l - {a} ensures Has(Without(live, a), x) { HasKept(live, Without(live, a), x); }
  }

  lemma WithoutOne(live: set<Block>, was: Block)
    requires was in live && forall c :: c in live - {was} ==> c.addr != was.addr
    ensures Without(live, was.addr + HEADER) == live - {was}
  {}

  /** The block at one address gives way to another one, elsewhere or in place. */
  lemma AgreeReplace(live: set<Block>, l: Ledger, was: Block, b: Block, size: nat)
    requires Agree(live, l) && was in live && HEADER + size <= b.size
    requires forall c :: c in live - {was} ==> c.addr != b.addr
    requires forall c :: c in live - {was} ==> c.addr != was.addr
    ensures Agree(live - {was} + {b}, (l - {was.addr + HEADER})[b.addr + HEADER := size])
  {
    WithoutOne(live, was);
    hide Agree, Without;
    AgreeRemove(live, l, was.addr + HEADER);
    AgreeAdd(live - {was}, l - {was.addr + HEADER}, b, size);
  }

  /** The block at an address keeps it but grows. */
  lemma AgreeGrow(live: set<Block>, l: Ledger, was: Block, b: Block)
    requires Agree(live, l) && was in live && b.addr == was.addr && b.size >= was.size
    requires forall c :: c in live - {was} ==> c.addr != b.addr
    ensures Agree(live - {was} + {b}, l)
  {
    hide Agree;
    Booking(live, l, was);
    Rebook(l, was.addr + HEADER);
    AgreeReplace(live, l, was, b, l[was.addr + HEADER]);
  }

  lemma Booking(live: set<Block>, l: Ledger, b: Block)
    requires Agree(live, l) && b in live
    ensures Booked(l, b)
  {}

  lemma Rebook(l: Ledger, a: nat)
    requires a in l
    ensures (l - {a})[a := l[a]] == l
  {}

  lemma NullIsNotHeld(bs: seq<Block>, l: Ledger)
    requires Agree(Live(bs), l)
    ensures 0 !in l && l - {0} == l
  {}

  lemma HeldBlock(bs: seq<Block>, l: Ledger, a: nat) returns (b: Block)
    requires Agree(Live(bs), l) && a in l
    ensures b in Live(bs) && b in bs && !b.free && b.addr + HEADER == a && HEADER + l[a] <= b.size
  {
    assert Has(Live(bs), a);
    b :| b in Live(bs) && b.addr + HEADER == a;
    assert Booked(l, b);
  }

  /** An address in the ledger is that of one block in use. */
  lemma Held(bs: seq<Block>, lo: nat, hi: nat, l: Ledger, a: nat) returns (i: nat)
    requires Tiles(bs, lo, hi) && Agree(Live(bs), l) && a in l
    ensures i < |bs| && !bs[i].free && Holder(bs, a) == Some(i) && bs[i].addr + HEADER == a && bs[i] in Live(bs)
  {
    hide Live, Agree, Tiles;
    var b := HeldBlock(bs, l, a);
    i :| 0 <= i < |bs| && bs[i] == b;
    HolderIs(bs, lo, hi, i);
  }

  /** Two addresses a client holds are the payloads of blocks that do not overlap and lie in the heap. */
  lemma HeldApart(bs: seq<Block>, lo: nat, hi: nat, l: Ledger, a: nat, c: nat)
    requires Tiles(bs, lo, hi) && Agree(Live(bs), l) && a in l && c in l && a != c
    ensures a + l[a] + HEADER <= c || c + l[c] + HEADER <= a
    ensures lo + HEADER <= a && a + l[a] <= hi
  {
    var b := HeldBlock(bs, l, a);
    var d := HeldBlock(bs, l, c);
    hide Tiles, Agree;
    LiveApart(bs, lo, hi, b, d);
  }

  // ----- One request -----

  lemma MallocKeeps(bs: seq<Block>, lo: nat, hi: nat, l: Ledger, size: nat)
    requires Tiles(bs, lo, hi) && Agree(Live(bs), l)
    ensures Tiles(Malloc(bs, size).blocks, lo, hi)
    ensures Agree(Live(Malloc(bs, size).blocks), Book(l, MallocOf(size), Malloc(bs, size).addr))
    ensures Malloc(bs, size).addr != 0 ==> Malloc(bs, size).addr !in l
  {
    hide Tiles, Live, Agree, Malloc, NoRoom;
    if size == 0 {
      MallocOfNothing(bs);
    } else {
      var b := MallocContract(bs, lo, hi, size);
      if Malloc(bs, size).addr != 0 {
        AgreeAdd(Live(bs), l, b, size);
        NewAddress(bs, l, b);
      }
    }
  }

  lemma NewAddress(bs: seq<Block>, l: Ledger, b: Block)
    requires Agree(Live(bs), l) && forall c :: c in Live(bs) ==> b.addr != c.addr
    ensures b.addr + HEADER !in l
  {
    hide Live;
    assert !Has(Live(bs), b.addr + HEADER);
  }

  lemma ResizeKeeps(bs: seq<Block>, lo: nat, hi: nat, l: Ledger, i: nat, size: nat, back: Back)
    requires Tiles(bs, lo, hi) && hi < WORD && Agree(Live(bs), l) && size > 0
    requires i < |bs| && !bs[i].free && bs[i] in Live(bs)
    ensures Agree(Live(Resize(bs, i, size, back).blocks),
                  Book(l, ReallocOf(bs[i].addr + HEADER, size), Resize(bs, i, size, back).addr))
    ensures Tiles(Resize(bs, i, size, back).blocks, lo, hi) <==> (Moves(bs, i, size) ==> back.total % WORD == 0)
  {
    hide Tiles, Live, Agree, Resize, Moves;
    var o := Resize(bs, i, size, back);
    var b := ResizeContract(bs, lo, hi, i, size, back);
    OthersThan(bs, lo, hi, i);
    if o.addr == 0 { AgreeGrow(Live(bs), l, bs[i], b); } else { AgreeReplace(Live(bs), l, bs[i], b, size); }
  }

  /** One call keeps the agreement of heap and ledger, and it keeps the tiling exactly when the backward loop
  adds nothing to a block that it frees. */
  lemma PerformKeeps(bs: seq<Block>, lo: nat, hi: nat, l: Ledger, c: Call)
    requires Tiles(bs, lo, hi) && hi < WORD && Agree(Live(bs), l) && Proper(l, c.request)
    ensures Agree(Live(Perform(bs, c).blocks), Book(l, c.request, Perform(bs, c).addr))
    ensures Tiles(Perform(bs, c).blocks, lo, hi) <==> AddsNothing(bs, c)
  {
    hide Tiles, Live, Agree, Malloc, Free, Resize, Moves, InUse;
    match c.request
    case MallocOf(size) => MallocKeeps(bs, lo, hi, l, size);
    case FreeOf(a) => FreeKeeps(bs, lo, hi, l, a, c.back);
    case ReallocOf(a, size) =>
      if a == 0 {
        MallocKeeps(bs, lo, hi, l, size);
        NullIsNotHeld(bs, l);
      } else if size == 0 {
        FreeKeeps(bs, lo, hi, l, a, c.back);
      } else {
        var i := Held(bs, lo, hi, l, a);
        ResizeKeeps(bs, lo, hi, l, i, size, c.back);
      }
  }

  lemma FreeKeeps(bs: seq<Block>, lo: nat, hi: nat, l: Ledger, a: nat, back: Back)
    requires Tiles(bs, lo, hi) && hi < WORD && Agree(Live(bs), l)
    ensures Agree(Live(Free(bs, a, back)), l - {a})
    ensures Tiles(Free(bs, a, back), lo, hi) <==> (InUse(bs, a) ==> back.total % WORD == 0)
  {
    hide Tiles, Live, Agree, Free, InUse;
    FreeContract(bs, lo, hi, a, back);
    AgreeRemove(Live(bs), l, a);
  }

  // ----- What the client gets -----

  /** The block in use at an address holds what was asked. */
  ghost predicate HeldAt(bs: seq<Block>, a: nat, size: nat) {
    exists b :: b in Live(bs) && b.addr + HEADER == a && Holds(b, size)
  }

  /** What a client may expect of the answer to a request. */
  ghost predicate Answers(bs: seq<Block>, q: Request, o: Outcome) {
    match q
    case MallocOf(size) => AnswersMalloc(bs, size, o)
    case FreeOf(a) => !Has(Live(o.blocks), a)
    case ReallocOf(a, size) =>
      if a == 0 then AnswersMalloc(bs, size, o)
      else if size == 0 then !Has(Live(o.blocks), a)
      else
        var h := Holder(bs, a);
        h.Some? && !bs[h.value].free ==>
          && (o.addr == 0 <==> bs[h.value].size + FreeRun(bs[h.value + 1..]) < HEADER + size && NoRoom(bs, size))
          && (o.addr == a <==> bs[h.value].size + FreeRun(bs[h.value + 1..]) >= HEADER + size)
          && (o.addr != 0 && o.addr != a ==> BestAt(bs, size, o.addr))
          && (o.addr != 0 ==> HeldAt(o.blocks, o.addr, size))
  }

  ghost predicate AnswersMalloc(bs: seq<Block>, size: nat, o: Outcome) {
    if size == 0 then o == Outcome(bs, 0)
    else
      && (o.addr == 0 <==> NoRoom(bs, size))
      && (o.addr != 0 ==> BestAt(bs, size, o.addr) && HeldAt(o.blocks, o.addr, size))
  }

  lemma GivenBack(live: set<Block>, l: Ledger, a: nat)
    requires Agree(live, l - {a})
    ensures !Has(live, a)
  {}

  /** malloc and realloc give null only when they must, the best fit where they look for a block, and room for what
  was asked; free gives the block back. */
  lemma PerformAnswers(bs: seq<Block>, lo: nat, hi: nat, l: Ledger, c: Call)
    requires Tiles(bs, lo, hi) && hi < WORD && Agree(Live(bs), l) && Proper(l, c.request)
    ensures Answers(bs, c.request, Perform(bs, c))
  {
    hide Tiles, Live, Agree, Malloc, Free, Resize, InUse, Has, HeldAt, NoRoom, FreeRun, BestAt;
    match c.request
    case MallocOf(size) => MallocAnswers(bs, lo, hi, size);
    case FreeOf(a) =>
      FreeKeeps(bs, lo, hi, l, a, c.back);
      GivenBack(Live(Free(bs, a, c.back)), l, a);
    case ReallocOf(a, size) =>
      if a == 0 {
        MallocAnswers(bs, lo, hi, size);
      } else if size == 0 {
        FreeKeeps(bs, lo, hi, l, a, c.back);
        GivenBack(Live(Free(bs, a, c.back)), l, a);
      } else {
        var i := Held(bs, lo, hi, l, a);
        ResizeAnswers(bs, lo, hi, i, size, c.back);
      }
  }

  lemma MallocAnswers(bs: seq<Block>, lo: nat, hi: nat, size: nat)
    requires Tiles(bs, lo, hi)
    ensures AnswersMalloc(bs, size, Malloc(bs, size))
  {
    hide Tiles, Live, Malloc, NoRoom, BestAt;
    MallocOfNothing(bs);
    if size > 0 {
      var b := MallocContract(bs, lo, hi, size);
      if Malloc(bs, size).addr != 0 {
        MallocIsBest(bs, size);
        assert b in Live(Malloc(bs, size).blocks);
      }
    }
  }

  lemma ResizeAnswers(bs: seq<Block>, lo: nat, hi: nat, i: nat, size: nat, back: Back)
    requires Tiles(bs, lo, hi) && hi < WORD && i < |bs| && !bs[i].free && size > 0
    ensures var (o, a) := (Resize(bs, i, size, back), bs[i].addr + HEADER);
            && (o.addr == 0 <==> bs[i].size + FreeRun(bs[i + 1..]) < HEADER + size && NoRoom(bs, size))
            && (o.addr == a <==> bs[i].size + FreeRun(bs[i + 1..]) >= HEADER + size)
            && (o.addr != 0 && o.addr != a ==> BestAt(bs, size, o.addr))
            && (o.addr != 0 ==> HeldAt(o.blocks, o.addr, size))
  {
    hide Tiles, Live, Resize, NoRoom, BestAt, FreeRun, Moves;
    ReallocFails(bs, lo, hi, i, size, back);
    ReallocStays(bs, lo, hi, i, size, back);
    var o := Resize(bs, i, size, back);
    if o.addr != 0 && o.addr != bs[i].addr + HEADER { MoveIsBest(bs, lo, hi, i, size, back); }
    var b := ResizeContract(bs, lo, hi, i, size, back);
    assert b in Live(o.blocks);
  }

  // ----- Runs -----

  lemma BlankAgrees(lo: nat, hi: nat)
    requires lo + HEADER <= hi
    ensures Tiles(Blank(lo, hi), lo, hi) && LinksBack(Blank(lo, hi)) && Agree(Live(Blank(lo, hi)), map[])
  {
    LiveOne(Blank(lo, hi)[0]);
  }

  /** A run is its calls one after the other. */
  lemma {:induction false} RunLast(bs: seq<Block>, l: Ledger, cs: seq<Call>, c: Call)
    ensures var (f, k) := Run(bs, l, cs);
            Run(bs, l, cs + [c]) ==
            if Proper(k, c.request) then (Perform(f, c).blocks, Book(k, c.request, Perform(f, c).addr)) else (f, k)
    decreases |cs|
  {
    hide Perform, Book, Proper;
    if cs == [] {
      assert cs + [c] == [c] && [c][1..] == [];
    } else {
      assert (cs + [c])[1..] == cs[1..] + [c];
      if Proper(l, cs[0].request) {
        var o := Perform(bs, cs[0]);
        RunLast(o.blocks, Book(l, cs[0].request, o.addr), cs[1..], c);
      } else {
        RunLast(bs, l, cs[1..], c);
      }
    }
  }

  /** Over any run of calls the blocks tile the heap at every point exactly when the backward loop never adds
  anything to a block. Then their sizes sum to the size of the heap and the blocks in use are exactly those
  the client holds, each with room for what it asked. */
  lemma {:induction false} RunKeeps(bs: seq<Block>, lo: nat, hi: nat, l: Ledger, cs: seq<Call>)
    requires Tiles(bs, lo, hi) && hi < WORD && Agree(Live(bs), l)
    ensures TiledThroughout(bs, lo, hi, l, cs) <==> Harmless(bs, l, cs)
    ensures Harmless(bs, l, cs) ==>
      && Tiles(Run(bs, l, cs).0, lo, hi) && TotalSize(Run(bs, l, cs).0) == hi - lo
      && Agree(Live(Run(bs, l, cs).0), Run(bs, l, cs).1)
    decreases |cs|
  {
    hide Tiles, Live, Agree, Perform, Book, Proper, AddsNothing;
    if cs == [] {
      SizesSum(bs, lo, hi);
    } else if Proper(l, cs[0].request) {
      PerformKeeps(bs, lo, hi, l, cs[0]);
      var o := Perform(bs, cs[0]);
      if AddsNothing(bs, cs[0]) { RunKeeps(o.blocks, lo, hi, Book(l, cs[0].request, o.addr), cs[1..]); }
    } else {
      RunKeeps(bs, lo, hi, l, cs[1..]);
    }
  }

  // ----- Back links lead backwards -----

  lemma ResizeLinksBack(bs: seq<Block>, lo: nat, hi: nat, i: nat, size: nat, back: Back)
    requires Tiles(bs, lo, hi) && LinksBack(bs) && i < |bs| && (Moves(bs, i, size) ==> back.end <= bs[i].prev)
    ensures LinksBack(Resize(bs, i, size, back).blocks)
  {
    hide Tiles, LinksBack, Grow, Shrink, Malloc, Free;
    var need, g := size + HEADER, Grow(bs, i, size + HEADER);
    ShrinkLinksBack(bs, i, need);
    GrowLinksBack(bs, i, need);
    MallocLinksBack(g, size);
    if i < |g| { ShrinkLinksBack(g, i, need); }
    if Moves(bs, i, size) {
      var k := StillThere(bs, lo, hi, i, size);
      FreeLinksBack(Malloc(g, size).blocks, bs[i].addr + HEADER, back);
    } else if !bs[i].free {
      GrowMeaning(bs, lo, hi, i, need);
    }
  }

  /** The block that a realloc moves, when it is freed. */
  lemma StillThere(bs: seq<Block>, lo: nat, hi: nat, i: nat, size: nat) returns (k: nat)
    requires Tiles(bs, lo, hi) && i < |bs| && Moves(bs, i, size)
    ensures var c := Filled(bs, i, size);
            && k < |c| && Tiles(c, lo, hi) && !c[k].free && c[k].addr == bs[i].addr && c[k].prev == bs[i].prev
            && Holder(c, bs[i].addr + HEADER) == Some(k)
  {
    hide Tiles, Malloc, Holds, NoRoom, Grow, Live;
    var g := Grow(bs, i, size + HEADER);
    GrowMeaning(bs, lo, hi, i, size + HEADER);
    MallocOfNothing(g);
    var c := Malloc(g, size).blocks;
    var b := MallocContract(g, lo, hi, size);
    InLive(g, i);
    k := IndexOfLive(c, g[i]);
    HolderIs(c, lo, hi, k);
  }

  lemma IndexOfLive(c: seq<Block>, b: Block) returns (k: nat)
    requires b in Live(c)
    ensures k < |c| && c[k] == b && !b.free
  {
    k :| 0 <= k < |c| && c[k] == b;
  }

  /** No call makes a back link lead forwards, as long as the backward loop does not. */
  lemma PerformLinksBack(bs: seq<Block>, lo: nat, hi: nat, c: Call)
    requires Tiles(bs, lo, hi) && LinksBack(bs)
    requires Frees(bs, c.request) ==> c.back.end <= FreedLink(bs, c.request)
    ensures LinksBack(Perform(bs, c).blocks)
  {
    hide Tiles, LinksBack, Malloc, Resize, Moves, FreedWith;
    match c.request
    case MallocOf(size) => MallocLinksBack(bs, size);
    case FreeOf(a) => if InUse(bs, a) { FreeLinksBack(bs, a, c.back); }
    case ReallocOf(a, size) =>
      MallocLinksBack(bs, size);
      var h := Holder(bs, a);
      if a != 0 && size == 0 && InUse(bs, a) { FreeLinksBack(bs, a, c.back); }
      if a != 0 && size != 0 && h.Some? { ResizeLinksBack(bs, lo, hi, h.value, size, c.back); }
  }

  lemma AnchoredCallIs(bs: seq<Block>, c: Call)
    requires AnchoredCall(bs, c)
    ensures AddsNothing(bs, c) && (Frees(bs, c.request) ==> c.back.end <= FreedLink(bs, c.request))
  {
    hide Frees;
  }

  /** A run in which every freed block has a back link that is null or leads to a block in use: nothing is ever
  added, and every back link leads backwards all along, so that this is so in any memory. */
  lemma {:induction false} AnchoredRunKeeps(bs: seq<Block>, lo: nat, hi: nat, l: Ledger, cs: seq<Call>)
    requires Tiles(bs, lo, hi) && hi < WORD && LinksBack(bs) && Agree(Live(bs), l) && AnchoredRun(bs, l, cs)
    ensures Harmless(bs, l, cs) && LinksBack(Run(bs, l, cs).0)
    decreases |cs|
  {
    hide Tiles, LinksBack, Live, Agree, Perform, Book, Proper, AddsNothing, AnchoredCall, Frees, FreedLink;
    if cs != [] {
      if Proper(l, cs[0].request) {
        AnchoredCallIs(bs, cs[0]);
        PerformKeeps(bs, lo, hi, l, cs[0]);
        PerformLinksBack(bs, lo, hi, cs[0]);
        var o := Perform(bs, cs[0]);
        AnchoredRunKeeps(o.blocks, lo, hi, Book(l, cs[0].request, o.addr), cs[1..]);
      } else {
        AnchoredRunKeeps(bs, lo, hi, l, cs[1..]);
      }
    }
  }
}
