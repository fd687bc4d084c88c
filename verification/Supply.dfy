/** The frames that PopMemMapFrame takes from the boot loader's memory map. */
module Supply {
  import opened Options
  import opened Sums
  import opened Words
  import opened Paging

  const MAP_AVAILABLE := 1

  datatype MemMapEntry = MemMapEntry(base: bv64, size: nat, kind: nat)

  /** The map ends with an entry of type zero, and the current entry is one of its entries. */
  predicate MapOk(entries: seq<MemMapEntry>, current: Option<nat>) {
    && entries != [] && entries[|entries| - 1].kind == 0
    && (current.Some? ==> current.value < |entries|)
  }

  /** What calling PopMemMapFrame again and again returns until it returns 0, by the steps of the code. */
  function Remaining(entries: seq<MemMapEntry>, current: Option<nat>, addr: bv64, size: nat, limit: bv64): seq<bv64>
    requires MapOk(entries, current)
    decreases if current.None? then 0 else |entries| - current.value, size
  {
    if current.None? || entries[current.value].kind == 0 then []
    else if entries[current.value].kind != MAP_AVAILABLE || size < 0x1000 then
      Remaining(entries, Some(current.value + 1), addr, entries[current.value + 1].size, limit)
    else
      var rest := Remaining(entries, current, NextPage(addr), size - 0x1000, limit);
      if Before(addr, limit) then rest else [addr] + rest
  }

  /** Whole pages left in the current entry and in the available entries after it, up to the type-0 entry. */
  function PagesLeft(entries: seq<MemMapEntry>, current: nat, size: nat): nat
    requires MapOk(entries, Some(current))
    decreases |entries| - current
  {
    if entries[current].kind == 0 then 0
    else
      (if entries[current].kind == MAP_AVAILABLE then size / 0x1000 else 0)
      + PagesLeft(entries, current + 1, entries[current + 1].size)
  }

  /** Entry i is an available region, and the map does not end between `current` and it. */
  ghost predicate RegionFrom(entries: seq<MemMapEntry>, current: nat, i: nat) {
    i < |entries| && entries[i].kind == MAP_AVAILABLE && forall j :: current <= j < i ==> entries[j].kind != 0
  }

  /** The whole pages of entry i, if it is such a region. */
  ghost function RegionPages(entries: seq<MemMapEntry>, current: nat, i: nat): nat {
    if RegionFrom(entries, current, i) then entries[i].size / 0x1000 else 0
  }

  /** The pages of each of the entries behind the current one. */
  ghost function LaterPages(entries: seq<MemMapEntry>, current: nat): (r: seq<nat>)
    requires current < |entries|
    ensures |r| == |entries| - current - 1
    ensures forall k :: 0 <= k < |r| ==> r[k] == RegionPages(entries, current, current + 1 + k)
  {
    seq<nat>(|entries| - current - 1, k requires 0 <= k => RegionPages(entries, current, current + 1 + k))
  }

  /** What is left are the whole pages of the current region and of every later one. */
  lemma {:induction false} PagesLeftIsSum(entries: seq<MemMapEntry>, current: nat, size: nat)
    requires MapOk(entries, Some(current))
    ensures PagesLeft(entries, current, size) ==
            (if RegionFrom(entries, current, current) then size / 0x1000 else 0) + Sum(LaterPages(entries, current))
    decreases |entries| - current
  {
    hide LaterPages;
    if entries[current].kind == 0 {
      SumOfNothing(LaterPages(entries, current));
    } else {
      var next := current + 1;
      PagesLeftIsSum(entries, next, entries[next].size);
      forall i: nat | next <= i < |entries|
        ensures RegionPages(entries, current, i) == RegionPages(entries, next, i)
      {
        assert RegionFrom(entries, current, i) <==> RegionFrom(entries, next, i);
      }
      assert LaterPages(entries, current)[1..] == LaterPages(entries, next);
    }
  }

  /** n consecutive pages. */
  function Consecutive(addr: bv64, n: nat): (r: seq<bv64>)
    ensures |r| == n
    decreases n
  {
    if n == 0 then [] else [addr] + Consecutive(NextPage(addr), n - 1)
  }

  function NotBefore(s: seq<bv64>, limit: bv64): seq<bv64> {
    if s == [] then []
    else (if Before(s[0], limit) then [] else [s[0]]) + NotBefore(s[1..], limit)
  }

  lemma {:induction false} ConsecutiveSplit(addr: bv64, n: nat)
    requires n > 0
    ensures Consecutive(addr, n)[0] == addr && Consecutive(addr, n)[1..] == Consecutive(NextPage(addr), n - 1)
  {}

  /** Exact supply: the base of a region is never looked at again, so the frames are consecutive
      pages from the current address on, as many as the sizes of the available entries hold,
      without those below the limit. */
  lemma {:induction false} RemainingIsConsecutive(entries: seq<MemMapEntry>, current: nat, addr: bv64, size: nat,
                                                  limit: bv64)
    requires MapOk(entries, Some(current))
    ensures Remaining(entries, Some(current), addr, size, limit)
            == NotBefore(Consecutive(addr, PagesLeft(entries, current, size)), limit)
    decreases |entries| - current, size
  {
    hide Before, NextPage;
    if entries[current].kind == 0 {
    } else if entries[current].kind != MAP_AVAILABLE || size < 0x1000 {
      RemainingIsConsecutive(entries, current + 1, addr, entries[current + 1].size, limit);
    } else {
      RemainingIsConsecutive(entries, current, NextPage(addr), size - 0x1000, limit);
      ConsecutiveSplit(addr, PagesLeft(entries, current, size));
    }
  }

  /** All of them lie below 2 GiB. */
  ghost predicate Fits(addr: bv64, n: nat) {
    n > 0 ==> Good(addr) && PageNumber(addr) + n <= 0x80000
  }

  lemma {:induction false} ConsecutiveNumbers(addr: bv64, n: nat, k: nat)
    requires Fits(addr, n) && k < n
    ensures Good(Consecutive(addr, n)[k]) && PageNumber(Consecutive(addr, n)[k]) == PageNumber(addr) + k
    decreases n
  {
    hide Good, NextPage, PageNumber;
    ConsecutiveSplit(addr, n);
    if k > 0 {
      PageAdvance(addr);
      ConsecutiveNumbers(NextPage(addr), n - 1, k - 1);
      assert Consecutive(addr, n)[k] == Consecutive(addr, n)[1..][k - 1];
    }
  }

  ghost predicate Increasing(s: seq<bv64>) {
    forall i, j :: 0 <= i < j < |s| ==> PageNumber(s[i]) < PageNumber(s[j])
  }

  ghost predicate AllFrom(s: seq<bv64>, lowest: nat, limit: bv64) {
    forall i :: 0 <= i < |s| ==> Good(s[i]) && PageNumber(s[i]) >= lowest && !Before(s[i], limit)
  }

  lemma Prepend(a: bv64, s: seq<bv64>, limit: bv64)
    requires Good(a) && !Before(a, limit) && Increasing(s) && AllFrom(s, PageNumber(a) + 1, limit)
    ensures Increasing([a] + s) && AllFrom([a] + s, PageNumber(a), limit)
  {
    hide Good, PageNumber, Before;
  }

  lemma NothingSupplied(lowest: nat, limit: bv64)
    ensures Increasing([]) && AllFrom([], lowest, limit)
  {}

  lemma LowerBound(s: seq<bv64>, lowest: nat, limit: bv64)
    requires AllFrom(s, lowest + 1, limit)
    ensures AllFrom(s, lowest, limit)
  {
    hide Good, PageNumber, Before;
  }

  /** The supplied frames come in increasing order, all page-aligned, below 2 GiB and not below the limit. */
  lemma {:induction false} SupplyIncreases(addr: bv64, n: nat, limit: bv64)
    requires Fits(addr, n)
    ensures var r := NotBefore(Consecutive(addr, n), limit);
      Increasing(r) && AllFrom(r, PageNumber(addr), limit) && |r| <= n
    decreases n
  {
    if n > 1 { PageAdvance(addr); }
    hide Good, NextPage, PageNumber, Before, Increasing, AllFrom;
    NothingSupplied(PageNumber(addr), limit);
    if n > 0 {
      ConsecutiveSplit(addr, n);
      NothingSupplied(PageNumber(addr) + 1, limit);
      SupplyIncreases(NextPage(addr), n - 1, limit);
      var rest := NotBefore(Consecutive(NextPage(addr), n - 1), limit);
      if n == 1 {
        assert Consecutive(NextPage(addr), 0) == [];
        assert rest == [];
      }
      if Before(addr, limit) {
        LowerBound(rest, PageNumber(addr), limit);
      } else {
        Prepend(addr, rest, limit);
      }
    }
  }

  // ----- Whether the frames lie where the map says -----

  /** Entry i of the map is an available region: no entry up to it ends the map. */
  ghost predicate IsRegion(entries: seq<MemMapEntry>, i: nat) { RegionFrom(entries, 0, i) }

  /** All bytes of the page at a lie in the region of the entry. */
  predicate InRegion(e: MemMapEntry, a: nat) { Address(e.base) <= a && a + 0x1000 <= Address(e.base) + e.size }

  /** The page at a lies in an available region. */
  ghost predicate Available(entries: seq<MemMapEntry>, a: nat) {
    exists i: nat :: IsRegion(entries, i) && InRegion(entries[i], a)
  }

  /** The number of the page in which a region ends. */
  function EndPage(e: MemMapEntry): nat { (Address(e.base) + e.size) / 0x1000 }

  /** The available regions cover the pages from number `first` to `end`, as far as a look at page `first` and at
  the pages where regions end can tell. */
  ghost predicate Gapless(entries: seq<MemMapEntry>, first: nat, end: nat) {
    && (first < end ==> Available(entries, 0x1000 * first))
    && (forall i: nat :: IsRegion(entries, i) && first < EndPage(entries[i]) < end ==>
        Available(entries, 0x1000 * EndPage(entries[i])))
  }

  /** Those pages are enough: each page is in the region of the one before it, or that region ends here. */
  lemma {:induction false} GaplessCovers(entries: seq<MemMapEntry>, first: nat, end: nat, p: nat)
    requires Gapless(entries, first, end) && first <= p < end
    ensures Available(entries, 0x1000 * p)
    decreases p
  {
    if p > first {
      GaplessCovers(entries, first, end, p - 1);
      var i: nat :| IsRegion(entries, i) && InRegion(entries[i], 0x1000 * (p - 1));
      hide IsRegion, InRegion, EndPage;
      NextInRegion(entries[i], p);
    }
  }

  /** The page behind one of a region is in the region, or the region ends there. */
  lemma NextInRegion(e: MemMapEntry, p: nat)
    requires p > 0 && InRegion(e, 0x1000 * (p - 1))
    ensures InRegion(e, 0x1000 * p) || EndPage(e) == p
  {
    hide Address;
    Quotient(Address(e.base) + e.size, p);
  }

  lemma Quotient(x: nat, p: nat)
    requires 0x1000 * p <= x
    ensures x / 0x1000 == p || 0x1000 * p + 0x1000 <= x
  {}

  lemma {:induction false} NotBeforeHas(s: seq<bv64>, limit: bv64, a: bv64)
    ensures a in NotBefore(s, limit) <==> a in s && !Before(a, limit)
    decreases |s|
  {
    hide Before;
    if s != [] {
      NotBeforeHas(s[1..], limit, a);
      assert s == [s[0]] + s[1..];
    }
  }

  /** The number of the first page handed out. */
  function FirstPage(addr: bv64, limit: bv64): nat {
    if PageNumber(addr) < PageNumber(limit) then PageNumber(limit) else PageNumber(addr)
  }

  /** A page is handed out exactly when its number lies in one range. */
  lemma SuppliedRange(addr: bv64, n: nat, limit: bv64, k: nat)
    requires Fits(addr, n) && Good(limit) && k < n
    ensures var a := Consecutive(addr, n)[k];
            && Address(a) == 0x1000 * (PageNumber(addr) + k)
            && (!Before(a, limit) <==> PageNumber(addr) + k >= PageNumber(limit))
  {
    hide Good, NextPage, Before, PageNumber, Address;
    ConsecutiveNumbers(addr, n, k);
    var a := Consecutive(addr, n)[k];
    GoodAddress(a);
    if PageNumber(a) < PageNumber(limit) {
      PageOrder(a, limit);
    } else if PageNumber(a) == PageNumber(limit) {
      PageInjective(a, limit);
      NotBeforeItself(a);
    } else {
      PageOrder(limit, a);
      NotBeforeBoth(limit, a);
    }
  }

  /** Because the base of a later region is never looked at, the frames still to come all lie in available regions
  if and only if those cover the pages from the first one handed out on, without a gap. */
  lemma SupplyIsAvailable(entries: seq<MemMapEntry>, current: nat, addr: bv64, size: nat, limit: bv64)
    requires MapOk(entries, Some(current)) && Good(limit) && Fits(addr, PagesLeft(entries, current, size))
    ensures (forall a :: a in Remaining(entries, Some(current), addr, size, limit) ==> Available(entries, Address(a)))
            <==> Gapless(entries, FirstPage(addr, limit), PageNumber(addr) + PagesLeft(entries, current, size))
  {
    hide Good, NextPage, Before, PageNumber, Address, Fits, Available, IsRegion, EndPage, FirstPage, Gapless;
    var n := PagesLeft(entries, current, size);
    var first, end := FirstPage(addr, limit), PageNumber(addr) + n;
    var r := Remaining(entries, Some(current), addr, size, limit);
    RemainingIsConsecutive(entries, current, addr, size, limit);
    if Gapless(entries, first, end) {
      forall a | a in r ensures Available(entries, Address(a)) {
        var k := SuppliedIs(addr, n, limit, a);
        GaplessCovers(entries, first, end, PageNumber(addr) + k);
      }
    }
    if forall a :: a in r ==> Available(entries, Address(a)) {
      forall p: nat | first <= p < end ensures Available(entries, 0x1000 * p) {
        var a := PageSupplied(addr, n, limit, p);
      }
      CoveredIsGapless(entries, first, end);
    }
  }

  lemma SuppliedIs(addr: bv64, n: nat, limit: bv64, a: bv64) returns (k: nat)
    requires Fits(addr, n) && Good(limit) && a in NotBefore(Consecutive(addr, n), limit)
    ensures k < n && Address(a) == 0x1000 * (PageNumber(addr) + k) && FirstPage(addr, limit) <= PageNumber(addr) + k
  {
    hide Good, NextPage, Before, PageNumber, Address, Fits, Consecutive;
    NotBeforeHas(Consecutive(addr, n), limit, a);
    k :| 0 <= k < |Consecutive(addr, n)| && Consecutive(addr, n)[k] == a;
    SuppliedRange(addr, n, limit, k);
  }

  lemma PageSupplied(addr: bv64, n: nat, limit: bv64, p: nat) returns (a: bv64)
    requires Fits(addr, n) && Good(limit) && FirstPage(addr, limit) <= p < PageNumber(addr) + n
    ensures a in NotBefore(Consecutive(addr, n), limit) && Address(a) == 0x1000 * p
  {
    hide Good, NextPage, Before, PageNumber, Address, Fits, Consecutive;
    a := Consecutive(addr, n)[p - PageNumber(addr)];
    SuppliedRange(addr, n, limit, p - PageNumber(addr));
    NotBeforeHas(Consecutive(addr, n), limit, a);
  }

  lemma CoveredIsGapless(entries: seq<MemMapEntry>, first: nat, end: nat)
    requires forall p: nat :: first <= p < end ==> Available(entries, 0x1000 * p)
    ensures Gapless(entries, first, end)
  {
    hide Available, IsRegion, EndPage;
  }

  /** A reserved page between two available ones. */
  const HOLE := [MemMapEntry(0x200000, 0x1000, 1), MemMapEntry(0x201000, 0x1000, 2), MemMapEntry(0x202000, 0x1000, 1),
                 MemMapEntry(0, 0, 0)]

  /** The reserved page is handed out, and the last available one never is. */
  lemma HoleIsHandedOut()
    ensures MapOk(HOLE, Some(0)) && Remaining(HOLE, Some(0), 0x200000, 0x1000, 0x200000) == [0x200000, 0x201000]
    ensures !Available(HOLE, Address(0x201000)) && Available(HOLE, Address(0x202000))
  {
    hide Address, Remaining;
    HoleSupply();
    HolePages();
    forall i: nat | IsRegion(HOLE, i) ensures !InRegion(HOLE[i], Address(0x201000)) {
      assert HOLE[1].kind != MAP_AVAILABLE && HOLE[3].kind != MAP_AVAILABLE;
    }
    assert IsRegion(HOLE, 2) && InRegion(HOLE[2], Address(0x202000));
  }

  lemma HoleSupply()
    ensures Remaining(HOLE, Some(0), 0x200000, 0x1000, 0x200000) == [0x200000, 0x201000]
  {
    assert Remaining(HOLE, Some(3), 0x202000, 0, 0x200000) == [];
    assert Remaining(HOLE, Some(2), 0x202000, 0, 0x200000) == [];
    assert Remaining(HOLE, Some(2), 0x201000, 0x1000, 0x200000) == [0x201000];
    assert Remaining(HOLE, Some(1), 0x201000, 0x1000, 0x200000) == [0x201000];
    assert Remaining(HOLE, Some(0), 0x201000, 0, 0x200000) == [0x201000];
  }

  lemma HolePages()
    ensures Address(0x201000) == Address(0x200000) + 0x1000 && Address(0x202000) == Address(0x201000) + 0x1000
  {
    PageAdvance(0x200000);
    PageAdvance(0x201000);
    GoodAddress(0x200000);
    GoodAddress(0x201000);
    GoodAddress(0x202000);
  }

  lemma NotBelow(x: bv64, a: bv64)
    requires x <= 0xFFFFFFFFFFFFF000 && !Before(a, Align(x))
    ensures !Before(a, x)
  {}

  /** No frame begins below the base of the first entry, unless that lies in the last page of all. */
  lemma NoneBelowBase(base: bv64, n: nat, limit: bv64)
    requires base <= 0xFFFFFFFFFFFFF000 && Fits(Align(base), n)
    ensures forall a :: a in NotBefore(Consecutive(Align(base), n), limit) ==> !Before(a, base)
  {
    hide Good, NextPage, PageNumber, Before, Align;
    forall a | a in NotBefore(Consecutive(Align(base), n), limit) ensures !Before(a, base) {
      NotBeforeHas(Consecutive(Align(base), n), limit, a);
      var k :| 0 <= k < n && Consecutive(Align(base), n)[k] == a;
      ConsecutiveNumbers(Align(base), n, k);
      AtOrAbove(Align(base), a);
      NotBelow(base, a);
    }
  }

  lemma AtOrAbove(a: bv64, b: bv64)
    requires Good(a) && Good(b) && PageNumber(a) <= PageNumber(b)
    ensures !Before(b, a)
  {
    hide Good, PageNumber, Before;
    if PageNumber(a) == PageNumber(b) {
      PageInjective(a, b);
      NotBeforeItself(a);
    } else {
      PageOrder(a, b);
      NotBeforeBoth(a, b);
    }
  }

  // ----- The frames still to come -----

  function FramesOf(s: seq<bv64>): (r: seq<Frame>)
    ensures |r| == |s| && forall i :: 0 <= i < |r| ==> r[i] == Frame(s[i])
  {
    if s == [] then [] else [Frame(s[0])] + FramesOf(s[1..])
  }
}
