/** The growable array of kernel/include/vector.hpp.

`State` is what a caller can observe, with the number of elements that resizing has moved so far; every
method of the class is proved to take one state to the next.
*/
module Vectors {
  import opened Copy

  /** items are the first m_cnt elements, cap is m_cap, and moved counts the elements that Expand and Shrink
  handed to realloc. */
  datatype State<T> = State(items: seq<T>, cap: nat, moved: nat)

  function Fresh<T>(cap: nat): State<T> { State([], if cap > 1 then cap else 1, 0) }

  predicate Sound<T>(s: State<T>) { 1 <= s.cap && |s.items| <= s.cap }

  /** Expand; `ok` says whether realloc finds memory. */
  function Expanded<T>(s: State<T>, ok: bool): State<T> {
    if |s.items| == s.cap && ok then State(s.items, 2 * s.cap, s.moved + |s.items|) else s
  }

  /** Shrink, as Pop and Remove call it. */
  function Shrunk<T>(s: State<T>): State<T> {
    if |s.items| <= s.cap / 4 then State(s.items, s.cap / 2, s.moved + |s.items|) else s
  }

  function Pushed<T>(s: State<T>, item: T, ok: bool): State<T> {
    if |s.items| == s.cap && !ok then s else Expanded(s, ok).(items := s.items + [item])
  }

  function Popped<T>(s: State<T>): State<T> {
    if s.items == [] then s else Shrunk(s).(items := s.items[..|s.items| - 1])
  }

  function Inserted<T>(s: State<T>, item: T, index: nat, ok: bool): State<T> {
    if index >= |s.items| || (|s.items| == s.cap && !ok) then s
    else Expanded(s, ok).(items := s.items[..index] + [item] + s.items[index..])
  }

  function Removed<T>(s: State<T>, index: nat): State<T> {
    if index >= |s.items| then s else Shrunk(s).(items := s.items[..index] + s.items[index + 1..])
  }

  // ----- Amortised cost -----

  datatype Op<T> = Push(item: T, ok: bool) | Pop | Insert(item: T, index: nat, ok: bool) | Remove(index: nat)

  function Apply<T>(s: State<T>, op: Op<T>): State<T> {
    match op
    case Push(item, ok) => Pushed(s, item, ok)
    case Pop => Popped(s)
    case Insert(item, index, ok) => Inserted(s, item, index, ok)
    case Remove(index) => Removed(s, index)
  }

  function Run<T>(s: State<T>, ops: seq<Op<T>>): State<T>
    decreases |ops|
  {
    if ops == [] then s else Run(Apply(s, ops[0]), ops[1..])
  }

  /** A run is its operations one after the other. */
  lemma {:induction false} RunLast<T>(s: State<T>, ops: seq<Op<T>>, op: Op<T>)
    ensures Run(s, ops + [op]) == Apply(Run(s, ops), op)
    decreases |ops|
  {
    if ops == [] {
      assert ops + [op] == [op] && [op][1..] == [];
    } else {
      assert (ops + [op])[1..] == ops[1..] + [op];
      RunLast(Apply(s, ops[0]), ops[1..], op);
    }
  }

  /** The work saved up for the next resize. */
  function Potential<T>(s: State<T>): int {
    var full, empty := 2 * |s.items| - s.cap, s.cap / 2 - |s.items|;
    if full > empty then full else empty
  }

  lemma ApplySound<T>(s: State<T>, op: Op<T>)
    requires Sound(s)
    ensures Sound(Apply(s, op))
    ensures Apply(s, op).moved + Potential(Apply(s, op)) <= s.moved + Potential(s) + 2
  {}

  lemma {:induction false} RunCost<T>(s: State<T>, ops: seq<Op<T>>)
    requires Sound(s)
    ensures Sound(Run(s, ops)) && Run(s, ops).moved + Potential(Run(s, ops)) <= s.moved + Potential(s) + 2 * |ops|
    decreases |ops|
  {
    if ops != [] {
      ApplySound(s, ops[0]);
      RunCost(Apply(s, ops[0]), ops[1..]);
    }
  }

  lemma PotentialPositive<T>(s: State<T>)
    requires Sound(s)
    ensures Potential(s) >= 0
  {
    if 2 * |s.items| < s.cap { assert |s.items| <= s.cap / 2; }
  }

  /** Over any n operations on a new vector, resizing moves at most 2n elements and half the first capacity. */
  lemma AmortisedResizing<T>(cap: nat, ops: seq<Op<T>>)
    ensures Sound(Run(Fresh<T>(cap), ops))
    ensures Run(Fresh<T>(cap), ops).moved <= 2 * |ops| + Fresh<T>(cap).cap / 2
  {
    RunCost(Fresh<T>(cap), ops);
    PotentialPositive(Run(Fresh<T>(cap), ops));
  }

  // ----- The class -----

  class Vector<T(0)> {
    /** The block that malloc returned, and the word behind it: Remove reads one element too many. */
    var data: array<T>
    var cap: nat
    var cnt: nat
    ghost var moved: nat
    const zero: T

    ghost predicate Valid()
      reads this, data
    {
      1 <= cap && cnt <= cap && data.Length == cap + 1
    }

    ghost function Now(): State<T>
      requires Valid()
      reads this, data
    {
      State(data[..cnt], cap, moved)
    }

    constructor (capacity: nat, zero: T)
      ensures Valid() && fresh(data) && Now() == Fresh<T>(capacity) && this.zero == zero
    {
      cap, cnt, moved := if capacity > 1 then capacity else 1, 0, 0;
      this.zero := zero;
      data := new T[(if capacity > 1 then capacity else 1) + 1];
      new;
      for i := 0 to cap
        invariant Valid() && fresh(data) && Now() == Fresh<T>(capacity)
        modifies data
      {
        data[i] := zero;
      }
    }

    /** realloc of the array: the elements that fit both sizes are kept. */
    method Reallocate(size: nat) returns (block: array<T>)
      requires Valid() && cnt <= size
      ensures fresh(block) && block.Length == size + 1
      ensures block[..cnt] == data[..cnt]
    {
      block := new T[size + 1];
      var keep := if size < cap then size else cap;
      for i := 0 to keep
        invariant forall k :: 0 <= k < i ==> block[k] == data[k]
      {
        block[i] := data[i];
      }
    }

    method Expand(ok: bool) returns (done: bool)
      requires Valid()
      modifies this
      ensures Valid() && done == ok && (data == old(data) || fresh(data))
      ensures ok ==> Now() == State(old(data[..cnt]), 2 * old(cap), old(moved) + old(cnt))
      ensures !ok ==> Now() == old(Now()) && data == old(data)
    {
      var newCap := cap * 2;
      if !ok {
        return false;
      }
      ghost var items := data[..cnt];
      var block := Reallocate(newCap);
      moved := moved + cnt;
      data, cap := block, newCap;
      for i := cnt to cap
        invariant data == block && cap == newCap && cnt == |items| && data[..cnt] == items
        modifies block
      {
        block[i] := zero;
        assert data[..cnt] == items;
      }
      return true;
    }

    method Shrink()
      requires Valid() && 1 <= cnt <= cap / 4
      modifies this
      ensures Valid() && fresh(data) && Now() == Shrunk(old(Now()))
      ensures cap == old(cap) / 2 && data[..cnt] == old(data[..cnt]) && moved == old(moved) + cnt
    {
      var block := Reallocate(cap / 2);
      cap, data := cap / 2, block;
      moved := moved + cnt;
    }

    method Push(item: T, ok: bool)
      requires Valid()
      modifies this, data
      ensures Valid() && (data == old(data) || fresh(data)) && Now() == Pushed(old(Now()), item, ok)
      ensures cap == (if old(cnt) == old(cap) && ok then 2 * old(cap) else old(cap))
      ensures cnt == (if old(cnt) < cap then old(cnt) + 1 else old(cnt))
      ensures forall k :: 0 <= k < old(cnt) ==> data[k] == old(data[k])
      ensures cnt > old(cnt) ==> data[old(cnt)] == item
      ensures moved == old(moved) + if cap != old(cap) then old(cnt) else 0
    {
      if cnt == cap {
        var done := Expand(ok);
        if !done {
          return;
        }
      }
      ghost var items := data[..cnt];
      data[cnt] := item;
      cnt := cnt + 1;
      assert data[..cnt] == items + [item];
    }

    method Pop() returns (item: T)
      requires Valid()
      modifies this
      ensures Valid() && (data == old(data) || fresh(data)) && Now() == Popped(old(Now()))
      ensures item == if old(cnt) == 0 then zero else old(data[..cnt])[old(cnt) - 1]
      ensures cap == (if 1 <= old(cnt) <= old(cap) / 4 then old(cap) / 2 else old(cap))
      ensures cnt == (if old(cnt) == 0 then 0 else old(cnt) - 1)
      ensures forall k :: 0 <= k < cnt ==> data[k] == old(data[k])
      ensures moved == old(moved) + if cap != old(cap) then old(cnt) else 0
    {
      if cnt == 0 {
        return zero;
      }
      ghost var items := data[..cnt];
      if cnt <= cap / 4 {
        Shrink();
      }
      assert data[..cnt] == items;
      cnt := cnt - 1;
      assert data[..cnt] == items[..cnt];
      return data[cnt];
    }

    /** The shift of Insert, in an array with a free slot. */
    method OpenGap(item: T, index: nat)
      requires Valid() && index < cnt < cap
      modifies data, `cnt
      ensures Valid() && data[..cnt] == old(data[..cnt])[..index] + [item] + old(data[..cnt])[index..]
      ensures cnt == old(cnt) + 1 && data[index] == item
      ensures forall k :: 0 <= k < index ==> data[k] == old(data[k])
      ensures forall k :: index <= k < old(cnt) ==> data[k + 1] == old(data[k])
    {
      ghost var items := data[..cnt];
      MemMove(data, index + 1, index, cnt - index);
      data[index] := item;
      cnt := cnt + 1;
      assert data[..cnt] == items[..index] + [item] + items[index..];
    }

    method Insert(item: T, index: nat, ok: bool)
      requires Valid()
      modifies this, data
      ensures Valid() && (data == old(data) || fresh(data)) && Now() == Inserted(old(Now()), item, index, ok)
      ensures cap == (if index < old(cnt) == old(cap) && ok then 2 * old(cap) else old(cap))
      ensures cnt == (if index < old(cnt) < cap then old(cnt) + 1 else old(cnt))
      ensures forall k :: 0 <= k < old(cnt) && (k < index || cnt == old(cnt)) ==> data[k] == old(data[k])
      ensures cnt > old(cnt) ==> data[index] == item
      ensures cnt > old(cnt) ==> forall k :: index <= k < old(cnt) ==> data[k + 1] == old(data[k])
      ensures moved == old(moved) + if cap != old(cap) then old(cnt) else 0
    {
      if index >= cnt {
        return;
      }
      if cnt == cap {
        var done := Expand(ok);
        if !done {
          return;
        }
      }
      assert data[..cnt] == old(data[..cnt]) && cnt == |data[..cnt]| && cnt < cap;
      assert forall k :: 0 <= k < cnt ==> data[k] == old(data[k]);
      OpenGap(item, index);
    }

    /** The shift of Remove, which moves one element more than is left. */
    method CloseGap(index: nat)
      requires Valid() && index < cnt
      modifies data, `cnt
      ensures Valid() && data[..cnt] == old(data[..cnt])[..index] + old(data[..cnt])[index + 1..]
      ensures cnt == old(cnt) - 1
      ensures forall k :: 0 <= k < index ==> data[k] == old(data[k])
      ensures forall k :: index < k < old(cnt) ==> data[k - 1] == old(data[k])
    {
      ghost var items := data[..cnt];
      MemMove(data, index, index + 1, cnt - index);
      cnt := cnt - 1;
      assert data[..cnt] == items[..index] + items[index + 1..];
    }

    method Remove(index: nat) returns (item: T)
      requires Valid()
      modifies this, data
      ensures Valid() && (data == old(data) || fresh(data)) && Now() == Removed(old(Now()), index)
      ensures item == if index >= old(cnt) then zero else old(data[..cnt])[index]
      ensures cap == (if index < old(cnt) <= old(cap) / 4 then old(cap) / 2 else old(cap))
      ensures cnt == (if index < old(cnt) then old(cnt) - 1 else old(cnt))
      ensures forall k :: 0 <= k < cnt && (k < index || cnt == old(cnt)) ==> data[k] == old(data[k])
      ensures cnt < old(cnt) ==> forall k :: index < k < old(cnt) ==> data[k - 1] == old(data[k])
      ensures moved == old(moved) + if cap != old(cap) then old(cnt) else 0
    {
      if index >= cnt {
        return zero;
      }
      if cnt <= cap / 4 {
        Shrink();
      }
      assert data[..cnt] == old(data[..cnt]);
      assert forall k :: 0 <= k < cnt ==> data[k] == old(data[k]);
      item := data[index];
      CloseGap(index);
    }

    method Get(index: nat) returns (item: T)
      requires Valid()
      ensures item == if index < cnt then Now().items[index] else zero
    {
      if index >= cnt {
        return zero;
      }
      return data[index];
    }
  }
}
