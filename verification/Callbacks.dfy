/** Callback lists of kernel/arch/x86_64/interrupts.cpp: one vector of callbacks for each interrupt vector. */
module Callbacks {
  import opened Vectors

  const MAX_VECTORS := 48

  /** The items different from x, in order. */
  function Without<C(==)>(items: seq<C>, x: C): seq<C> {
    if items == [] then []
    else if items[0] == x then Without(items[1..], x)
    else [items[0]] + Without(items[1..], x)
  }

  lemma {:induction false} WithoutAppend<C>(a: seq<C>, b: seq<C>, x: C)
    ensures Without(a + b, x) == Without(a, x) + Without(b, x)
    decreases |a|
  {
    if a == [] {
      assert a + b == b;
    } else {
      assert (a + b)[1..] == a[1..] + b;
      WithoutAppend(a[1..], b, x);
    }
  }

  /** The indices at which r was picked from the items, in order. */
  ghost predicate Picked<C>(items: seq<C>, at: seq<nat>, r: seq<C>) {
    && |at| == |r| && (forall k :: 0 <= k < |at| ==> at[k] < |items| && r[k] == items[at[k]])
    && (forall j, k :: 0 <= j < k < |at| ==> at[j] < at[k])
  }

  /** The list is what is left when exactly the items equal to x are struck out: everything else is there, in
  its old order and as often as before. */
  lemma {:induction false} WithoutMeaning<C>(items: seq<C>, x: C) returns (at: seq<nat>)
    ensures Picked(items, at, Without(items, x))
    ensures forall i: nat :: i < |items| ==> (i in at <==> items[i] != x)
    decreases |items|
  {
    at := [];
    if items != [] {
      var rest := WithoutMeaning(items[1..], x);
      var moved := Shifted(rest);
      at := if items[0] == x then moved else [0] + moved;
      ShiftedPicks(items, rest, Without(items[1..], x));
      forall i: nat | i < |items| ensures i in at <==> items[i] != x {
        ShiftedHas(rest, i);
      }
    }
  }

  function Shifted(at: seq<nat>): seq<nat> { seq(|at|, k requires 0 <= k < |at| => at[k] + 1) }

  lemma ShiftedPicks<C>(items: seq<C>, at: seq<nat>, r: seq<C>)
    requires items != [] && Picked(items[1..], at, r)
    ensures Picked(items, Shifted(at), r) && Picked(items, [0] + Shifted(at), [items[0]] + r)
  {}

  lemma ShiftedHas(at: seq<nat>, i: nat)
    ensures i in Shifted(at) <==> i > 0 && i - 1 in at
  {
    if i > 0 && i - 1 in at {
      var k :| 0 <= k < |at| && at[k] == i - 1;
      assert Shifted(at)[k] == i;
    }
  }

  /** The loop of RemoveCallback, which removes while it walks: the list without the callback is left. */
  method RemoveFrom<C(0,==)>(list: Vector<C>, callback: C)
    requires list.Valid()
    modifies list, list.data
    ensures list.Valid() && (list.data == old(list.data) || fresh(list.data))
    ensures list.Now().items == Without(old(list.Now().items), callback)
  {
    var i := 0;
    ghost var items := list.Now().items;
    while i < list.cnt
      invariant list.Valid() && (list.data == old(list.data) || fresh(list.data)) && i <= list.cnt
      invariant Without(items, callback) == list.Now().items[..i] + Without(list.Now().items[i..], callback)
      decreases list.cnt - i
    {
      ghost var now := list.Now().items;
      var item := list.Get(i);
      WithoutStep(now, i, callback);
      if item != callback {
        i := i + 1;
      } else {
        var _ := list.Remove(i);
        RemovedAt(now, i);
      }
    }
  }

  lemma WithoutStep<C>(now: seq<C>, i: nat, x: C)
    requires i < |now|
    ensures now[..i] + Without(now[i..], x) ==
            if now[i] == x then now[..i] + Without(now[i + 1..], x) else now[..i + 1] + Without(now[i + 1..], x)
  {
    assert now[i..][1..] == now[i + 1..];
  }

  lemma RemovedAt<C>(now: seq<C>, i: nat)
    requires i < |now|
    ensures (now[..i] + now[i + 1..])[..i] == now[..i] && (now[..i] + now[i + 1..])[i..] == now[i + 1..]
  {}

  class Interrupts<C(0,==)> {
    /** One vector, or null, for each of the 48 interrupt vectors. */
    var callbacks: seq<Vector?<C>>
    const zero: C

    /** The vectors in use and their arrays. */
    ghost function Repr(): set<object>
      reads this, set v: Vector<C> | v in callbacks
    {
      (set v: Vector<C> | v in callbacks :: v as object) + (set v: Vector<C> | v in callbacks :: v.data as object)
    }

    ghost predicate Slot(i: nat)
      reads this, Repr()
    {
      i < |callbacks| && callbacks[i] != null ==> callbacks[i].Valid() && callbacks[i].zero == zero
    }

    /** Each vector is sound, and no two share anything. */
    ghost predicate Valid()
      reads this, Repr()
    {
      && |callbacks| == MAX_VECTORS
      && (forall i: nat :: i < MAX_VECTORS ==> Slot(i))
      && (forall i: nat, j: nat :: i < j < MAX_VECTORS && callbacks[i] != null && callbacks[j] != null ==>
          callbacks[i] != callbacks[j] && callbacks[i].data != callbacks[j].data)
    }

    /** The list of one interrupt vector; none yet counts as a new one. */
    ghost function List(i: nat): State<C>
      requires Valid()
      reads this, Repr()
    {
      if i < MAX_VECTORS && callbacks[i] != null then assert Slot(i); callbacks[i].Now() else Fresh<C>(1)
    }

    /** The callbacks registered for one interrupt vector, oldest first. */
    ghost function Handlers(i: nat): seq<C>
      requires Valid()
      reads this, Repr()
    {
      List(i).items
    }

    constructor (zero: C)
      ensures Valid() && this.zero == zero && forall i: nat :: Handlers(i) == []
    {
      this.zero := zero;
      callbacks := seq(MAX_VECTORS, _ => null);
    }

    /** The list of an interrupt vector, created when there is none. */
    method ListFor(vector: nat) returns (list: Vector<C>)
      requires Valid() && vector < MAX_VECTORS
      modifies `callbacks
      ensures Valid() && callbacks[vector] == list && list in Repr() && list.data in Repr()
      ensures fresh(Repr() - old(Repr()))
      ensures forall i: nat :: i < MAX_VECTORS ==> List(i) == old(List(i))
    {
      if callbacks[vector] == null {
        var created := new Vector<C>(1, zero);
        callbacks := callbacks[vector := created];
      }
      list := callbacks[vector];
      assert list in callbacks;
      forall i: nat | i < MAX_VECTORS ensures Slot(i) {
        assert old(Slot(i));
      }
      assert forall v: Vector<C> | v in callbacks :: v == list || v in old(callbacks);
    }

    /** AddCallback; `ok` says whether a full vector may grow. */
    method AddCallback(vector: nat, callback: C, ok: bool)
      requires Valid()
      modifies this, Repr()
      ensures Valid() && fresh(Repr() - old(Repr()))
      ensures forall i: nat :: i < MAX_VECTORS && i != vector ==> List(i) == old(List(i))
      ensures vector < MAX_VECTORS ==> List(vector) == Pushed(old(List(vector)), callback, ok)
      ensures vector < MAX_VECTORS && ok ==> Handlers(vector) == old(Handlers(vector)) + [callback]
    {
      if vector >= MAX_VECTORS {
        return;
      }
      var list := ListFor(vector);
      PushTo(vector, list, callback, ok);
    }

    method PushTo(vector: nat, list: Vector<C>, callback: C, ok: bool)
      requires Valid() && vector < MAX_VECTORS && callbacks[vector] == list
      modifies list, list.data
      ensures Valid() && fresh(Repr() - old(Repr()))
      ensures forall i: nat :: i < MAX_VECTORS && i != vector ==> List(i) == old(List(i))
      ensures List(vector) == Pushed(old(List(vector)), callback, ok)
    {
      assert old(Slot(vector)) && list in callbacks;
      list.Push(callback, ok);
      forall i: nat | i < MAX_VECTORS ensures Slot(i) {
        assert old(Slot(i));
        if callbacks[i] != null { assert callbacks[i] in callbacks; }
      }
    }

    /** RemoveCallback leaves exactly the other callbacks of its interrupt vector, in order. */
    method RemoveCallback(vector: nat, callback: C)
      requires Valid()
      modifies Repr()
      ensures Valid() && fresh(Repr() - old(Repr()))
      ensures forall i: nat :: i < MAX_VECTORS && i != vector ==> List(i) == old(List(i))
      ensures vector < MAX_VECTORS ==> Handlers(vector) == Without(old(Handlers(vector)), callback)
    {
      if vector >= MAX_VECTORS {
        return;
      }
      if callbacks[vector] != null {
        var list := callbacks[vector];
        assert old(Slot(vector)) && list in callbacks;
        RemoveFrom(list, callback);
        forall i: nat | i < MAX_VECTORS ensures Slot(i) {
          assert old(Slot(i));
          if callbacks[i] != null { assert callbacks[i] in callbacks; }
        }
      }
    }

    /** The dispatch loop of InterruptHandler: every callback of the vector is called once, in order. */
    method Dispatch(vector: nat) returns (called: seq<C>)
      requires Valid() && vector < MAX_VECTORS
      ensures called == Handlers(vector)
    {
      called := [];
      if callbacks[vector] != null {
        var list := callbacks[vector];
        assert Slot(vector);
        for i := 0 to list.cnt
          invariant called == list.data[..i]
        {
          called := called + [list.data[i]];
        }
      }
    }
  }
}
