/** lib/string/memcpy.c and memmove.c on one memory.

Both take addresses in the same array, so source and destination may overlap. */
module Copy {

  /** The memory after cnt bytes at src were moved to dst as if through a buffer. */
  function Moved<T>(m: seq<T>, dst: nat, src: nat, cnt: nat): seq<T>
    requires dst + cnt <= |m| && src + cnt <= |m|
  {
    m[..dst] + m[src..src + cnt] + m[dst + cnt..]
  }

  /** Byte x after the move: in the destination the old byte at its place in the source, elsewhere as it was. */
  ghost predicate MovedByte<T>(m: seq<T>, dst: nat, src: nat, cnt: nat, w: seq<T>, x: nat)
    requires src + cnt <= |m| && |w| == |m| && x < |m|
  {
    w[x] == if dst <= x < dst + cnt then m[src + (x - dst)] else m[x]
  }

  lemma MovedBytes<T>(m: seq<T>, dst: nat, src: nat, cnt: nat, w: seq<T>)
    requires dst + cnt <= |m| && src + cnt <= |m| && |w| == |m|
    ensures w == Moved(m, dst, src, cnt) <==> forall x :: 0 <= x < |m| ==> MovedByte(m, dst, src, cnt, w, x)
  {
    var v := Moved(m, dst, src, cnt);
    assert forall x :: 0 <= x < |m| ==> MovedByte(m, dst, src, cnt, v, x);
    if forall x :: 0 <= x < |m| ==> MovedByte(m, dst, src, cnt, w, x) {
      forall x | 0 <= x < |m| ensures w[x] == v[x] {
        assert MovedByte(m, dst, src, cnt, w, x) && MovedByte(m, dst, src, cnt, v, x);
      }
    }
  }

  /** The memory after copying byte by byte from the lowest address up, whatever the overlap. */
  function Forward<T>(m: seq<T>, dst: nat, src: nat, cnt: nat): (w: seq<T>)
    requires dst + cnt <= |m| && src + cnt <= |m|
    ensures |w| == |m|
    decreases cnt
  {
    if cnt == 0 then m else Forward(m[dst := m[src]], dst + 1, src + 1, cnt - 1)
  }

  lemma {:induction false} ForwardKeeps<T>(m: seq<T>, dst: nat, src: nat, cnt: nat, x: nat)
    requires dst + cnt <= |m| && src + cnt <= |m| && x < |m| && !(dst <= x < dst + cnt)
    ensures Forward(m, dst, src, cnt)[x] == m[x]
    decreases cnt
  {
    if cnt > 0 { ForwardKeeps(m[dst := m[src]], dst + 1, src + 1, cnt - 1, x); }
  }

  lemma ByteStep<T>(m: seq<T>, u: seq<T>, dst: nat, src: nat, cnt: nat, w: seq<T>, x: nat)
    requires dst + cnt <= |m| && src + cnt <= |m| && cnt > 0 && |u| == |m| && |w| == |m| && x < |m|
    requires dst <= src || src + cnt <= dst
    requires u == m[dst := m[src]] && MovedByte(u, dst + 1, src + 1, cnt - 1, w, x)
    ensures MovedByte(m, dst, src, cnt, w, x)
  {}

  lemma MovedStep<T>(m: seq<T>, u: seq<T>, dst: nat, src: nat, cnt: nat)
    requires dst + cnt <= |m| && src + cnt <= |m| && cnt > 0
    requires dst <= src || src + cnt <= dst
    requires u == m[dst := m[src]]
    ensures Moved(u, dst + 1, src + 1, cnt - 1) == Moved(m, dst, src, cnt)
  {
    var w := Moved(u, dst + 1, src + 1, cnt - 1);
    hide Moved, MovedByte;
    MovedBytes(u, dst + 1, src + 1, cnt - 1, w);
    MovedBytes(m, dst, src, cnt, w);
    forall x | 0 <= x < |m| ensures MovedByte(m, dst, src, cnt, w, x) {
      ByteStep(m, u, dst, src, cnt, w, x);
    }
  }

  /** Copying upwards is a move when the destination is not inside the source. */
  lemma {:induction false} ForwardMoves<T>(m: seq<T>, dst: nat, src: nat, cnt: nat)
    requires dst + cnt <= |m| && src + cnt <= |m|
    requires dst <= src || src + cnt <= dst
    ensures Forward(m, dst, src, cnt) == Moved(m, dst, src, cnt)
    decreases cnt
  {
    if cnt > 0 {
      hide Moved;
      var u := m[dst := m[src]];
      MovedStep(m, u, dst, src, cnt);
      ForwardMoves(u, dst + 1, src + 1, cnt - 1);
    }
  }

  /** When the source starts below the destination, a forward copy repeats: each byte it wrote equals the
  byte at the same place of the source, as it is after the copy. */
  lemma {:induction false} ForwardRepeats<T>(m: seq<T>, dst: nat, src: nat, cnt: nat, k: nat)
    requires src < dst && dst + cnt <= |m| && k < cnt
    ensures Forward(m, dst, src, cnt)[dst + k] == Forward(m, dst, src, cnt)[src + k]
    decreases cnt
  {
    var w := m[dst := m[src]];
    if k == 0 {
      ForwardKeeps(w, dst + 1, src + 1, cnt - 1, dst);
      ForwardKeeps(w, dst + 1, src + 1, cnt - 1, src);
    } else {
      ForwardRepeats(w, dst + 1, src + 1, cnt - 1, k - 1);
    }
  }

  /** The source repeats with the given period. */
  ghost predicate Repeats<T(!new)>(m: seq<T>, src: nat, cnt: nat, period: nat)
    requires src + cnt <= |m|
  {
    forall x :: src <= x < src + cnt - period ==> m[x] == m[x + period]
  }

  lemma {:induction false} RepeatedByte<T(!new)>(m: seq<T>, dst: nat, src: nat, cnt: nat, k: nat)
    requires src < dst && dst + cnt <= |m| && k < cnt && Repeats(m, src, cnt, dst - src)
    ensures Forward(m, dst, src, cnt)[dst + k] == m[src + k]
    decreases k
  {
    ForwardRepeats(m, dst, src, cnt, k);
    var p := dst - src;
    if k < p {
      ForwardKeeps(m, dst, src, cnt, src + k);
    } else {
      RepeatedByte(m, dst, src, cnt, k - p);
      assert m[src + k - p] == m[src + k - p + p];
    }
  }

  lemma RepeatedMoves<T(!new)>(m: seq<T>, dst: nat, src: nat, cnt: nat)
    requires src < dst && dst + cnt <= |m| && Repeats(m, src, cnt, dst - src)
    ensures Forward(m, dst, src, cnt) == Moved(m, dst, src, cnt)
  {
    var w, moved := Forward(m, dst, src, cnt), Moved(m, dst, src, cnt);
    forall x | 0 <= x < |m| ensures w[x] == moved[x] {
      if dst <= x < dst + cnt { RepeatedByte(m, dst, src, cnt, x - dst); } else { ForwardKeeps(m, dst, src, cnt, x); }
    }
  }

  lemma MovedRepeats<T(!new)>(m: seq<T>, dst: nat, src: nat, cnt: nat)
    requires src < dst && dst + cnt <= |m| && Forward(m, dst, src, cnt) == Moved(m, dst, src, cnt)
    ensures Repeats(m, src, cnt, dst - src)
  {
    var w, p := Moved(m, dst, src, cnt), dst - src;
    forall x | src <= x < src + cnt - p ensures m[x] == m[x + p] {
      ForwardRepeats(m, dst, src, cnt, x - src + p);
      assert w[x + p] == m[x] && w[x + p + p] == m[x + p];
    }
  }

  /** Exactly when memcpy moves: the destination is at or below the source, or the source repeats with the
  distance between them (in particular when the two do not overlap). */
  lemma ForwardMovesIff<T(!new)>(m: seq<T>, dst: nat, src: nat, cnt: nat)
    requires dst + cnt <= |m| && src + cnt <= |m|
    ensures Forward(m, dst, src, cnt) == Moved(m, dst, src, cnt) <==> dst <= src || Repeats(m, src, cnt, dst - src)
  {
    if dst <= src {
      ForwardMoves(m, dst, src, cnt);
    } else {
      if Forward(m, dst, src, cnt) == Moved(m, dst, src, cnt) { MovedRepeats(m, dst, src, cnt); }
      if Repeats(m, src, cnt, dst - src) { RepeatedMoves(m, dst, src, cnt); }
    }
  }

  method MemCpy<T>(ram: array<T>, dst: nat, src: nat, cnt: nat)
    requires dst + cnt <= ram.Length && src + cnt <= ram.Length
    modifies ram
    ensures ram[..] == Forward(old(ram[..]), dst, src, cnt)
  {
    var pd: nat, ps: nat, left: nat := dst, src, cnt;
    while left > 0
      invariant left <= cnt && pd == dst + cnt - left && ps == src + cnt - left
      invariant Forward(ram[..], pd, ps, left) == Forward(old(ram[..]), dst, src, cnt)
    {
      ghost var m := ram[..];
      left := left - 1;
      ram[pd] := ram[ps];
      assert ram[..] == m[pd := m[ps]];
      pd, ps := pd + 1, ps + 1;
    }
  }

  /** memmove leaves the destination with the source's old bytes and every other byte as it was, for every
  overlap and every count. */
  method MemMove<T>(ram: array<T>, dst: nat, src: nat, cnt: nat)
    requires dst + cnt <= ram.Length && src + cnt <= ram.Length
    modifies ram
    ensures ram[..] == Moved(old(ram[..]), dst, src, cnt)
    ensures forall x :: 0 <= x < ram.Length ==> MovedByte(old(ram[..]), dst, src, cnt, ram[..], x)
  {
    hide Moved;
    ghost var m := ram[..];
    if dst < src {
      ForwardMoves(m, dst, src, cnt);
      MemCpy(ram, dst, src, cnt);
      MovedBytes(m, dst, src, cnt, ram[..]);
      return;
    }
    var pd, ps, left := dst + cnt - 1, src + cnt - 1, cnt;
    while left > 0
      invariant 0 <= left <= cnt && pd == dst + left - 1 && ps == src + left - 1
      invariant forall x :: 0 <= x < dst + left || dst + cnt <= x < ram.Length ==> ram[x] == m[x]
      invariant forall x :: dst + left <= x < dst + cnt ==> ram[x] == m[x - dst + src]
    {
      left := left - 1;
      ram[pd] := ram[ps];
      pd, ps := pd - 1, ps - 1;
    }
    MovedBytes(m, dst, src, cnt, ram[..]);
  }
}
