/** Memory as bytes: little-endian fields, and the block header of lib/stdlib/heap.c laid out in them. */
module Bytes {

  type Byte = b: int | 0 <= b < 256

  const WORD: nat := 0x1_0000_0000_0000_0000

  function Pow256(n: nat): (r: nat)
    ensures r > 0
  {
    if n == 0 then 1 else 256 * Pow256(n - 1)
  }

  /** The n bytes of v, least significant first. */
  function Encode(v: nat, n: nat): (s: seq<Byte>)
    ensures |s| == n
  {
    if n == 0 then [] else [v % 256] + Encode(v / 256, n - 1)
  }

  /** The n-byte little-endian number at address a; bytes beyond the memory read as zero. */
  function Field(m: seq<Byte>, a: nat, n: nat): (v: nat)
    ensures v < Pow256(n)
    decreases n
  {
    if n == 0 then 0 else (if a < |m| then m[a] else 0) + 256 * Field(m, a + 1, n - 1)
  }

  lemma Multiples(k: int, d: nat)
    ensures k >= 1 ==> k * d >= d
    ensures k <= -1 ==> k * d + d <= 0
  {}

  lemma QuotientIs(v: nat, d: nat, q: nat, r: nat)
    requires d > 0 && v == q * d + r && r < d
    ensures v / d == q
  {
    var e := v / d;
    assert v == e * d + v % d;
    assert (e - q) * d == r - v % d;
    Multiples(e - q, d);
  }

  lemma TwoDivisions(v: nat, p: nat)
    requires p > 0
    ensures v / 256 / p == v / (256 * p)
  {
    var a := v / 256;
    var q, r, s := a / p, a % p, v % 256;
    assert a == q * p + r;
    assert v == 256 * a + s;
    assert v == q * (256 * p) + (256 * r + s);
    assert 256 * r + s < 256 * p;
    QuotientIs(v, 256 * p, q, 256 * r + s);
  }

  /** Byte k is the k-th digit of the number to the base 256: the least significant byte comes first. */
  lemma {:induction false} EncodeDigit(v: nat, n: nat, k: nat)
    requires k < n
    ensures Encode(v, n)[k] == v / Pow256(k) % 256
    decreases k
  {
    if k > 0 {
      EncodeDigit(v / 256, n - 1, k - 1);
      TwoDivisions(v, Pow256(k - 1));
    }
  }

  /** The two memories agree on [lo, hi). */
  ghost predicate SameOn(m: seq<Byte>, w: seq<Byte>, lo: nat, hi: nat) {
    |m| == |w| && forall x :: lo <= x < hi && x < |m| ==> m[x] == w[x]
  }

  lemma {:induction false} FieldSame(m: seq<Byte>, w: seq<Byte>, a: nat, n: nat)
    requires SameOn(m, w, a, a + n)
    ensures Field(m, a, n) == Field(w, a, n)
    decreases n
  {
    if n > 0 { FieldSame(m, w, a + 1, n - 1); }
  }

  /** Reading back a number of at most n bytes. */
  lemma {:induction false} FieldOfEncode(m: seq<Byte>, a: nat, n: nat, v: nat)
    requires a + n <= |m| && m[a..a + n] == Encode(v, n) && v < Pow256(n)
    ensures Field(m, a, n) == v
    decreases n
  {
    if n > 0 {
      assert m[a] == m[a..a + n][0];
      assert m[a + 1..a + n] == m[a..a + n][1..];
      FieldOfEncode(m, a + 1, n - 1, v / 256);
    }
  }

  lemma Pow4()
    ensures Pow256(4) == 0x1_0000_0000
  {
    assert Pow256(2) == 0x1_0000;
  }

  lemma Pow8()
    ensures Pow256(8) == WORD
  {
    Pow4();
    assert Pow256(6) == 0x1_0000_0000_0000;
  }

  // ----- Block headers -----

  const MAGIC := 0xCAFEBABE

  datatype Header = Header(sign: nat, attr: nat, size: nat, next: nat, prev: nat)

  const HEADER := 32

  function HeaderAt(m: seq<Byte>, a: nat): Header {
    Header(Field(m, a, 4), Field(m, a + 4, 4), Field(m, a + 8, 8), Field(m, a + 16, 8), Field(m, a + 24, 8))
  }

  /** IS_VALID and IS_FREE, where address 0 is the null pointer. */
  predicate IsValid(m: seq<Byte>, a: nat) { a != 0 && HeaderAt(m, a).sign == MAGIC }

  predicate IsFree(m: seq<Byte>, a: nat) { a != 0 && HeaderAt(m, a).attr % 2 == 1 }

  /** The header at a became h and no other byte changed. */
  ghost predicate Wrote(m: seq<Byte>, w: seq<Byte>, a: nat, h: Header) {
    HeaderAt(w, a) == h && SameOn(m, w, 0, a) && SameOn(m, w, a + HEADER, |m|)
  }

  lemma HeaderSame(m: seq<Byte>, w: seq<Byte>, a: nat)
    requires SameOn(m, w, a, a + HEADER)
    ensures HeaderAt(m, a) == HeaderAt(w, a)
  {
    hide Field;
    FieldSame(m, w, a, 4);
    FieldSame(m, w, a + 4, 4);
    FieldSame(m, w, a + 8, 8);
    FieldSame(m, w, a + 16, 8);
    FieldSame(m, w, a + 24, 8);
  }

  /** Store n bytes of v at address a. */
  method Store(ram: array<Byte>, a: nat, n: nat, v: nat)
    requires a + n <= ram.Length && v < Pow256(n)
    modifies ram
    ensures Field(ram[..], a, n) == v
    ensures SameOn(old(ram[..]), ram[..], 0, a) && SameOn(old(ram[..]), ram[..], a + n, ram.Length)
  {
    var i, rest := 0, v;
    while i < n
      invariant i <= n
      invariant ram[a..a + i] + Encode(rest, n - i) == Encode(v, n)
      invariant forall x :: 0 <= x < a || a + n <= x < ram.Length ==> ram[x] == old(ram[x])
    {
      ghost var done, tail := ram[a..a + i], Encode(rest / 256, n - i - 1);
      assert Encode(rest, n - i) == [rest % 256] + tail;
      ram[a + i] := rest % 256;
      assert ram[a..a + i + 1] == done + [rest % 256];
      i, rest := i + 1, rest / 256;
    }
    assert ram[a..a + n] == Encode(v, n);
    FieldOfEncode(ram[..], a, n, v);
  }

  /** One field of the header at a changed: the others are as they were. */
  lemma FieldChanged(m: seq<Byte>, w: seq<Byte>, a: nat, at: nat, n: nat)
    requires SameOn(m, w, 0, a + at) && SameOn(m, w, a + at + n, |m|) && a + HEADER <= |m| && at + n <= HEADER
    ensures at >= 4 ==> HeaderAt(w, a).sign == HeaderAt(m, a).sign
    ensures at >= 8 || at + n <= 4 ==> HeaderAt(w, a).attr == HeaderAt(m, a).attr
    ensures at >= 16 || at + n <= 8 ==> HeaderAt(w, a).size == HeaderAt(m, a).size
    ensures at >= 24 || at + n <= 16 ==> HeaderAt(w, a).next == HeaderAt(m, a).next
    ensures at + n <= 24 ==> HeaderAt(w, a).prev == HeaderAt(m, a).prev
  {
    hide Field;
    if at >= 4 { FieldSame(m, w, a, 4); }
    if at >= 8 || at + n <= 4 { FieldSame(m, w, a + 4, 4); }
    if at >= 16 || at + n <= 8 { FieldSame(m, w, a + 8, 8); }
    if at >= 24 || at + n <= 16 { FieldSame(m, w, a + 16, 8); }
    if at + n <= 24 { FieldSame(m, w, a + 24, 8); }
  }

  method SetSign(ram: array<Byte>, a: nat, v: nat)
    requires a + HEADER <= ram.Length && v < 0x1_0000_0000
    modifies ram
    ensures Wrote(old(ram[..]), ram[..], a, HeaderAt(old(ram[..]), a).(sign := v))
  {
    hide Field;
    Pow4();
    Store(ram, a, 4, v);
    FieldChanged(old(ram[..]), ram[..], a, 0, 4);
  }

  method SetAttr(ram: array<Byte>, a: nat, v: nat)
    requires a + HEADER <= ram.Length && v < 0x1_0000_0000
    modifies ram
    ensures Wrote(old(ram[..]), ram[..], a, HeaderAt(old(ram[..]), a).(attr := v))
  {
    hide Field;
    Pow4();
    Store(ram, a + 4, 4, v);
    FieldChanged(old(ram[..]), ram[..], a, 4, 4);
  }

  method SetSize(ram: array<Byte>, a: nat, v: nat)
    requires a + HEADER <= ram.Length && v < WORD
    modifies ram
    ensures Wrote(old(ram[..]), ram[..], a, HeaderAt(old(ram[..]), a).(size := v))
  {
    hide Field;
    Pow8();
    Store(ram, a + 8, 8, v);
    FieldChanged(old(ram[..]), ram[..], a, 8, 8);
  }

  method SetNext(ram: array<Byte>, a: nat, v: nat)
    requires a + HEADER <= ram.Length && v < WORD
    modifies ram
    ensures Wrote(old(ram[..]), ram[..], a, HeaderAt(old(ram[..]), a).(next := v))
  {
    hide Field;
    Pow8();
    Store(ram, a + 16, 8, v);
    FieldChanged(old(ram[..]), ram[..], a, 16, 8);
  }

  method SetPrev(ram: array<Byte>, a: nat, v: nat)
    requires a + HEADER <= ram.Length && v < WORD
    modifies ram
    ensures Wrote(old(ram[..]), ram[..], a, HeaderAt(old(ram[..]), a).(prev := v))
  {
    hide Field;
    Pow8();
    Store(ram, a + 24, 8, v);
    FieldChanged(old(ram[..]), ram[..], a, 24, 8);
  }

  /** `*blk = (block_header_t){ ... }`. */
  method SetHeader(ram: array<Byte>, a: nat, h: Header)
    requires a + HEADER <= ram.Length
    requires h.sign < 0x1_0000_0000 && h.attr < 0x1_0000_0000 && h.size < WORD && h.next < WORD && h.prev < WORD
    modifies ram
    ensures Wrote(old(ram[..]), ram[..], a, h)
  {
    hide HeaderAt;
    SetSign(ram, a, h.sign);
    SetAttr(ram, a, h.attr);
    SetSize(ram, a, h.size);
    SetNext(ram, a, h.next);
    SetPrev(ram, a, h.prev);
  }
}
