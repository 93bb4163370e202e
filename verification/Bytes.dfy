/** Fixed-width integers, counters that wrap, and the two byte orders of the system: big-endian on
    the wire, little-endian in BMP files. */
module Bytes {

  type U8 = x: int | 0 <= x < 0x100
  type U16 = x: int | 0 <= x < 0x1_0000
  type U32 = x: int | 0 <= x < 0x1_0000_0000
  type I32 = x: int | -0x8000_0000 <= x < 0x8000_0000
  type U64 = x: int | 0 <= x < 0x1_0000_0000_0000_0000

  /** The cast `(uint32_t)v` of a signed value. */
  function Unsigned32(v: I32): U32 {
    if v < 0 then v + 0x1_0000_0000 else v
  }

  /** The cast `(int32_t)v` of an unsigned value. */
  function Signed32(v: U32): I32 {
    if v >= 0x8000_0000 then v - 0x1_0000_0000 else v
  }

  /** What a 32-bit or 64-bit counter shows after `n` increments from zero, and one increment. */
  function Low32(n: nat): U32 {
    n % 0x1_0000_0000
  }

  function Next32(n: U32): U32 {
    if n == 0xFFFF_FFFF then 0 else n + 1
  }

  function Low64(n: nat): U64 {
    n % 0x1_0000_0000_0000_0000
  }

  function Next64(n: U64): U64 {
    if n == 0xFFFF_FFFF_FFFF_FFFF then 0 else n + 1
  }

  lemma Counts32(n: nat)
    ensures Next32(Low32(n)) == Low32(n + 1)
  {
  }

  lemma Counts64(n: nat)
    ensures Next64(Low64(n)) == Low64(n + 1)
  {
  }

  function Min(a: nat, b: nat): nat {
    if a < b then a else b
  }

  function Pow2(n: nat): (p: nat)
    ensures p > 0
  {
    if n == 0 then 1 else 2 * Pow2(n - 1)
  }

  /** `n * unit + rest`, added up, so that byte-level proofs work with `Halves8` and `Halves16` and see
      products only through `StackedExact`. */
  function Stacked(n: nat, unit: nat, rest: nat): nat {
    if n == 0 then rest else unit + Stacked(n - 1, unit, rest)
  }

  lemma {:induction false} StackedExact(n: nat, rest: nat)
    ensures Stacked(n, 0x100, rest) == 0x100 * n + rest
    ensures Stacked(n, 0x1_0000, rest) == 0x1_0000 * n + rest
  {
    if n > 0 {
      StackedExact(n - 1, rest);
    }
  }

  /** Two bytes, or two 16-bit halves, put side by side. */
  function Join8(hi: U8, lo: U8): U16 {
    StackedExact(hi, lo);
    Stacked(hi, 0x100, lo)
  }

  function Join16(hi: U16, lo: U16): U32 {
    StackedExact(hi, lo);
    Stacked(hi, 0x1_0000, lo)
  }

  /** `v >> 8` and `v >> 16`, and what they leave, without a division. */
  function High8(v: nat): (q: nat)
    ensures 0x100 * q <= v < 0x100 * q + 0x100
  {
    HasQuotients(v);
    var q: nat :| 0x100 * q <= v < 0x100 * q + 0x100;
    q
  }

  function Low8(v: nat): U8 {
    v - 0x100 * High8(v)
  }

  function High16(v: nat): (q: nat)
    ensures 0x1_0000 * q <= v < 0x1_0000 * q + 0x1_0000
  {
    HasQuotients(v);
    var q: nat :| 0x1_0000 * q <= v < 0x1_0000 * q + 0x1_0000;
    q
  }

  function Low16(v: nat): U16 {
    v - 0x1_0000 * High16(v)
  }

  lemma HasQuotients(v: nat)
    ensures exists q: nat :: 0x100 * q <= v < 0x100 * q + 0x100
    ensures exists q: nat :: 0x1_0000 * q <= v < 0x1_0000 * q + 0x1_0000
  {
    var a, b := v / 0x100, v / 0x1_0000;
    assert 0x100 * a <= v < 0x100 * a + 0x100;
    assert 0x1_0000 * b <= v < 0x1_0000 * b + 0x1_0000;
  }

  lemma Shift16(v: nat)
    ensures High16(v) == v / 0x1_0000 && Low16(v) == v % 0x1_0000
  {
  }

  function Big16(v: U16): seq<U8> {
    [High8(v), Low8(v)]
  }

  function Big32(v: U32): seq<U8> {
    Big16(High16(v)) + Big16(Low16(v))
  }

  function ReadBig16(s: seq<U8>, at: nat): U16
    requires at + 2 <= |s|
  {
    Join8(s[at], s[at + 1])
  }

  function ReadBig32(s: seq<U8>, at: nat): U32
    requires at + 4 <= |s|
  {
    Join16(ReadBig16(s, at), ReadBig16(s, at + 2))
  }

  function Little16(v: U16): seq<U8> {
    [Low8(v), High8(v)]
  }

  function Little32(v: U32): seq<U8> {
    Little16(Low16(v)) + Little16(High16(v))
  }

  function ReadLittle16(s: seq<U8>, at: nat): U16
    requires at + 2 <= |s|
  {
    Join8(s[at + 1], s[at])
  }

  function ReadLittle32(s: seq<U8>, at: nat): U32
    requires at + 4 <= |s|
  {
    Join16(ReadLittle16(s, at + 2), ReadLittle16(s, at))
  }

  /** `part` occurs in `s` at index `at`. */
  predicate Holds<T(==)>(s: seq<T>, at: nat, part: seq<T>) {
    at + |part| <= |s| && s[at..at + |part|] == part
  }

  /** The byte extractions of the source, `v >> 24`, `v >> 16`, `v >> 8` and `v`. */
  lemma Shifts32(v: U32)
    ensures Big32(v) == [v / 0x100_0000, v / 0x1_0000 % 0x100, v / 0x100 % 0x100, v % 0x100]
    ensures Little32(v) == [v % 0x100, v / 0x100 % 0x100, v / 0x1_0000 % 0x100, v / 0x100_0000]
  {
    var hi, lo := High16(v), Low16(v);
    Quarters(v, hi, lo, High8(hi), Low8(hi), High8(lo), Low8(lo));
  }

  lemma Shifts16(v: U16)
    ensures Big16(v) == [v / 0x100, v % 0x100]
  {
  }

  lemma Quarters(v: U32, hi: nat, lo: nat, a: nat, b: U8, c: nat, d: U8)
    requires v == 0x1_0000 * hi + lo && lo < 0x1_0000 && hi == 0x100 * a + b && lo == 0x100 * c + d
    ensures a == v / 0x100_0000 && b == v / 0x1_0000 % 0x100 && c == v / 0x100 % 0x100 && d == v % 0x100
  {
    assert v / 0x1_0000 == hi && v / 0x100 == 0x100 * hi + c;
  }

  /** Joining and splitting are inverses. */
  lemma Halves8(v: U16, hi: U8, lo: U8)
    ensures Join8(hi, lo) == v <==> hi == High8(v) && lo == Low8(v)
  {
    StackedExact(hi, lo);
  }

  lemma Halves16(v: U32, hi: U16, lo: U16)
    ensures Join16(hi, lo) == v <==> hi == High16(v) && lo == Low16(v)
  {
    StackedExact(hi, lo);
  }

  /** Two bytes and the 16-bit value they spell determine each other. */
  lemma Big16Inverse(v: U16, s: seq<U8>, at: nat)
    requires at + 2 <= |s|
    ensures ReadBig16(s, at) == v <==> s[at..at + 2] == Big16(v)
  {
    Halves8(v, s[at], s[at + 1]);
    assert s[at..at + 2] == [s[at], s[at + 1]];
    if s[at..at + 2] == Big16(v) {
      assert [s[at], s[at + 1]] == Big16(v);
    }
  }

  /** Four bytes and the 32-bit value they spell determine each other. */
  lemma Big32Inverse(v: U32, s: seq<U8>, at: nat)
    requires at + 4 <= |s|
    ensures ReadBig32(s, at) == v <==> s[at..at + 4] == Big32(v)
  {
    Halves16(v, ReadBig16(s, at), ReadBig16(s, at + 2));
    Big16Inverse(High16(v), s, at);
    Big16Inverse(Low16(v), s, at + 2);
    assert s[at..at + 4] == s[at..at + 2] + s[at + 2..at + 4];
    var big := Big32(v);
    assert big[..2] == Big16(High16(v)) && big[2..] == Big16(Low16(v));
    if s[at..at + 4] == big {
      assert s[at..at + 4][..2] == s[at..at + 2] && s[at..at + 4][2..] == s[at + 2..at + 4];
    }
  }

  lemma Little32Inverse(v: U32, s: seq<U8>, at: nat)
    requires Holds(s, at, Little32(v))
    ensures ReadLittle32(s, at) == v
  {
    var part := s[at..at + 4];
    var hi, lo := High16(v), Low16(v);
    assert part[0] == s[at] && part[1] == s[at + 1] && part[2] == s[at + 2] && part[3] == s[at + 3];
    assert part == [Low8(lo), High8(lo), Low8(hi), High8(hi)];
    Halves8(lo, s[at + 1], s[at]);
    Halves8(hi, s[at + 3], s[at + 2]);
    Halves16(v, hi, lo);
  }
}
