/** Which bursts of corrupted bits the checksum detects. Bits are numbered in transmission
    order, most significant bit of each byte first. */
module Burst {
  import opened Bytes
  import opened Checksum

  function Take(b: bool, n: nat): nat {
    if b then n else 0
  }

  /** Bit `j` of a byte, counted from the most significant. */
  predicate ByteBit(b: nat, j: nat)
    requires j < 8
  {
    b / Pow2(7 - j) % 2 == 1
  }

  function Bits(d: seq<U8>): (bits: seq<bool>)
    ensures |bits| == 8 * |d|
  {
    seq(8 * |d|, k requires 0 <= k < 8 * |d| => ByteBit(d[k / 8], k % 8))
  }

  /** What bit `k` contributes to the word sum when it is set. */
  function Weight(k: nat): nat {
    Pow2(15 - k % 16)
  }

  /** The weighted sum of the first `n` bits. */
  function BitSum(bits: seq<bool>, n: nat): nat
    requires n <= |bits|
  {
    if n == 0 then 0 else BitSum(bits, n - 1) + Take(bits[n - 1], Weight(n - 1))
  }

  /** The `n` bits from `p` on, read as the leading bits of a 16-bit value. */
  function Window(bits: seq<bool>, p: nat, n: nat): nat
    requires n <= 16 && p + n <= |bits|
  {
    if n == 0 then 0 else Window(bits, p, n - 1) + Take(bits[p + n - 1], Pow2(16 - n))
  }

  /** The two bit strings differ at most in the `n` bits from `p` on. */
  ghost predicate Confined(a: seq<bool>, b: seq<bool>, p: nat, n: nat) {
    && |a| == |b|
    && p + n <= |a|
    && a[..p] == b[..p]
    && a[p + n..] == b[p + n..]
  }

  /** The sixteen bits from `p` on are all `v`. */
  ghost predicate Solid(bits: seq<bool>, p: nat, v: bool)
    requires p + 16 <= |bits|
  {
    forall k :: p <= k < p + 16 ==> bits[k] == v
  }

  // ---- powers of two ----------------------------------------------------------------

  lemma Powers()
    ensures Pow2(8) == 0x100
    ensures Pow2(16) == 0x1_0000
  {
    assert Pow2(4) == 16;
    assert Pow2(8) == 0x100;
    assert Pow2(12) == 0x1000;
  }

  lemma MulGrows(e: int, m: nat)
    ensures e >= 1 ==> e * m >= m
    ensures e <= -1 ==> e * m <= 0 - m
  {
  }

  lemma DivUnique(n: nat, m: nat, q: nat, r: nat)
    requires m > 0 && n == q * m + r && r < m
    ensures n / m == q
  {
    var e := n / m - q;
    assert e * m == r - n % m;
    MulGrows(e, m);
  }

  lemma Halve(b: nat, p: nat)
    requires p > 0
    ensures b / (2 * p) == b / p / 2
  {
    var q, r := b / p, b % p;
    assert q * p == (q / 2 * 2 + q % 2) * p == q / 2 * (2 * p) + q % 2 * p;
    DivUnique(b, 2 * p, q / 2, q % 2 * p + r);
  }

  /** Dividing by `p` instead of `2p` keeps one bit more. */
  lemma OneBitMore(b: nat, p: nat)
    requires p > 0
    ensures b / p * p == b / (2 * p) * (2 * p) + Take(b / p % 2 == 1, p)
  {
    Halve(b, p);
    var q := b / p;
    assert q * p == (q / 2 * 2 + q % 2) * p == q / 2 * (2 * p) + q % 2 * p;
  }

  // ---- the word sum is the weighted sum of the bits ---------------------------------

  /** The first `j` bits of a byte, as a value. */
  function Top(b: nat, j: nat): nat
    requires j <= 8
  {
    if j == 0 then 0 else Top(b, j - 1) + Take(ByteBit(b, j - 1), Pow2(8 - j))
  }

  lemma {:induction false} TopIsQuotient(b: nat, j: nat)
    requires b < 0x100 && j <= 8
    ensures Top(b, j) == b / Pow2(8 - j) * Pow2(8 - j)
  {
    if j == 0 {
      Powers();
    } else {
      TopIsQuotient(b, j - 1);
      OneBitMore(b, Pow2(8 - j));
    }
  }

  lemma {:induction false} WholeByte(b: U8)
    ensures Top(b, 8) == b
  {
    TopIsQuotient(b, 8);
  }

  function Scaled(i: nat, v: nat): nat {
    if i % 2 == 0 then 0x100 * v else v
  }

  lemma {:induction false} FourMore(m: nat)
    ensures Pow2(m + 4) == 16 * Pow2(m)
  {
    assert Pow2(m + 2) == 4 * Pow2(m);
  }

  lemma Remainder16(h: nat, r: nat)
    requires r < 16
    ensures (16 * h + r) % 16 == r
  {
  }

  lemma {:induction false} WeightSplit(i: nat, j: nat)
    requires j < 8
    ensures Weight(8 * i + j) == Scaled(i, Pow2(7 - j))
  {
    if i % 2 == 0 {
      Remainder16(i / 2, j);
      FourMore(11 - j);
      FourMore(7 - j);
    } else {
      Remainder16(i / 2, 8 + j);
    }
  }

  lemma BitOfByte(d: seq<U8>, i: nat, j: nat)
    requires i < |d| && j < 8
    ensures Bits(d)[8 * i + j] == ByteBit(d[i], j)
  {
    assert (8 * i + j) / 8 == i && (8 * i + j) % 8 == j;
  }

  lemma ScaledAdds(i: nat, v: nat, b: bool, w: nat)
    ensures Scaled(i, v + Take(b, w)) == Scaled(i, v) + Take(b, Scaled(i, w))
  {
  }

  lemma {:induction false} NextBit(bits: seq<bool>, k: nat, bit: bool, w: nat)
    requires k < |bits| && bits[k] == bit && Weight(k) == w
    ensures BitSum(bits, k + 1) == BitSum(bits, k) + Take(bit, w)
  {
  }

  /** The byte `b` is spelled by the eight bits from `at` on. */
  ghost predicate Spelled(bits: seq<bool>, at: nat, b: U8) {
    at + 8 <= |bits| && forall j :: 0 <= j < 8 ==> bits[at + j] == ByteBit(b, j)
  }

  lemma {:induction false} LeadingBits(bits: seq<bool>, b: U8, i: nat, at: nat, j: nat)
    requires at == 8 * i && Spelled(bits, at, b) && j <= 8
    ensures BitSum(bits, at + j) == BitSum(bits, at) + Scaled(i, Top(b, j))
  {
    if j > 0 {
      var bit, w := ByteBit(b, j - 1), Pow2(8 - j);
      LeadingBits(bits, b, i, at, j - 1);
      WeightSplit(i, j - 1);
      NextBit(bits, at + (j - 1), bit, Scaled(i, w));
      assert Top(b, j) == Top(b, j - 1) + Take(bit, w);
      ScaledAdds(i, Top(b, j - 1), bit, w);
    }
  }

  lemma ByteSpelled(d: seq<U8>, i: nat)
    requires i < |d|
    ensures Spelled(Bits(d), 8 * i, d[i])
  {
    forall j | 0 <= j < 8 ensures Bits(d)[8 * i + j] == ByteBit(d[i], j) {
      BitOfByte(d, i, j);
    }
  }

  lemma {:induction false} SpelledSum(bits: seq<bool>, b: U8, i: nat)
    requires Spelled(bits, 8 * i, b)
    ensures BitSum(bits, 8 * i + 8) == BitSum(bits, 8 * i) + Scaled(i, b)
  {
    LeadingBits(bits, b, i, 8 * i, 8);
    WholeByte(b);
  }

  lemma {:induction false} ByteSum(d: seq<U8>, i: nat)
    requires i < |d|
    ensures BitSum(Bits(d), 8 * i + 8) == BitSum(Bits(d), 8 * i) + Scaled(i, d[i])
  {
    ByteSpelled(d, i);
    SpelledSum(Bits(d), d[i], i);
  }

  /** Byte `i` of `d` accounts for bits `8i` to `8i + 7`. */
  ghost predicate ByteCounted(bits: seq<bool>, d: seq<U8>, i: nat)
    requires |bits| == 8 * |d| && i < |d|
  {
    BitSum(bits, 8 * i + 8) == BitSum(bits, 8 * i) + Scaled(i, d[i])
  }

  lemma PairValue(k: nat, a: nat, b: nat)
    ensures Scaled(2 * k, a) == Word(a, 0)
    ensures Scaled(2 * k, a) + Scaled(2 * k + 1, b) == Word(a, b)
  {
  }

  lemma {:induction false} WordBits(bits: seq<bool>, d: seq<U8>, k: nat)
    requires |bits| == 8 * |d| && k < WordCount(d)
    requires forall i: nat :: i < |d| ==> ByteCounted(bits, d, i)
    ensures 2 * k + 1 < |d| ==> BitSum(bits, 16 * k + 16) == BitSum(bits, 16 * k) + WordAt(d, k)
    ensures 2 * k + 1 == |d| ==> BitSum(bits, 16 * k + 8) == BitSum(bits, 16 * k) + WordAt(d, k)
  {
    var i := 2 * k;
    assert ByteCounted(bits, d, i);
    if i + 1 < |d| {
      assert ByteCounted(bits, d, i + 1);
      assert 8 * i + 8 == 8 * (i + 1) && 8 * (i + 1) + 8 == 16 * k + 16;
      PairValue(k, d[i], d[i + 1]);
    } else {
      PairValue(k, d[i], 0);
    }
  }

  lemma {:induction false} SumOfBits(bits: seq<bool>, d: seq<U8>, k: nat)
    requires |bits| == 8 * |d| && k <= WordCount(d)
    requires forall i: nat :: i < |d| ==> ByteCounted(bits, d, i)
    ensures SumTo(d, k) == BitSum(bits, if 2 * k <= |d| then 16 * k else 8 * |d|)
  {
    if k > 0 {
      SumOfBits(bits, d, k - 1);
      WordBits(bits, d, k - 1);
    }
  }

  lemma {:induction false} WordSumIsBitSum(d: seq<U8>)
    ensures WordSum(d) == BitSum(Bits(d), 8 * |d|)
  {
    forall i: nat | i < |d| ensures ByteCounted(Bits(d), d, i) {
      ByteSum(d, i);
    }
    SumOfBits(Bits(d), d, WordCount(d));
  }

  // ---- a burst, seen modulo 65535 ---------------------------------------------------

  /** Equal bits contribute equally. */
  lemma {:induction false} CommonPart(a: seq<bool>, b: seq<bool>, lo: nat, hi: nat)
    requires |a| == |b| && lo <= hi <= |a|
    requires a[lo..hi] == b[lo..hi]
    ensures BitSum(a, hi) - BitSum(a, lo) == BitSum(b, hi) - BitSum(b, lo)
  {
    if lo < hi {
      assert a[lo..hi - 1] == a[lo..hi][..hi - 1 - lo];
      assert b[lo..hi - 1] == b[lo..hi][..hi - 1 - lo];
      assert a[hi - 1] == a[lo..hi][hi - 1 - lo];
      assert b[hi - 1] == b[lo..hi][hi - 1 - lo];
      CommonPart(a, b, lo, hi - 1);
    }
  }

  /** Powers of two on a 16-bit ring: 2^16 is 1 modulo 65535. */
  function Ring(t: nat): nat {
    Pow2(t % 16)
  }

  lemma RingDoubles(t: nat)
    ensures 2 * Ring(t) == Ring(t + 1) + Take(t % 16 == 15, 0xFFFF)
  {
    Powers();
    assert (t + 1) % 16 == if t % 16 == 15 then 0 else t % 16 + 1;
  }

  /** The `n` bits from `p` on, the first of them with ring weight `t`. */
  function Turned(bits: seq<bool>, p: nat, n: nat, t: nat): nat
    requires n <= 16 <= t && p + n <= |bits|
  {
    if n == 0 then 0 else Turned(bits, p, n - 1, t) + Take(bits[p + n - 1], Ring(t - (n - 1)))
  }

  /** One turn of the ring doubles the value, modulo 65535. */
  lemma {:induction false} Turn(bits: seq<bool>, p: nat, n: nat, t: nat) returns (c: nat)
    requires n <= 16 <= t && p + n <= |bits|
    ensures 2 * Turned(bits, p, n, t) == Turned(bits, p, n, t + 1) + c * 0xFFFF
  {
    if n == 0 {
      return 0;
    }
    c := Turn(bits, p, n - 1, t);
    var w := t - (n - 1);
    RingDoubles(w);
    var x, x' := Turned(bits, p, n - 1, t), Turned(bits, p, n - 1, t + 1);
    var bit := bits[p + n - 1];
    c := TurnBit(x, x', c, bit, Ring(w), Ring(w + 1), w % 16 == 15);
    NextTurned(bits, p, n, t, bit, Ring(w));
    NextTurned(bits, p, n, t + 1, bit, Ring(w + 1));
  }

  lemma {:induction false} NextTurned(bits: seq<bool>, p: nat, n: nat, t: nat, bit: bool, r: nat)
    requires 0 < n <= 16 <= t && p + n <= |bits| && bit == bits[p + n - 1] && r == Ring(t - (n - 1))
    ensures Turned(bits, p, n, t) == Turned(bits, p, n - 1, t) + Take(bit, r)
  {
  }

  lemma TurnBit(x: nat, x': nat, c: nat, bit: bool, r: nat, r': nat, carry: bool) returns (c': nat)
    requires 2 * x == x' + c * 0xFFFF && 2 * r == r' + Take(carry, 0xFFFF)
    ensures 2 * (x + Take(bit, r)) == x' + Take(bit, r') + c' * 0xFFFF
  {
    c' := if bit && carry then c + 1 else c;
  }

  lemma Doubling(x: nat, y: nat, x': nat, y': nat, c: nat, e: nat)
    requires 2 * x == x' + c * 0xFFFF && 2 * y == y' + e * 0xFFFF
    ensures x % 0xFFFF == y % 0xFFFF <==> x' % 0xFFFF == y' % 0xFFFF
  {
    SameRemainder(2 * x, x', c);
    SameRemainder(2 * y, y', e);
    DoubleCancels(x, y);
  }

  lemma DoubleCancels(x: nat, y: nat)
    ensures 2 * x % 0xFFFF == 2 * y % 0xFFFF <==> x % 0xFFFF == y % 0xFFFF
  {
    var r, s := x % 0xFFFF, y % 0xFFFF;
    SameRemainder(2 * x, 2 * r, 2 * (x / 0xFFFF));
    SameRemainder(2 * y, 2 * s, 2 * (y / 0xFFFF));
  }

  /** Congruence of two windows does not depend on the weight of their first bit. */
  lemma {:induction false} TurnsAgree(a: seq<bool>, b: seq<bool>, p: nat, n: nat, t: nat)
    requires n <= 16 <= t <= 31 && p + n <= |a| == |b|
    ensures Turned(a, p, n, t) % 0xFFFF == Turned(b, p, n, t) % 0xFFFF <==>
            Turned(a, p, n, 31) % 0xFFFF == Turned(b, p, n, 31) % 0xFFFF
    decreases 31 - t
  {
    if t < 31 {
      TurnsAgree(a, b, p, n, t + 1);
      var c := Turn(a, p, n, t);
      var e := Turn(b, p, n, t);
      Doubling(Turned(a, p, n, t), Turned(b, p, n, t), Turned(a, p, n, t + 1), Turned(b, p, n, t + 1), c, e);
    }
  }

  lemma WeightIsRing(p: nat, j: nat)
    requires j < 16
    ensures Weight(p + j) == Ring(31 - p % 16 - j)
  {
    var m := p % 16;
    if m + j < 16 {
      assert (p + j) % 16 == m + j;
    } else {
      assert (p + j) % 16 == m + j - 16;
    }
  }

  lemma {:induction false} TurnedIsPart(bits: seq<bool>, p: nat, n: nat, t: nat)
    requires n <= 16 && p + n <= |bits| && t == 31 - p % 16
    ensures BitSum(bits, p + n) - BitSum(bits, p) == Turned(bits, p, n, t)
  {
    if n > 0 {
      TurnedIsPart(bits, p, n - 1, t);
      WeightIsRing(p, n - 1);
    }
  }

  lemma {:induction false} TurnedIsWindow(bits: seq<bool>, p: nat, n: nat)
    requires n <= 16 && p + n <= |bits|
    ensures Turned(bits, p, n, 31) == Window(bits, p, n)
  {
    if n > 0 {
      TurnedIsWindow(bits, p, n - 1);
      Remainder16(1, 15 - (n - 1));
    }
  }

  lemma CommonTerm(k: nat, x: nat, y: nat)
    ensures (k + x) % 0xFFFF == (k + y) % 0xFFFF <==> x % 0xFFFF == y % 0xFFFF
  {
  }

  lemma {:induction false} WindowsAgree(a: seq<bool>, b: seq<bool>, p: nat, n: nat, t: nat)
    requires n <= 16 <= t <= 31 && p + n <= |a| == |b|
    ensures Turned(a, p, n, t) % 0xFFFF == Turned(b, p, n, t) % 0xFFFF <==>
            Window(a, p, n) % 0xFFFF == Window(b, p, n) % 0xFFFF
  {
    TurnsAgree(a, b, p, n, t);
    TurnedIsWindow(a, p, n);
    TurnedIsWindow(b, p, n);
  }

  lemma {:induction false} PartsAgree(a: seq<bool>, b: seq<bool>, p: nat, n: nat, x: nat, y: nat)
    requires n <= 16 && p + n <= |a| == |b|
    requires x == BitSum(a, p + n) - BitSum(a, p) && y == BitSum(b, p + n) - BitSum(b, p)
    ensures x % 0xFFFF == y % 0xFFFF <==> Window(a, p, n) % 0xFFFF == Window(b, p, n) % 0xFFFF
  {
    var t := 31 - p % 16;
    TurnedIsPart(a, p, n, t);
    TurnedIsPart(b, p, n, t);
    WindowsAgree(a, b, p, n, t);
  }

  /** Outside the burst both strings contribute the same amount `k`. */
  lemma SplitSums(a: seq<bool>, b: seq<bool>, p: nat, n: nat) returns (k: nat, x: nat, y: nat)
    requires n <= 16 && Confined(a, b, p, n)
    ensures BitSum(a, |a|) == k + x && BitSum(b, |b|) == k + y
    ensures x == BitSum(a, p + n) - BitSum(a, p) && y == BitSum(b, p + n) - BitSum(b, p)
  {
    assert a[0..p] == a[..p] && b[0..p] == b[..p];
    assert a[p + n..|a|] == a[p + n..] && b[p + n..|b|] == b[p + n..];
    CommonPart(a, b, 0, p);
    CommonPart(a, b, p + n, |a|);
    Grows(a, p + n, |a|);
    Grows(a, p, p + n);
    Grows(b, p, p + n);
    x, y := BitSum(a, p + n) - BitSum(a, p), BitSum(b, p + n) - BitSum(b, p);
    k := BitSum(a, p) + BitSum(a, |a|) - BitSum(a, p + n);
  }

  lemma SplitAgree(a: seq<bool>, b: seq<bool>, p: nat, n: nat) returns (k: nat, x: nat, y: nat)
    requires n <= 16 && Confined(a, b, p, n)
    ensures BitSum(a, |a|) == k + x && BitSum(b, |b|) == k + y
    ensures x % 0xFFFF == y % 0xFFFF <==> Window(a, p, n) % 0xFFFF == Window(b, p, n) % 0xFFFF
  {
    k, x, y := SplitSums(a, b, p, n);
    PartsAgree(a, b, p, n, x, y);
  }

  /** A burst leaves the sum unchanged modulo 65535 exactly if it leaves its window unchanged
      modulo 65535, wherever the burst starts. */
  lemma {:induction false} BurstCongruence(a: seq<bool>, b: seq<bool>, p: nat, n: nat)
    requires n <= 16 && Confined(a, b, p, n)
    ensures BitSum(a, |a|) % 0xFFFF == BitSum(b, |b|) % 0xFFFF <==>
            Window(a, p, n) % 0xFFFF == Window(b, p, n) % 0xFFFF
  {
    var k, x, y := SplitAgree(a, b, p, n);
    CommonTerm(k, x, y);
  }

  lemma {:induction false} Grows(bits: seq<bool>, lo: nat, hi: nat)
    requires lo <= hi <= |bits|
    ensures BitSum(bits, lo) <= BitSum(bits, hi)
  {
    if lo < hi {
      Grows(bits, lo, hi - 1);
    }
  }

  // ---- the window determines its bits -----------------------------------------------

  lemma {:induction false} WindowRange(bits: seq<bool>, p: nat, j: nat, n: nat)
    requires j <= n <= 16 && p + n <= |bits|
    ensures Window(bits, p, j) <= Window(bits, p, n) <= Window(bits, p, j) + Pow2(16 - j) - Pow2(16 - n)
  {
    if j < n {
      WindowRange(bits, p, j, n - 1);
    }
  }

  lemma {:induction false} SameWindow(a: seq<bool>, b: seq<bool>, p: nat, n: nat, j: nat)
    requires j <= n <= 16 && p + n <= |a| == |b|
    requires Window(a, p, n) == Window(b, p, n)
    ensures Window(a, p, j) == Window(b, p, j)
    ensures forall k :: p <= k < p + j ==> a[k] == b[k]
  {
    if j > 0 {
      SameWindow(a, b, p, n, j - 1);
      WindowRange(a, p, j, n);
      WindowRange(b, p, j, n);
    }
  }

  /** Sixteen bits read 65535 exactly if all are set, and `n` bits read 0 exactly if none is. */
  lemma {:induction false} Extremes(bits: seq<bool>, p: nat, n: nat)
    requires n <= 16 && p + n <= |bits|
    ensures Window(bits, p, n) <= 0x1_0000 - Pow2(16 - n)
    ensures Window(bits, p, n) == 0 <==> forall k :: p <= k < p + n ==> !bits[k]
    ensures Window(bits, p, n) == 0x1_0000 - Pow2(16 - n) <==> forall k :: p <= k < p + n ==> bits[k]
  {
    Powers();
    if n > 0 {
      Extremes(bits, p, n - 1);
    }
  }

  lemma {:induction false} TopFromBits(b: nat, c: nat, j: nat)
    requires j <= 8
    requires forall i :: 0 <= i < j ==> ByteBit(b, i) == ByteBit(c, i)
    ensures Top(b, j) == Top(c, j)
  {
    if j > 0 {
      TopFromBits(b, c, j - 1);
    }
  }

  lemma BitsInjective(a: seq<U8>, b: seq<U8>)
    requires Bits(a) == Bits(b)
    ensures a == b
  {
    forall i | 0 <= i < |a| ensures a[i] == b[i] {
      forall j | 0 <= j < 8 ensures ByteBit(a[i], j) == ByteBit(b[i], j) {
        assert Bits(a)[8 * i + j] == Bits(b)[8 * i + j];
      }
      TopFromBits(a[i], b[i], 8);
      WholeByte(a[i]);
      WholeByte(b[i]);
    }
  }

  lemma SmallResidues(v: nat, w: nat)
    requires v <= 0xFFFF && w <= 0xFFFF
    ensures v % 0xFFFF == w % 0xFFFF <==> v == w || (v == 0 && w == 0xFFFF) || (v == 0xFFFF && w == 0)
  {
  }

  // ---- main results -----------------------------------------------------------------

  /** All sixteen bits from `p` on were turned from zeros into ones or from ones into zeros. */
  ghost predicate Inverted(a: seq<bool>, b: seq<bool>, p: nat)
    requires p + 16 <= |a| == |b|
  {
    || (Solid(a, p, false) && Solid(b, p, true))
    || (Solid(a, p, true) && Solid(b, p, false))
  }

  lemma BurstSums(a: seq<U8>, b: seq<U8>, p: nat, n: nat)
    requires n <= 16 && Confined(Bits(a), Bits(b), p, n)
    ensures WordSum(a) % 0xFFFF == WordSum(b) % 0xFFFF <==>
            a == b || (n == 16 && Inverted(Bits(a), Bits(b), p))
  {
    BurstCongruence(Bits(a), Bits(b), p, n);
    WindowCases(Bits(a), Bits(b), p, n);
    WordSumIsBitSum(a);
    WordSumIsBitSum(b);
    if Bits(a) == Bits(b) {
      BitsInjective(a, b);
    }
  }

  /** A burst of at most 16 bits goes undetected exactly if it changes nothing, or if it turns
      sixteen equal bits over in a payload that is nonzero before and after. */
  lemma BurstUndetected(a: seq<U8>, b: seq<U8>, p: nat, n: nat)
    requires |a| <= SAFE_LEN && n <= 16 && Confined(Bits(a), Bits(b), p, n)
    ensures Sum16(a) == Sum16(b) <==>
            || a == b
            || (n == 16 && Inverted(Bits(a), Bits(b), p) && WordSum(a) != 0 && WordSum(b) != 0)
  {
    Collision(a, b);
    BurstSums(a, b, p, n);
    if WordSum(a) == 0 && WordSum(b) == 0 && n == 16 && Inverted(Bits(a), Bits(b), p) {
      AllZero(a);
      AllZero(b);
    }
  }

  lemma {:induction false} ZeroWords(d: seq<U8>, k: nat)
    requires k <= WordCount(d) && SumTo(d, k) == 0
    ensures forall i :: 0 <= i < 2 * k && i < |d| ==> d[i] == 0
  {
    if k > 0 {
      ZeroWords(d, k - 1);
      assert WordAt(d, k - 1) == 0;
    }
  }

  lemma AllZero(d: seq<U8>)
    requires WordSum(d) == 0
    ensures d == seq(|d|, _ => 0)
  {
    ZeroWords(d, WordCount(d));
  }

  lemma {:induction false} WindowCases(x: seq<bool>, y: seq<bool>, p: nat, n: nat)
    requires n <= 16 && Confined(x, y, p, n)
    ensures Window(x, p, n) % 0xFFFF == Window(y, p, n) % 0xFFFF <==>
            x == y || (n == 16 && Inverted(x, y, p))
  {
    Powers();
    Extremes(x, p, n);
    Extremes(y, p, n);
    SmallResidues(Window(x, p, n), Window(y, p, n));
    if Window(x, p, n) == Window(y, p, n) {
      SameWindow(x, y, p, n, n);
      Rejoin(x, y, p, n);
    }
  }

  lemma Rejoin(x: seq<bool>, y: seq<bool>, p: nat, n: nat)
    requires Confined(x, y, p, n)
    requires forall k :: p <= k < p + n ==> x[k] == y[k]
    ensures x == y
  {
    assert x[p..p + n] == y[p..p + n];
    assert x == x[..p] + x[p..p + n] + x[p + n..];
    assert y == y[..p] + y[p..p + n] + y[p + n..];
  }

  /** Every nonempty corruption confined to 15 consecutive bits is detected, also when those
      bits straddle two words. */
  lemma BurstDetected(a: seq<U8>, b: seq<U8>, p: nat, n: nat)
    requires |a| <= SAFE_LEN && n <= 15 && Confined(Bits(a), Bits(b), p, n)
    requires a != b
    ensures Sum16(a) != Sum16(b)
  {
    BurstUndetected(a, b, p, n);
  }
}
