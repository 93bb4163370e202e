/** The RFC 1071 checksum of common/checksum.c: 16-bit big-endian words are added into a
    32-bit accumulator, the carries are folded back at the end, and the result is
    complemented. */
module Checksum {
  import opened Bytes

  /** The longest buffer whose word sum cannot exceed 32 bits. */
  const SAFE_LEN := 131074

  // ---- specification of the computation ---------------------------------------------

  function WordCount(d: seq<U8>): nat {
    (|d| + 1) / 2
  }

  /** A 16-bit word from its two bytes. */
  function Word(hi: nat, lo: nat): nat {
    hi * 0x100 + lo
  }

  /** Word `k`; an odd trailing byte is padded with a zero low byte. */
  function WordAt(d: seq<U8>, k: nat): U16
    requires k < WordCount(d)
  {
    Word(d[2 * k], if 2 * k + 1 < |d| then d[2 * k + 1] else 0)
  }

  /** The exact sum of the first `k` words, over unbounded integers. */
  function SumTo(d: seq<U8>, k: nat): nat
    requires k <= WordCount(d)
  {
    if k == 0 then 0 else SumTo(d, k - 1) + WordAt(d, k - 1)
  }

  function WordSum(d: seq<U8>): nat {
    SumTo(d, WordCount(d))
  }

  function FoldOnce(sum: nat): nat {
    Low16(sum) + High16(sum)
  }

  function Fold(sum: nat): U16 {
    if sum < 0x1_0000 then sum else Fold(FoldOnce(sum))
  }

  function Sum16(d: seq<U8>): U16 {
    0xFFFF - Fold(Low32(WordSum(d)))
  }

  // ---- the reference: section 2 of RFC 1071 ----------------------------------------

  /** Ones'-complement addition: the carry out of bit 15 is added back at once. */
  function EndAround(a: U16, b: U16): U16 {
    if a + b >= 0x1_0000 then a + b - 0xFFFF else a + b
  }

  function OnesSumTo(d: seq<U8>, k: nat): U16
    requires k <= WordCount(d)
  {
    if k == 0 then 0 else EndAround(OnesSumTo(d, k - 1), WordAt(d, k - 1))
  }

  function Rfc1071(d: seq<U8>): U16 {
    0xFFFF - OnesSumTo(d, WordCount(d))
  }

  // ---- the implementation -----------------------------------------------------------

  method Compute(data: array<U8>, from: nat, len: nat) returns (r: U16)
    requires from + len <= data.Length
    ensures r == Sum16(data[from..from + len])
  {
    ghost var d := data[from..from + len];
    var sum: U32, i := 0, 0;
    ghost var k := 0;
    while i + 1 < len
      invariant i == 2 * k && k <= WordCount(d) && i <= len
      invariant sum == Low32(SumTo(d, k))
    {
      var word := Word(data[from + i], data[from + i + 1]);
      assert word == WordAt(d, k);
      Accumulate(SumTo(d, k), word);
      sum := Low32(sum + word);
      i, k := i + 2, k + 1;
    }
    if i < len {
      var word := Word(data[from + i], 0);
      assert word == WordAt(d, k);
      Accumulate(SumTo(d, k), word);
      sum, k := Low32(sum + word), k + 1;
    }
    assert k == WordCount(d);
    var folded := FoldCarries(sum);
    return 0xFFFF - folded;
  }

  lemma Accumulate(n: nat, w: nat)
    ensures Low32(Low32(n) + w) == Low32(n + w)
  {
  }

  method FoldCarries(s: U32) returns (sum: U32)
    ensures sum == Fold(s)
  {
    sum := s;
    while sum / 0x1_0000 != 0
      invariant Fold(sum) == Fold(s)
      decreases sum
    {
      Shift16(sum);
      FoldRounds(sum);
      sum := sum % 0x1_0000 + sum / 0x1_0000;
    }
  }

  // ---- folding is reduction modulo 65535 --------------------------------------------

  /** The representative of `n` modulo 65535 that ones'-complement addition settles on:
      zero stands only for the sum zero, every other multiple of 65535 is 65535. */
  function Residue(n: nat): U16 {
    if n == 0 then 0 else (n - 1) % 0xFFFF + 1
  }

  lemma {:induction false} FoldIsResidue(sum: nat)
    ensures Fold(sum) == Residue(sum)
  {
    if sum >= 0x1_0000 {
      FoldIsResidue(FoldOnce(sum));
      assert sum == FoldOnce(sum) + High16(sum) * 0xFFFF;
      ResidueShift(FoldOnce(sum), High16(sum));
    }
  }

  lemma ResidueShift(n: nat, k: nat)
    requires n > 0
    ensures Residue(n + k * 0xFFFF) == Residue(n)
  {
    assert n + k * 0xFFFF - 1 == (n - 1) + k * 0xFFFF;
  }

  /** The carry fold never needs a third round on a 32-bit sum. */
  lemma FoldRounds(sum: U32)
    ensures FoldOnce(FoldOnce(sum)) < 0x1_0000
    ensures sum >= 0x1_0000 ==> FoldOnce(sum) < sum
  {
    var hi, lo := High16(sum), Low16(sum);
    assert sum == hi * 0x1_0000 + lo;
    if FoldOnce(sum) >= 0x1_0000 {
      assert High16(FoldOnce(sum)) == 1;
    }
  }

  lemma {:induction false} SumBound(d: seq<U8>, k: nat)
    requires k <= WordCount(d)
    ensures SumTo(d, k) <= k * 0xFFFF
  {
    if k > 0 {
      SumBound(d, k - 1);
    }
  }

  /** Up to 131074 bytes the 32-bit accumulator never wraps, at any point of the loop. */
  lemma {:induction false} NoWrap(d: seq<U8>, k: nat)
    requires |d| <= SAFE_LEN && k <= WordCount(d)
    ensures SumTo(d, k) < 0x1_0000_0000
  {
    SumBound(d, k);
  }

  lemma SafeSum(d: seq<U8>)
    requires |d| <= SAFE_LEN
    ensures Sum16(d) == 0xFFFF - Residue(WordSum(d))
  {
    NoWrap(d, WordCount(d));
    FoldLow(WordSum(d));
  }

  lemma FoldLow(n: nat)
    requires n < 0x1_0000_0000
    ensures Fold(Low32(n)) == Residue(n)
  {
    assert Low32(n) == n;
    FoldIsResidue(n);
  }

  // ---- deferred carries against immediate carries -----------------------------------

  lemma {:induction false} OnesSumIsResidue(d: seq<U8>, k: nat)
    requires k <= WordCount(d)
    ensures OnesSumTo(d, k) == Residue(SumTo(d, k))
  {
    if k > 0 {
      OnesSumIsResidue(d, k - 1);
      EndAroundResidue(SumTo(d, k - 1), WordAt(d, k - 1));
    }
  }

  lemma EndAroundResidue(n: nat, w: U16)
    ensures EndAround(Residue(n), w) == Residue(n + w)
  {
    if n > 0 {
      var q := (n - 1) / 0xFFFF;
      assert n == Residue(n) + q * 0xFFFF;
      ResidueShift(Residue(n) + w, q);
    }
  }

  /** Deferred and immediate carries agree exactly when the carries lost above bit 31 are a
      multiple of 65535 and no nonzero sum has been truncated to zero. */
  lemma DeferredCarryExact(d: seq<U8>)
    ensures Sum16(d) == Rfc1071(d) <==>
            WordSum(d) / 0x1_0000_0000 % 0xFFFF == 0 && (Low32(WordSum(d)) == 0 ==> WordSum(d) == 0)
  {
    OnesSumIsResidue(d, WordCount(d));
    FoldIsResidue(Low32(WordSum(d)));
    LostCarries(WordSum(d));
  }

  /** 2^32 is 1 modulo 65535, so each lost carry is worth one. */
  lemma LostCarries(s: nat)
    ensures Residue(Low32(s)) == Residue(s) <==>
            s / 0x1_0000_0000 % 0xFFFF == 0 && (Low32(s) == 0 ==> s == 0)
  {
    var q, r := s / 0x1_0000_0000, Low32(s);
    assert s == (q + r) + q * 0x1_0001 * 0xFFFF;
    if r > 0 {
      ResidueShift(q + r, q * 0x1_0001);
      ResidueSum(q, r);
    }
  }

  lemma ResidueSum(q: nat, r: nat)
    requires r > 0
    ensures Residue(q + r) == Residue(r) <==> q % 0xFFFF == 0
  {
    var a, b := q / 0xFFFF, q % 0xFFFF;
    assert q + r == (b + r) + a * 0xFFFF;
    ResidueShift(b + r, a);
    var c := (r - 1) / 0xFFFF;
    assert b + r == (b + Residue(r)) + c * 0xFFFF;
    ResidueShift(b + Residue(r), c);
  }

  /** On every buffer of at most 131074 bytes the routine is the RFC 1071 checksum. */
  lemma DeferredCarryIsRfc1071(d: seq<U8>)
    requires |d| <= SAFE_LEN
    ensures Sum16(d) == Rfc1071(d)
  {
    SafeSum(d);
    OnesSumIsResidue(d, WordCount(d));
  }

  /** One word more and agreement can fail: 65538 words of 0xFFFF. */
  lemma WrapBreaksRfc1071()
    ensures var d := seq(SAFE_LEN + 2, _ => 0xFF);
            Sum16(d) != Rfc1071(d)
  {
    var d := seq(SAFE_LEN + 2, _ => 0xFF);
    SumOfOnes(d, WordCount(d));
    DeferredCarryExact(d);
  }

  lemma {:induction false} SumOfOnes(d: seq<U8>, k: nat)
    requires k <= WordCount(d) && |d| % 2 == 0
    requires forall i :: 0 <= i < |d| ==> d[i] == 0xFF
    ensures SumTo(d, k) == k * 0xFFFF
  {
    if k > 0 {
      SumOfOnes(d, k - 1);
    }
  }

  // ---- collisions -------------------------------------------------------------------

  lemma ResidueEqual(m: nat, n: nat)
    ensures Residue(m) == Residue(n) <==> m % 0xFFFF == n % 0xFFFF && (m == 0 <==> n == 0)
  {
    if m > 0 && n > 0 {
      var a, b := Residue(m), Residue(n);
      assert m == a + (m - 1) / 0xFFFF * 0xFFFF;
      assert n == b + (n - 1) / 0xFFFF * 0xFFFF;
      assert m % 0xFFFF == a % 0xFFFF;
      assert n % 0xFFFF == b % 0xFFFF;
    }
  }

  /** Two buffers collide exactly when their word sums are congruent modulo 65535 and are
      both zero or both nonzero. */
  lemma Collision(a: seq<U8>, b: seq<U8>)
    requires |a| <= SAFE_LEN && |b| <= SAFE_LEN
    ensures Sum16(a) == Sum16(b) <==>
            WordSum(a) % 0xFFFF == WordSum(b) % 0xFFFF && (WordSum(a) == 0 <==> WordSum(b) == 0)
  {
    SafeSum(a);
    SafeSum(b);
    ResidueEqual(WordSum(a), WordSum(b));
  }

  // ---- self-verification ------------------------------------------------------------

  lemma {:induction false} SumPrefix(d: seq<U8>, e: seq<U8>, k: nat)
    requires 2 * k <= |d|
    ensures SumTo(d + e, k) == SumTo(d, k)
  {
    if k > 0 {
      SumPrefix(d, e, k - 1);
    }
  }

  lemma AppendBytes(d: seq<U8>, a: U8, b: U8)
    ensures WordSum(d + [a, b]) == WordSum(d) + if |d| % 2 == 0 then Word(a, b) else Word(b, a)
  {
    var e, k := d + [a, b], |d| / 2;
    SumPrefix(d, [a, b], k);
    if |d| % 2 == 1 {
      assert SumTo(e, k + 1) == SumTo(e, k) + WordAt(e, k);
    }
  }

  lemma AppendWord(d: seq<U8>, c: U16)
    ensures WordSum(d + Big16(c)) == WordSum(d) + if |d| % 2 == 0 then c else SwapBytes(c)
  {
    AppendBytes(d, High8(c), Low8(c));
  }

  function SwapBytes(c: U16): U16 {
    Word(Low8(c), High8(c))
  }

  lemma EvenTail(s: nat)
    ensures Residue(s + (0xFFFF - Residue(s))) == 0xFFFF
  {
    var q := if s == 0 then 0 else (s - 1) / 0xFFFF;
    assert s + (0xFFFF - Residue(s)) == 0xFFFF + q * 0xFFFF;
    ResidueShift(0xFFFF, q);
  }

  lemma FullResidue(n: nat)
    ensures Residue(n) == 0xFFFF <==> n > 0 && n % 0xFFFF == 0
  {
    ResidueEqual(n, 0xFFFF);
  }

  /** Swapping the two bytes of a word multiplies it by 256 modulo 65535. */
  lemma SwapShifts(c: U16)
    ensures SwapBytes(c) == c * 0x100 - High8(c) * 0xFFFF
  {
  }

  lemma Multiples257(c: nat)
    ensures 0xFF * c % 0xFFFF == 0 <==> c % 257 == 0
  {
    var a, b := c / 257, c % 257;
    assert 0xFF * c == a * 0xFFFF + 0xFF * b;
  }

  lemma SameRemainder(n: nat, m: nat, k: int)
    requires n == m + k * 0xFFFF
    ensures n % 0xFFFF == m % 0xFFFF
  {
  }

  lemma BothMultiples(s: nat, c: nat, k: nat)
    requires s + c == k * 257
    ensures s % 257 == 0 <==> c % 257 == 0
  {
  }

  lemma OddTail(s: nat, c: U16)
    requires c == 0xFFFF - Residue(s)
    ensures Residue(s + SwapBytes(c)) == 0xFFFF <==> s % 257 == 0
  {
    var q := if s == 0 then 0 else (s - 1) / 0xFFFF;
    assert s + c == (q + 1) * 0xFFFF;
    BothMultiples(s, c, (q + 1) * 0xFF);
    SwapShifts(c);
    SameRemainder(s + SwapBytes(c), 0xFF * c, q + 1 - High8(c));
    Multiples257(c);
    FullResidue(s + SwapBytes(c));
  }

  lemma SumWithTail(d: seq<U8>, c: U16)
    requires |d| + 2 <= SAFE_LEN
    ensures Sum16(d + Big16(c)) == 0xFFFF - Residue(WordSum(d) + if |d| % 2 == 0 then c else SwapBytes(c))
  {
    AppendWord(d, c);
    SafeSum(d + Big16(c));
  }

  lemma TailSum(s: nat, c: U16)
    requires c == 0xFFFF - Residue(s)
    ensures Residue(s + c) == 0xFFFF
    ensures Residue(s + SwapBytes(c)) == 0xFFFF <==> s % 257 == 0
  {
    EvenTail(s);
    OddTail(s, c);
  }

  /** Appending the checksum, high byte first, makes the checksum zero: always for an even
      length, and for an odd length exactly when 257 divides the word sum. */
  lemma SelfVerifying(d: seq<U8>)
    requires |d| + 2 <= SAFE_LEN
    ensures Sum16(d + Big16(Sum16(d))) == 0 <==> (|d| % 2 == 0 || WordSum(d) % 257 == 0)
  {
    SafeSum(d);
    SumWithTail(d, Sum16(d));
    TailSum(WordSum(d), Sum16(d));
  }
}
