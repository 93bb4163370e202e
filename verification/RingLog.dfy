/** The in-memory record sink of server/ring_log.c: a mutex-protected ring and two atomic counters
    that worker threads update one after the other, without a common lock. */
module RingLog {
  import opened Bytes

  const SLOTS := 1024
  const SHOWN := 5

  datatype Log<T> = Log(ring: seq<T>, head: U64, written: U64, overwritten: U64)

  function SlotOf(n: nat): nat {
    n % 1024
  }

  // ---- the steps of rl_write --------------------------------------------------------

  /** The locked section. */
  function Store<T>(l: Log<T>, x: T): Log<T>
    requires |l.ring| == SLOTS
  {
    l.(ring := l.ring[SlotOf(l.head) := x], head := Next64(l.head))
  }

  function Count<T>(l: Log<T>): Log<T> {
    l.(written := Next64(l.written))
  }

  function Bump<T>(l: Log<T>): Log<T> {
    l.(overwritten := Next64(l.overwritten))
  }

  /** Whether a writer whose increment gave `w` also counts an overwritten record. */
  predicate Overwrites(w: U64) {
    w > SLOTS
  }

  // ---- any number of writers --------------------------------------------------------

  /** Where a thread stands: between calls, after its locked section, or owing an increment of the
      overwritten counter. */
  datatype Pc = Idle | Stored | Owing

  /** The log, every thread, and what has happened: the records in the order of their locked
      sections, and how often each counter was incremented. */
  datatype Sys<T> = Sys(log: Log<T>, pcs: seq<Pc>, history: seq<T>, counted: nat, bumped: nat)

  datatype Act<T> = DoStore(t: nat, x: T) | DoCount(t: nat) | DoBump(t: nat)

  predicate Enabled<T>(s: Sys<T>, a: Act<T>) {
    && |s.log.ring| == SLOTS && a.t < |s.pcs|
    && match a
       case DoStore(t, _) => s.pcs[t] == Idle
       case DoCount(t) => s.pcs[t] == Stored
       case DoBump(t) => s.pcs[t] == Owing
  }

  function Step<T>(s: Sys<T>, a: Act<T>): Sys<T>
    requires Enabled(s, a)
  {
    match a
    case DoStore(t, x) => s.(log := Store(s.log, x), pcs := s.pcs[t := Stored], history := s.history + [x])
    case DoCount(t) =>
      var l := Count(s.log);
      s.(log := l, counted := s.counted + 1, pcs := s.pcs[t := if Overwrites(l.written) then Owing else Idle])
    case DoBump(t) => s.(log := Bump(s.log), bumped := s.bumped + 1, pcs := s.pcs[t := Idle])
  }

  // ---- the invariant ----------------------------------------------------------------

  /** The ring holds the last 1024 records stored, each in its own slot. */
  ghost predicate HoldsLatest<T>(ring: seq<T>, history: seq<T>) {
    && |ring| == SLOTS
    && forall k :: 0 <= k < |history| && |history| - SLOTS <= k ==> ring[SlotOf(k)] == history[k]
  }

  /** How many of the first `n` increments of the written counter gave a value above 1024. */
  function Overwriting(n: nat): nat {
    if n == 0 then 0 else Overwriting(n - 1) + if Overwrites(Low64(n)) then 1 else 0
  }

  ghost predicate Inv<T>(s: Sys<T>) {
    && HoldsLatest(s.log.ring, s.history)
    && s.log.head == Low64(|s.history|)
    && s.log.written == Low64(s.counted)
    && s.log.overwritten == Low64(s.bumped)
    && s.counted + multiset(s.pcs)[Stored] == |s.history|
    && s.bumped + multiset(s.pcs)[Owing] == Overwriting(s.counted)
  }

  lemma SameSlot(n: nat)
    ensures SlotOf(Low64(n)) == SlotOf(n)
  {
  }

  lemma OwnSlot(k: nat, n: nat)
    requires k < n < k + SLOTS
    ensures SlotOf(k) != SlotOf(n)
  {
  }

  lemma StoreKeepsLatest<T>(l: Log<T>, history: seq<T>, x: T)
    requires HoldsLatest(l.ring, history) && l.head == Low64(|history|)
    ensures HoldsLatest(Store(l, x).ring, history + [x])
  {
    var n := |history|;
    SameSlot(n);
    var ring, all := Store(l, x).ring, history + [x];
    forall k | 0 <= k < |all| && |all| - SLOTS <= k ensures ring[SlotOf(k)] == all[k] {
      if k < n {
        OwnSlot(k, n);
      }
    }
  }

  lemma Moved(pcs: seq<Pc>, t: nat, p: Pc)
    requires t < |pcs|
    ensures multiset(pcs[t := p]) == multiset(pcs) - multiset{pcs[t]} + multiset{p}
  {
    assert pcs == pcs[..t] + [pcs[t]] + pcs[t + 1..];
    assert pcs[t := p] == pcs[..t] + [p] + pcs[t + 1..];
  }

  lemma StoreKeepsInv<T>(s: Sys<T>, t: nat, x: T)
    requires Inv(s) && Enabled(s, DoStore(t, x))
    ensures Inv(Step(s, DoStore(t, x)))
  {
    Moved(s.pcs, t, Stored);
    StoreKeepsLatest(s.log, s.history, x);
    Counts64(|s.history|);
  }

  lemma CountKeepsInv<T>(s: Sys<T>, t: nat)
    requires Inv(s) && Enabled(s, DoCount(t))
    ensures Inv(Step(s, DoCount(t)))
  {
    Moved(s.pcs, t, Step(s, DoCount(t)).pcs[t]);
    Counts64(s.counted);
  }

  lemma BumpKeepsInv<T>(s: Sys<T>, t: nat)
    requires Inv(s) && Enabled(s, DoBump(t))
    ensures Inv(Step(s, DoBump(t)))
  {
    Moved(s.pcs, t, Idle);
    Counts64(s.bumped);
  }

  lemma StepKeepsInv<T>(s: Sys<T>, a: Act<T>)
    requires Inv(s) && Enabled(s, a)
    ensures Inv(Step(s, a))
  {
    match a
    case DoStore(t, x) => StoreKeepsInv(s, t, x);
    case DoCount(t) => CountKeepsInv(s, t);
    case DoBump(t) => BumpKeepsInv(s, t);
  }

  // ---- whole runs -------------------------------------------------------------------

  ghost predicate Reaches<T>(s: Sys<T>, acts: seq<Act<T>>, s': Sys<T>)
    decreases |acts|
  {
    if acts == [] then s == s' else Enabled(s, acts[0]) && Reaches(Step(s, acts[0]), acts[1..], s')
  }

  /** After rl_open: a ring of zero records and `n` threads that have written nothing. */
  ghost predicate Opened<T>(s: Sys<T>) {
    && |s.log.ring| == SLOTS && s.log.head == s.log.written == s.log.overwritten == 0
    && s.history == [] && s.counted == s.bumped == 0
    && forall t :: 0 <= t < |s.pcs| ==> s.pcs[t] == Idle
  }

  lemma AllIdle(pcs: seq<Pc>)
    requires forall t :: 0 <= t < |pcs| ==> pcs[t] == Idle
    ensures multiset(pcs)[Stored] == 0 && multiset(pcs)[Owing] == 0
  {
    assert Stored !in pcs && Owing !in pcs;
  }

  lemma {:induction false} RunKeepsInv<T>(s: Sys<T>, acts: seq<Act<T>>, s': Sys<T>)
    requires Inv(s) && Reaches(s, acts, s')
    ensures Inv(s')
    decreases |acts|
  {
    if acts != [] {
      StepKeepsInv(s, acts[0]);
      RunKeepsInv(Step(s, acts[0]), acts[1..], s');
    }
  }

  /** In every interleaving of any number of writers: the ring holds the last 1024 records in the
      order of the locked sections, no increment is lost, and the two counters lag behind exactly
      by the threads that still owe an increment. */
  lemma {:induction false} EveryInterleaving<T>(s0: Sys<T>, acts: seq<Act<T>>, s: Sys<T>)
    requires Opened(s0) && Reaches(s0, acts, s)
    ensures HoldsLatest(s.log.ring, s.history) && s.log.head == Low64(|s.history|)
    ensures |s.history| == s.counted + multiset(s.pcs)[Stored] && s.log.written == Low64(s.counted)
    ensures Overwriting(s.counted) == s.bumped + multiset(s.pcs)[Owing] && s.log.overwritten == Low64(s.bumped)
  {
    AllIdle(s0.pcs);
    RunKeepsInv(s0, acts, s);
  }

  /** The records handed to `rl_write`, in the order of the locked sections. */
  function Handed<T>(acts: seq<Act<T>>): seq<T> {
    if acts == [] then [] else (if acts[0].DoStore? then [acts[0].x] else []) + Handed(acts[1..])
  }

  /** The history is exactly what was handed over. */
  lemma {:induction false} HistoryIsHanded<T>(s: Sys<T>, acts: seq<Act<T>>, s': Sys<T>)
    requires Reaches(s, acts, s')
    ensures s'.history == s.history + Handed(acts)
    decreases |acts|
  {
    if acts != [] {
      HistoryIsHanded(Step(s, acts[0]), acts[1..], s');
    }
  }

  /** Below 2^64 writes, exactly the writes after the first 1024 overwrite. */
  lemma {:induction false} OverwritingExact(n: nat)
    requires n < 0x1_0000_0000_0000_0000
    ensures Overwriting(n) == if n > SLOTS then n - SLOTS else 0
  {
    if n != 0 {
      OverwritingExact(n - 1);
    }
  }

  /** Once every write has finished, the counters are exact: all records written, and all but the
      last 1024 overwritten. */
  lemma {:induction false} Quiescent<T>(s0: Sys<T>, acts: seq<Act<T>>, s: Sys<T>)
    requires Opened(s0) && Reaches(s0, acts, s)
    requires forall t :: 0 <= t < |s.pcs| ==> s.pcs[t] == Idle
    requires |s.history| < 0x1_0000_0000_0000_0000
    ensures s.log.written == |s.history|
    ensures s.log.overwritten == if |s.history| > SLOTS then |s.history| - SLOTS else 0
  {
    AllIdle(s0.pcs);
    RunKeepsInv(s0, acts, s);
    AllIdle(s.pcs);
    OverwritingExact(|s.history|);
  }

  /** A write that nobody disturbs: its record is stored and counted, also as overwriting when it is not
      among the first 1024, and the thread is free again. */
  lemma {:induction false} WriteAlone<T>(s: Sys<T>, t: nat, x: T, w: U64, acts: seq<Act<T>>, s': Sys<T>)
    requires Enabled(s, DoStore(t, x)) && w == Next64(s.log.written)
    requires acts == [DoStore(t, x), DoCount(t)] + if w > 1024 then [DoBump(t)] else []
    requires s' == Sys(Log(s.log.ring[SlotOf(s.log.head) := x], Next64(s.log.head), w,
                           if w > 1024 then Next64(s.log.overwritten) else s.log.overwritten),
                       s.pcs, s.history + [x], s.counted + 1, if w > 1024 then s.bumped + 1 else s.bumped)
    ensures Reaches(s, acts, s')
  {
    var s1 := Step(s, DoStore(t, x));
    var s2 := Step(s1, DoCount(t));
    assert acts[1..][0] == DoCount(t);
    assert Reaches(s2, acts[1..][1..], s') by {
      if w > 1024 {
        assert acts[1..][1..] == [DoBump(t)] && acts[1..][1..][1..] == [];
        assert Step(s2, DoBump(t)).pcs == s.pcs;
      } else {
        assert acts[1..][1..] == [] && s2.pcs == s.pcs;
      }
    }
  }

  // ---- dumping ----------------------------------------------------------------------

  function Fill(head: U64): nat {
    Min(head, SLOTS)
  }

  /** The fill level shown is the number of stored records held, unless the 64-bit head has just
      wrapped past zero. */
  lemma FillExact(n: nat)
    ensures Fill(Low64(n)) == Min(n, SLOTS) <==> n < SLOTS || Low64(n) >= SLOTS
  {
  }

  /** The slot a dump reads for the `i`-th newest record: `head - 1 - i` in 64 bits, reduced. */
  function DumpSlot(head: U64, i: nat): nat {
    SlotOf((head - 1 - i) % 0x1_0000_0000_0000_0000)
  }

  lemma DumpSlotExact(n: nat, i: nat)
    requires i < n
    ensures DumpSlot(Low64(n), i) == SlotOf(n - 1 - i)
  {
  }

  /** Every slot a dump reads holds the record stored that many writes ago, newest first. */
  lemma DumpNewestFirst<T>(l: Log<T>, history: seq<T>, i: nat)
    requires HoldsLatest(l.ring, history) && l.head == Low64(|history|)
    requires i < Fill(l.head)
    ensures i < |history| && l.ring[DumpSlot(l.head, i)] == history[|history| - 1 - i]
  {
    DumpSlotExact(|history|, i);
  }

  class Sink<T(0)> {
    const ring: array<T>
    var head: U64
    var written: U64
    var overwritten: U64

    ghost predicate Valid() {
      ring.Length == SLOTS
    }

    ghost function Abs(): Log<T>
      reads this, ring
    {
      Log(ring[..], head, written, overwritten)
    }

    /** `rl_open` on a fresh sink. */
    constructor (zero: T)
      ensures Valid() && fresh(ring)
      ensures Abs() == Log(seq(SLOTS, _ => zero), 0, 0, 0)
    {
      ring := new T[SLOTS](_ => zero);
      head, written, overwritten := 0, 0, 0;
      new;
      assert ring[..] == seq(SLOTS, _ => zero);
    }

    /** `rl_write` by one thread: store, count, and count again when a record was overwritten. */
    method WriteRecord(x: T)
      requires Valid()
      modifies this, ring
      ensures Valid()
      ensures var l := Count(Store(old(Abs()), x));
              Abs() == if Overwrites(l.written) then Bump(l) else l
    {
      ring[SlotOf(head)] := x;
      head := Next64(head);
      written := Next64(written);
      if written > SLOTS {
        overwritten := Next64(overwritten);
      }
    }

    /** `rl_dump`: the counters, the fill level, and the records shown. */
    method Dump() returns (fill: nat, shown: seq<T>)
      requires Valid()
      ensures fill == Fill(head) && |shown| == Min(fill, SHOWN)
      ensures forall i :: 0 <= i < |shown| ==> shown[i] == ring[DumpSlot(head, i)]
    {
      fill := if head < SLOTS then head else SLOTS;
      var show := if fill < 5 then fill else 5;
      shown := [];
      var i := 0;
      while i < show
        invariant 0 <= i <= show && |shown| == i
        invariant forall j :: 0 <= j < i ==> shown[j] == ring[DumpSlot(head, j)]
      {
        shown := shown + [ring[DumpSlot(head, i)]];
        i := i + 1;
      }
    }
  }
}
