/** /dev/telemetry under any number of writers, readers and resets: kmod/telemetry_drv.c with each
    spinlock-protected section as one step. */
module TelemetryDriver {
  import opened Bytes
  import opened Tring

  /** A `write` in progress: its records and how many of them have been pushed. */
  datatype Write<T> = Write(records: seq<T>, pushed: nat)

  /** What a `read` took: `records`, which stood at `start` in the history of pushes. */
  datatype Taken<T> = Taken(start: int, records: seq<T>)

  /** The ring, the writes in progress, and a record of what happened since the last reset: every
      push, in order, and every batch taken out. */
  datatype Device<T> = Device(q: Queue<T>, writes: map<nat, Write<T>>, history: seq<T>, taken: seq<Taken<T>>)

  datatype Act<T> =
    | BeginWrite(t: nat, records: seq<T>)     // a user buffer of whole records
    | PushNext(t: nat)                        // copy_from_user and one locked push
    | WriteFault(t: nat)                      // copy_from_user faults: the write ends early
    | Read(maxrec: nat)                       // the locked section of a read that finds data
    | Reset

  predicate Enabled<T>(s: Device<T>, a: Act<T>) {
    match a
    case BeginWrite(t, records) => t !in s.writes && records != []
    case PushNext(t) => t in s.writes && s.writes[t].pushed < |s.writes[t].records|
    case WriteFault(t) => t in s.writes
    case Read(maxrec) => maxrec > 0 && s.q.items != []
    case Reset => true
  }

  function BatchSize<T>(s: Device<T>, maxrec: nat): nat {
    Min(Min(maxrec, BATCH), |s.q.items|)
  }

  function Step<T>(s: Device<T>, a: Act<T>): Device<T>
    requires Enabled(s, a)
  {
    match a
    case BeginWrite(t, records) => s.(writes := s.writes[t := Write(records, 0)])
    case PushNext(t) =>
      var w := s.writes[t];
      var x := w.records[w.pushed];
      s.(q := Push(s.q, x), history := s.history + [x],
         writes := if w.pushed + 1 == |w.records| then s.writes - {t} else s.writes[t := w.(pushed := w.pushed + 1)])
    case WriteFault(t) => s.(writes := s.writes - {t})
    case Read(maxrec) =>
      var n := BatchSize(s, maxrec);
      s.(q := Drop(s.q, n), taken := s.taken + [Taken(|s.history| - |s.q.items|, s.q.items[..n])])
    case Reset => s.(q := Empty(), history := [], taken := [])
  }

  function Popped<T>(taken: seq<Taken<T>>): nat {
    if taken == [] then 0 else Popped(taken[..|taken| - 1]) + |taken[|taken| - 1].records|
  }

  // ---- the invariant ----------------------------------------------------------------

  /** The ring holds the last records pushed. */
  ghost predicate HoldsLatest<T>(s: Device<T>) {
    && |s.q.items| <= CAP && |s.q.items| <= |s.history|
    && s.q.items == s.history[|s.history| - |s.q.items|..]
  }

  /** Batch `k` is a nonempty run of the push history, and lies wholly before the next one. */
  ghost predicate RunOf<T>(s: Device<T>, k: nat)
    requires k < |s.taken| && |s.q.items| <= |s.history|
  {
    var r := s.taken[k];
    var end := r.start + |r.records|;
    && 0 <= r.start && 0 < |r.records| <= BATCH && end <= |s.history|
    && r.records == s.history[r.start..end]
    && end <= if k + 1 < |s.taken| then s.taken[k + 1].start else |s.history| - |s.q.items|
  }

  ghost predicate Conserved<T>(s: Device<T>) {
    && s.q.produced == Low64(|s.history|)
    && s.q.produced == Low64(s.q.dropped + Popped(s.taken) + |s.q.items|)
  }

  ghost predicate Inv<T>(s: Device<T>) {
    HoldsLatest(s) && (forall k :: 0 <= k < |s.taken| ==> RunOf(s, k)) && Conserved(s)
  }

  lemma CountsDropped(dropped: U64, n: nat)
    ensures Low64(Next64(dropped) + n) == Low64(dropped + 1 + n)
  {
  }

  lemma PushConserves<T>(q: Queue<T>, x: T, history: nat, popped: nat)
    requires |q.items| <= CAP
    requires q.produced == Low64(history) == Low64(q.dropped + popped + |q.items|)
    ensures Push(q, x).produced == Low64(history + 1) == Low64(Push(q, x).dropped + popped + |Push(q, x).items|)
  {
    Counts64(history);
    Counts64(q.dropped + popped + |q.items|);
    CountsDropped(q.dropped, popped + |q.items|);
  }

  lemma PushKeepsInv<T>(s: Device<T>, t: nat)
    requires Inv(s) && Enabled(s, PushNext(t))
    ensures Inv(Step(s, PushNext(t)))
  {
    var x, s' := s.writes[t].records[s.writes[t].pushed], Step(s, PushNext(t));
    PushConserves(s.q, x, |s.history|, Popped(s.taken));
    assert s'.q.items == s'.history[|s'.history| - |s'.q.items|..];
    forall k | 0 <= k < |s'.taken| ensures RunOf(s', k) {
      assert RunOf(s, k);
      var r := s.taken[k];
      assert s'.history[r.start..r.start + |r.records|] == s.history[r.start..r.start + |r.records|];
    }
  }

  lemma ReadKeepsInv<T>(s: Device<T>, maxrec: nat)
    requires Inv(s) && Enabled(s, Read(maxrec))
    ensures Inv(Step(s, Read(maxrec)))
  {
    var n, s' := BatchSize(s, maxrec), Step(s, Read(maxrec));
    var start := |s.history| - |s.q.items|;
    assert s.q.items[..n] == s.history[start..start + n];
    assert s'.q.items == s.history[start + n..];
    assert s'.taken[..|s.taken|] == s.taken;
    forall k | 0 <= k < |s'.taken| ensures RunOf(s', k) {
      if k < |s.taken| {
        assert RunOf(s, k);
        assert s'.taken[k] == s.taken[k];
      }
    }
  }

  lemma StepKeepsInv<T>(s: Device<T>, a: Act<T>)
    requires Inv(s) && Enabled(s, a)
    ensures Inv(Step(s, a))
  {
    match a
    case PushNext(t) => PushKeepsInv(s, t);
    case Read(maxrec) => ReadKeepsInv(s, maxrec);
    case Reset => EmptyInv(Step(s, a));
    case BeginWrite(t, records) => SameRing(s, Step(s, a));
    case WriteFault(t) => SameRing(s, Step(s, a));
  }

  lemma SameRing<T>(s: Device<T>, s': Device<T>)
    requires Inv(s) && s'.q == s.q && s'.history == s.history && s'.taken == s.taken
    ensures Inv(s')
  {
    forall k | 0 <= k < |s'.taken| ensures RunOf(s', k) {
      assert RunOf(s, k);
    }
  }

  // ---- whole runs -------------------------------------------------------------------

  ghost predicate Reaches<T>(s: Device<T>, acts: seq<Act<T>>, s': Device<T>)
    decreases |acts|
  {
    if acts == [] then s == s' else Enabled(s, acts[0]) && Reaches(Step(s, acts[0]), acts[1..], s')
  }

  /** As the module is loaded, and as a reset leaves the ring. */
  ghost predicate JustLoaded<T>(s: Device<T>) {
    && |s.q.items| == |s.history| == |s.taken| == 0
    && s.q.produced == s.q.dropped == 0
  }

  lemma EmptyInv<T>(s: Device<T>)
    requires JustLoaded(s)
    ensures Inv(s)
  {
  }

  lemma {:induction false} RunKeepsInv<T>(s: Device<T>, acts: seq<Act<T>>, s': Device<T>)
    requires Inv(s) && Reaches(s, acts, s')
    ensures Inv(s')
    decreases |acts|
  {
    if acts != [] {
      StepKeepsInv(s, acts[0]);
      RunKeepsInv(Step(s, acts[0]), acts[1..], s');
    }
  }

  /** In every interleaving of writers, readers and resets, since the last reset: the ring holds the
      last records pushed, every read took a nonempty contiguous run of the push history, no
      record was taken twice, and what was produced is what was dropped, taken or is still there. */
  lemma {:induction false} EveryInterleaving<T>(s0: Device<T>, acts: seq<Act<T>>, s: Device<T>)
    requires JustLoaded(s0) && Reaches(s0, acts, s)
    ensures HoldsLatest(s) && Conserved(s)
    ensures forall k :: 0 <= k < |s.taken| ==> RunOf(s, k)
    ensures forall j, k :: 0 <= j < k < |s.taken| ==> Precedes(s.taken[j], s.taken[k])
  {
    EmptyInv(s0);
    RunKeepsInv(s0, acts, s);
    AllOrdered(s);
  }

  ghost predicate Precedes<T>(a: Taken<T>, b: Taken<T>) {
    a.start + |a.records| <= b.start
  }

  lemma AllOrdered<T>(s: Device<T>)
    requires Inv(s)
    ensures forall j, k :: 0 <= j < k < |s.taken| ==> Precedes(s.taken[j], s.taken[k])
  {
    forall j, k | 0 <= j < k < |s.taken| ensures Precedes(s.taken[j], s.taken[k]) {
      RunsOrdered(s, j, k);
    }
  }

  lemma {:induction false} RunsOrdered<T>(s: Device<T>, j: nat, k: nat)
    requires Inv(s) && j < k < |s.taken|
    ensures Precedes(s.taken[j], s.taken[k])
    decreases k
  {
    assert RunOf(s, k - 1);
    if j < k - 1 {
      RunsOrdered(s, j, k - 1);
    }
  }

  // ---- what a run has pushed, from its acts alone -------------------------------------

  function Front<T>(acts: seq<Act<T>>): seq<Act<T>>
    requires acts != []
  {
    acts[..|acts| - 1]
  }

  function Last<T>(acts: seq<Act<T>>): Act<T>
    requires acts != []
  {
    acts[|acts| - 1]
  }

  /** The buffer of `t`'s latest write. */
  function Buffer<T>(acts: seq<Act<T>>, t: nat): seq<T>
    decreases |acts|
  {
    if acts == [] then []
    else if Last(acts).BeginWrite? && Last(acts).t == t then Last(acts).records
    else Buffer(Front(acts), t)
  }

  /** How many pushes `t` has made since that write began. */
  function Sent<T>(acts: seq<Act<T>>, t: nat): nat
    decreases |acts|
  {
    if acts == [] || (Last(acts).BeginWrite? && Last(acts).t == t) then 0
    else Sent(Front(acts), t) + if Last(acts) == PushNext(t) then 1 else 0
  }

  /** The records pushed since the last reset: each push is the next record of its writer's buffer. */
  function Story<T>(acts: seq<Act<T>>): seq<T>
    decreases |acts|
  {
    if acts == [] || Last(acts).Reset? then []
    else if Last(acts).PushNext? then
      var b, k := Buffer(Front(acts), Last(acts).t), Sent(Front(acts), Last(acts).t);
      Story(Front(acts)) + if k < |b| then [b[k]] else []
    else Story(Front(acts))
  }

  /** The reads since the last reset. */
  function Reads<T>(acts: seq<Act<T>>): nat
    decreases |acts|
  {
    if acts == [] || Last(acts).Reset? then 0
    else Reads(Front(acts)) + if Last(acts).Read? then 1 else 0
  }

  ghost predicate Told<T>(acts: seq<Act<T>>, s: Device<T>) {
    && s.history == Story(acts) && |s.taken| == Reads(acts)
    && forall t :: t in s.writes ==> s.writes[t] == Write(Buffer(acts, t), Sent(acts, t))
  }

  lemma {:induction false} LastStep<T>(s: Device<T>, acts: seq<Act<T>>, s': Device<T>) returns (m: Device<T>)
    requires acts != [] && Reaches(s, acts, s')
    ensures Reaches(s, Front(acts), m) && Enabled(m, Last(acts)) && s' == Step(m, Last(acts))
    decreases |acts|
  {
    if |acts| == 1 {
      m := s;
    } else {
      m := LastStep(Step(s, acts[0]), acts[1..], s');
      assert Front(acts)[1..] == Front(acts[1..]) && Front(acts)[0] == acts[0];
    }
  }

  lemma {:induction false} StepTold<T>(acts: seq<Act<T>>, m: Device<T>)
    requires acts != [] && Told(Front(acts), m) && Enabled(m, Last(acts))
    ensures Told(acts, Step(m, Last(acts)))
  {
  }

  /** Every run's history is what its acts say was pushed since the last reset, a reset forgets all
      batches, and no reset disturbs a write in progress. */
  lemma {:induction false} RunTold<T>(s0: Device<T>, acts: seq<Act<T>>, s: Device<T>)
    requires JustLoaded(s0) && s0.writes == map[] && Reaches(s0, acts, s)
    ensures Told(acts, s)
    decreases |acts|
  {
    if acts != [] {
      var m := LastStep(s0, acts, s);
      RunTold(s0, Front(acts), m);
      StepTold(acts, m);
    }
  }

  /** A read takes the oldest records, as many as it has room for, a batch, or all there are. */
  lemma ReadTakes<T>(s: Device<T>, maxrec: nat, s': Device<T>, batch: seq<T>)
    requires Enabled(s, Read(maxrec)) && s' == Step(s, Read(maxrec)) && batch == Newest(s'.taken).records
    ensures batch + s'.q.items == s.q.items && 0 < |batch| <= maxrec && |batch| <= 32
    ensures |batch| == maxrec || |batch| == 32 || s'.q.items == []
    ensures s'.q.produced == s.q.produced && s'.q.dropped == s.q.dropped
    ensures s'.history == s.history && s'.writes == s.writes
  {
    assert s.q.items == s.q.items[..|batch|] + s.q.items[|batch|..];
  }

  function Newest<T>(taken: seq<Taken<T>>): Taken<T>
    requires taken != []
  {
    taken[|taken| - 1]
  }

  lemma {:induction false} OneMore<T>(s: Device<T>, acts: seq<Act<T>>, m: Device<T>, a: Act<T>)
    requires Reaches(s, acts, m) && Enabled(m, a)
    ensures Reaches(s, acts + [a], Step(m, a))
    decreases |acts|
  {
    if acts == [] {
      assert (acts + [a])[1..] == [];
    } else {
      OneMore(Step(s, acts[0]), acts[1..], m, a);
      assert (acts + [a])[1..] == acts[1..] + [a];
    }
  }

  /** `tlm_write` as a thread of its own: the `k` first pushes. */
  function Pushes<T>(t: nat, records: seq<T>, k: nat): seq<Act<T>> {
    if k == 0 then [BeginWrite(t, records)] else Pushes(t, records, k - 1) + [PushNext(t)]
  }

  lemma {:induction false} SomePushed<T>(s: Device<T>, t: nat, records: seq<T>, k: nat)
    requires t !in s.writes && k < |records|
    ensures Reaches(s, Pushes(t, records, k),
                    Device(PushAll(s.q, records[..k]), s.writes[t := Write(records, k)],
                           s.history + records[..k], s.taken))
  {
    if k > 0 {
      SomePushed(s, t, records, k - 1);
      var m := Device(PushAll(s.q, records[..k - 1]), s.writes[t := Write(records, k - 1)],
                      s.history + records[..k - 1], s.taken);
      OneMore(s, Pushes(t, records, k - 1), m, PushNext(t));
      assert records[..k][..k - 1] == records[..k - 1];
      assert m.history + [records[k - 1]] == s.history + records[..k];
      assert m.writes[t := Write(records, k)] == s.writes[t := Write(records, k)];
    } else {
      assert s.history + records[..0] == s.history;
      assert Pushes(t, records, 0)[1..] == [];
    }
  }

  /** A write that nobody disturbs leaves what the driver's `Write` promises, and nothing in progress. */
  lemma {:induction false} WriteAlone<T>(s: Device<T>, t: nat, records: seq<T>)
    requires t !in s.writes && records != []
    ensures Reaches(s, Pushes(t, records, |records|),
                    Device(PushAll(s.q, records), s.writes, s.history + records, s.taken))
  {
    var n := |records|;
    SomePushed(s, t, records, n - 1);
    var m := Device(PushAll(s.q, records[..n - 1]), s.writes[t := Write(records, n - 1)],
                    s.history + records[..n - 1], s.taken);
    OneMore(s, Pushes(t, records, n - 1), m, PushNext(t));
    assert m.writes - {t} == s.writes;
    assert m.history + [records[n - 1]] == s.history + records;
  }

  // ---- the driver's own code --------------------------------------------------------

  const REC_SZ := 24
  const EINVAL := -22
  const EFAULT := -14
  const EAGAIN := -11
  const ERESTARTSYS := -512

  /** What ends a reader's sleep: a signal, or a wake-up, by the time of which other threads have left
      `pushed` on top of the empty ring, nothing if another reader was faster. */
  datatype Nap<T> = Signal | Woken(pushed: seq<T>)

  /** The ring once a blocking reader has the lock and finds data, or what a signal interrupts. A reader
      that is never woken again is as good as interrupted. */
  function Slept<T>(q: Queue<T>, naps: seq<Nap<T>>): Queue<T>
    decreases |naps|
  {
    if q.items != [] || naps == [] || naps[0].Signal? then q else Slept(PushAll(q, naps[0].pushed), naps[1..])
  }

  /** After wake-ups that found nothing, a signal ends the sleep with the ring as it was, and the first
      wake-up that finds records ends it with those. */
  lemma {:induction false} SleptExact<T>(q: Queue<T>, naps: seq<Nap<T>>, k: nat)
    requires q.items == [] && k <= |naps| && forall i :: 0 <= i < k ==> naps[i] == Woken([])
    ensures k == |naps| || naps[k].Signal? ==> Slept(q, naps) == q
    ensures k < |naps| && naps[k].Woken? && naps[k].pushed != [] ==>
              Slept(q, naps) == PushAll(q, naps[k].pushed) && Slept(q, naps).items != []
    decreases k
  {
    if k > 0 {
      SleptExact(q, naps[1..], k - 1);
    }
  }

  class Driver<T(0)> {
    const ring: Ring<T>

    constructor ()
      ensures ring.Valid() && ring.Abs() == Empty() && fresh(ring)
    {
      ring := new Ring<T>();
    }

    /** `tlm_write`, undisturbed: the records before the first faulting one are pushed in order. */
    method Write(records: seq<T>, faultAt: nat) returns (r: int)
      requires ring.Valid()
      modifies ring, ring.buf
      ensures ring.Valid()
      ensures ring.Abs() == PushAll(old(ring.Abs()), records[..Min(faultAt, |records|)])
      ensures r == if records == [] then EINVAL else if faultAt < |records| then EFAULT else REC_SZ * |records|
    {
      if records == [] {
        return EINVAL;
      }
      var i := 0;
      while i < |records|
        invariant 0 <= i <= |records| && i <= faultAt && ring.Valid()
        invariant ring.Abs() == PushAll(old(ring.Abs()), records[..i])
      {
        if i == faultAt {
          return EFAULT;
        }
        var drop := ring.PushRecord(records[i]);
        assert records[..i + 1][..i] == records[..i];
        i := i + 1;
      }
      return REC_SZ * |records|;
    }

    /** `tlm_read`: what it takes out, even if copying it out then faults. */
    method Read(maxrec: nat, nonblock: bool, naps: seq<Nap<T>>, copyOk: bool) returns (r: int, batch: seq<T>)
      requires ring.Valid()
      modifies ring, ring.buf
      ensures ring.Valid()
      ensures var q := if maxrec == 0 || nonblock then old(ring.Abs()) else Slept(old(ring.Abs()), naps);
              && batch == q.items[..Min(Min(maxrec, BATCH), |q.items|)]
              && ring.Abs() == Drop(q, |batch|)
              && r == if maxrec == 0 then EINVAL
                      else if q.items == [] then (if nonblock then EAGAIN else ERESTARTSYS)
                      else if !copyOk then EFAULT else REC_SZ * |batch|
      ensures !nonblock && maxrec > 0 && old(ring.Abs()).items == [] && naps != [] && naps[0].Signal? ==>
                r == ERESTARTSYS && batch == [] && ring.Abs() == old(ring.Abs())
    {
      if maxrec == 0 {
        return EINVAL, [];
      }
      var i := 0;
      while ring.count == 0
        invariant 0 <= i <= |naps| && ring.Valid() && (nonblock ==> ring.Abs() == old(ring.Abs()))
        invariant !nonblock ==> Slept(ring.Abs(), naps[i..]) == Slept(old(ring.Abs()), naps)
        decreases |naps| - i
      {
        if nonblock {
          return EAGAIN, [];
        }
        if i == |naps| || naps[i].Signal? {
          return ERESTARTSYS, [];
        }
        assert naps[i..][1..] == naps[i + 1..];
        Others(naps[i].pushed);
        i := i + 1;
      }
      batch := ring.ReadBatch(maxrec);
      r := if copyOk then REC_SZ * |batch| else EFAULT;
    }

    /** What other threads leave in the ring while the reader sleeps. */
    method Others(records: seq<T>)
      requires ring.Valid()
      modifies ring, ring.buf
      ensures ring.Valid() && ring.Abs() == PushAll(old(ring.Abs()), records)
    {
      var r := Write(records, |records|);
      assert records[..|records|] == records;
    }
  }

  function PushAll<T>(q: Queue<T>, records: seq<T>): Queue<T> {
    if records == [] then q else Push(PushAll(q, records[..|records| - 1]), records[|records| - 1])
  }

  /** After any number of pushes the queue holds the last 256 of the old contents followed by the
      new records. */
  lemma {:induction false} PushAllKeepsLatest<T>(q: Queue<T>, records: seq<T>)
    requires |q.items| <= CAP
    ensures PushAll(q, records).items == Latest(q.items + records)
  {
    if records == [] {
      assert q.items + records == q.items;
    } else {
      var n := |records| - 1;
      PushAllKeepsLatest(q, records[..n]);
      assert q.items + records == q.items + records[..n] + [records[n]];
      LatestAfterPush(PushAll(q, records[..n]), q.items + records[..n], records[n]);
    }
  }

  lemma LatestAfterPush<T>(q: Queue<T>, all: seq<T>, x: T)
    requires q.items == Latest(all)
    ensures Push(q, x).items == Latest(all + [x])
  {
  }

  function Latest<T>(all: seq<T>): seq<T> {
    all[|all| - Min(CAP, |all|)..]
  }
}
