/** Any number of threads calling `dt_get_or_create` and updating devices, interleaved at every
    access to shared memory: each lock operation, each pointer followed, each store that publishes
    something and each atomic operation is one step. */
module DeviceTableRuns {
  import opened Bytes
  import opened Options
  import opened DeviceTable

  /** Where a thread is. From Reading to ReadDone it holds the read lock, from Rechecking to
      WriteDone the write lock. A thread at Counted is between `dt_record_sensor` and its sink
      write. */
  datatype Pc =
    | Idle
    | Called(id: U32, session: U32)
    | Reading(id: U32, session: U32, cur: int)
    | ReadDone(id: U32, session: U32, node: int)
    | Upgrading(id: U32, session: U32)
    | Rechecking(id: U32, session: U32, cur: int)
    | Absent(id: U32, session: U32)
    | Allocated(id: U32, session: U32, node: int)
    | Linked(id: U32, session: U32, node: int)
    | WriteDone(id: U32, node: int)
    | Ready(id: U32, node: int)
    | Counted(id: U32, node: int)

  predicate HoldsRead(pc: Pc) {
    pc.Reading? || pc.ReadDone?
  }

  predicate HoldsWrite(pc: Pc) {
    pc.Rechecking? || pc.Absent? || pc.Allocated? || pc.Linked? || pc.WriteDone?
  }

  /** `linked` counts the nodes that have been published; `returned` and `sinkWrites` record what
      calls have returned and how many records were written. */
  datatype Sys = Sys(
    nodes: seq<Device>, buckets: seq<int>, deviceCount: U32,
    writer: Option<nat>, readers: set<nat>, threads: map<nat, Pc>,
    linked: nat, returned: seq<(U32, int)>, sinkWrites: nat)

  datatype Act =
    | Spawn(t: nat)
    | Call(t: nat, id: U32, session: U32)
    | Go(t: nat, allocOk: bool, now: int)       // the next step inside a call, or the sink write
    | Store(t: nat, value: Device)              // an atomic store to a field that is not a counter
    | CountOk(t: nat)                           // atomic_fetch_add(&d->packets_ok, 1)
    | CountBad(t: nat)                          // atomic_fetch_add(&d->packets_bad, 1)

  function Start(): Sys {
    Sys([], seq(TABLE_BUCKETS, _ => NULL), 0, None, {}, map[], 0, [], 0)
  }

  /** A blocked lock operation and an act that does not fit the thread's position cannot happen. */
  predicate Enabled(s: Sys, a: Act) {
    if a.Spawn? then a.t !in s.threads else
    a.t in s.threads &&
    var pc := s.threads[a.t];
    match a
    case Call(_, _, _) => pc.Idle? || pc.Ready?
    case Go(_, _, _) =>
      if pc.Called? then s.writer.None?
      else if pc.Upgrading? then s.writer.None? && s.readers == {}
      else !pc.Idle? && !pc.Ready?
    case Store(_, v) =>
      && pc.Ready? && 0 <= pc.node < |s.nodes|
      && var d := s.nodes[pc.node];
         v.id == d.id && v.session == d.session && v.next == d.next
         && v.packetsOk == d.packetsOk && v.packetsBad == d.packetsBad
    case CountOk(_) => pc.Ready? && 0 <= pc.node < |s.nodes|
    case CountBad(_) => pc.Ready? && 0 <= pc.node < |s.nodes|
  }

  function At(s: Sys, t: nat, pc: Pc): Sys {
    s.(threads := s.threads[t := pc])
  }

  /** The return of a call: a device in hand, or NULL after a failed allocation. */
  function Return(s: Sys, t: nat, id: U32, node: int): Sys {
    if node == NULL then At(s, t, Idle)
    else At(s, t, Ready(id, node)).(returned := s.returned + [(id, node)])
  }

  /** The chain walk: what follows after looking at `cur`. */
  function Look(s: Sys, id: U32, cur: int, found: int -> Pc, on: int -> Pc): Pc
    requires cur == NULL || 0 <= cur < |s.nodes|
  {
    if cur == NULL then found(NULL)
    else if s.nodes[cur].id == id then found(cur)
    else on(s.nodes[cur].next)
  }

  function Update(s: Sys, node: int, d: Device): Sys
    requires 0 <= node < |s.nodes|
  {
    s.(nodes := s.nodes[node := d])
  }

  /** The pointers and table indices the act follows are inside the table. */
  predicate Safe(s: Sys, a: Act) {
    a.Go? && a.t in s.threads ==>
      match s.threads[a.t]
      case Reading(_, _, cur) => NULL <= cur < |s.nodes|
      case Rechecking(_, _, cur) => NULL <= cur < |s.nodes|
      case Called(id, _) => Hash(id) < |s.buckets|
      case Upgrading(id, _) => Hash(id) < |s.buckets|
      case Absent(id, _) => Hash(id) < |s.buckets|
      case Allocated(id, _, _) => Hash(id) < |s.buckets|
      case _ => true
  }

  function Step(s: Sys, a: Act): Sys
    requires Enabled(s, a) && Safe(s, a)
  {
    match a
    case Spawn(t) => At(s, t, Idle)
    case Call(t, id, session) => At(s, t, Called(id, session))
    case Store(t, v) => Update(s, s.threads[t].node, v)
    case CountBad(t) =>
      var d := s.nodes[s.threads[t].node];
      Update(s, s.threads[t].node, d.(packetsBad := Next64(d.packetsBad)))
    case CountOk(t) =>
      var pc := s.threads[t];
      var d := s.nodes[pc.node];
      At(Update(s, pc.node, d.(packetsOk := Next64(d.packetsOk))), t, Counted(pc.id, pc.node))
    case Go(t, allocOk, now) => Advance(s, t, allocOk, now)
  }

  function Advance(s: Sys, t: nat, allocOk: bool, now: int): Sys
    requires Enabled(s, Go(t, allocOk, now)) && Safe(s, Go(t, allocOk, now))
  {
    match s.threads[t]
    case Called(id, session) =>
      At(s, t, Reading(id, session, s.buckets[Hash(id)])).(readers := s.readers + {t})
    case Reading(id, session, cur) =>
      At(s, t, Look(s, id, cur, n => ReadDone(id, session, n), n => Reading(id, session, n)))
    case ReadDone(id, session, node) =>
      var s' := s.(readers := s.readers - {t});
      if node == NULL then At(s', t, Upgrading(id, session)) else Return(s', t, id, node)
    case Upgrading(id, session) =>
      At(s, t, Rechecking(id, session, s.buckets[Hash(id)])).(writer := Some(t))
    case Rechecking(id, session, cur) =>
      At(s, t, Look(s, id, cur, n => if n == NULL then Absent(id, session) else WriteDone(id, n),
                    n => Rechecking(id, session, n)))
    case Absent(id, session) =>
      if !allocOk then At(s, t, WriteDone(id, NULL))
      else At(s, t, Allocated(id, session, |s.nodes|))
             .(nodes := s.nodes + [Fresh(id, session, s.buckets[Hash(id)], now)])
    case Allocated(id, session, node) =>
      At(s, t, Linked(id, session, node)).(buckets := s.buckets[Hash(id) := node], linked := s.linked + 1)
    case Linked(id, session, node) =>
      At(s, t, WriteDone(id, node)).(deviceCount := Next32(s.deviceCount))
    case WriteDone(id, node) =>
      Return(s.(writer := None), t, id, node)
    case Counted(id, node) =>
      At(s, t, Ready(id, node)).(sinkWrites := s.sinkWrites + 1)
  }

  // ---- the invariant ----------------------------------------------------------------

  /** What a thread may rely on, given the nodes, the bucket heads and the published count. */
  ghost predicate PcOk(nodes: seq<Device>, buckets: seq<int>, linked: nat, pc: Pc)
    requires linked <= |nodes| && Descending(nodes) && |buckets| == TABLE_BUCKETS
  {
    match pc
    case Idle => true
    case Called(id, _) => Hash(id) < TABLE_BUCKETS
    case Reading(id, _, cur) => Scanning(nodes, linked, id, cur)
    case ReadDone(id, _, node) => Lookup(nodes, linked, id, node)
    case Upgrading(id, _) => Hash(id) < TABLE_BUCKETS
    case Rechecking(id, _, cur) => Scanning(nodes, linked, id, cur) && Hash(id) < TABLE_BUCKETS
    case Absent(id, _) => Lookup(nodes, linked, id, NULL) && Hash(id) < TABLE_BUCKETS
    case Allocated(id, session, node) =>
      && node == linked == |nodes| - 1 && nodes[node].id == id && nodes[node].session == session
      && Hash(id) < TABLE_BUCKETS && nodes[node].next == buckets[Hash(id)]
    case Linked(id, session, node) => 0 <= node < linked && nodes[node].id == id && nodes[node].session == session
    case WriteDone(id, node) => node == NULL || (0 <= node < linked && nodes[node].id == id)
    case Ready(id, node) => 0 <= node < linked && nodes[node].id == id
    case Counted(id, node) => 0 <= node < linked && nodes[node].id == id
  }

  function WriterPc(s: Sys): Pc {
    if s.writer.Some? && s.writer.value in s.threads then s.threads[s.writer.value] else Idle
  }

  ghost predicate LocksOk(s: Sys) {
    && (forall t :: t in s.threads ==> (t in s.readers <==> HoldsRead(s.threads[t])))
    && (forall t :: t in s.threads ==> (s.writer == Some(t) <==> HoldsWrite(s.threads[t])))
    && s.readers <= s.threads.Keys
    && (s.writer.Some? ==> s.writer.value in s.threads && s.readers == {})
  }

  ghost predicate TableOk(s: Sys) {
    && Sound(s.nodes, s.buckets, s.linked)
    && |s.nodes| == s.linked + (if WriterPc(s).Allocated? then 1 else 0)
    && (if WriterPc(s).Linked? then s.linked > 0 && s.deviceCount == Low32(s.linked - 1)
        else s.deviceCount == Low32(s.linked))
  }

  ghost predicate ThreadsOk(s: Sys)
    requires TableOk(s)
  {
    forall t :: t in s.threads ==> PcOk(s.nodes, s.buckets, s.linked, s.threads[t])
  }

  /** Every node ever returned for an id is the published node with that id. */
  ghost predicate LogOk(s: Sys) {
    forall k :: 0 <= k < |s.returned| ==>
      0 <= s.returned[k].1 < s.linked <= |s.nodes| && s.nodes[s.returned[k].1].id == s.returned[k].0
  }

  ghost predicate Inv(s: Sys) {
    LocksOk(s) && TableOk(s) && ThreadsOk(s) && LogOk(s)
  }

  // ---- preservation -----------------------------------------------------------------

  lemma UpdateKeepsPc(nodes: seq<Device>, buckets: seq<int>, linked: nat, node: nat, d: Device, pc: Pc)
    requires Sound(nodes, buckets, linked) && node < |nodes|
    requires d.id == nodes[node].id && d.next == nodes[node].next && d.session == nodes[node].session
    requires PcOk(nodes, buckets, linked, pc)
    ensures Descending(nodes[node := d]) && PcOk(nodes[node := d], buckets, linked, pc)
  {
    if pc.Reading? || pc.Rechecking? {
      ChainFrame(nodes, nodes[node := d], pc.cur);
    }
  }

  /** Atomic updates of a device disturb nobody, not even a thread that is walking past it. */
  lemma UpdateKeepsInv(s: Sys, node: nat, d: Device)
    requires Inv(s) && node < |s.nodes|
    requires d.id == s.nodes[node].id && d.next == s.nodes[node].next && d.session == s.nodes[node].session
    ensures Inv(Update(s, node, d))
  {
    UpdateKeepsSound(s.nodes, s.buckets, s.linked, node, d);
    forall t | t in s.threads ensures PcOk(s.nodes[node := d], s.buckets, s.linked, s.threads[t]) {
      UpdateKeepsPc(s.nodes, s.buckets, s.linked, node, d, s.threads[t]);
    }
  }

  /** A thread moves on by itself, without taking or giving up a lock. */
  lemma MoveKeepsInv(s: Sys, t: nat, pc: Pc)
    requires Inv(s) && PcOk(s.nodes, s.buckets, s.linked, pc)
    requires if t in s.threads
             then HoldsRead(pc) == HoldsRead(s.threads[t]) && HoldsWrite(pc) == HoldsWrite(s.threads[t])
             else !HoldsRead(pc) && !HoldsWrite(pc)
    requires !pc.Allocated? && !pc.Linked?
    requires t in s.threads ==> !s.threads[t].Allocated? && !s.threads[t].Linked?
    ensures Inv(At(s, t, pc))
  {
    var s' := At(s, t, pc);
    assert s.writer == Some(t) ==> WriterPc(s) == s.threads[t] && WriterPc(s') == pc;
    assert s.writer != Some(t) ==> WriterPc(s') == WriterPc(s);
  }

  lemma ReadLockKeepsInv(s: Sys, t: nat, pc: Pc, locked: bool)
    requires Inv(s) && t in s.threads && s.writer.None? && PcOk(s.nodes, s.buckets, s.linked, pc)
    requires HoldsRead(pc) == locked && !HoldsWrite(pc) && !HoldsWrite(s.threads[t])
    ensures Inv(At(s, t, pc).(readers := if locked then s.readers + {t} else s.readers - {t}))
  {
  }

  lemma ReadersExcludeWriter(s: Sys, t: nat)
    requires Inv(s) && t in s.threads && HoldsRead(s.threads[t])
    ensures s.writer.None?
  {
  }

  lemma WriteLockKeepsInv(s: Sys, t: nat, pc: Pc)
    requires Inv(s) && t in s.threads && s.writer.None? && s.readers == {}
    requires PcOk(s.nodes, s.buckets, s.linked, pc) && pc.Rechecking?
    ensures Inv(At(s, t, pc).(writer := Some(t)))
  {
  }

  lemma WriteUnlockKeepsInv(s: Sys, t: nat, pc: Pc)
    requires Inv(s) && t in s.threads && s.threads[t].WriteDone?
    requires PcOk(s.nodes, s.buckets, s.linked, pc) && !HoldsRead(pc) && !HoldsWrite(pc)
    ensures Inv(At(s, t, pc).(writer := None))
  {
    var s' := At(s, t, pc).(writer := None);
    assert WriterPc(s) == s.threads[t] && WriterPc(s') == Idle;
  }

  /** What a thread without a lock relies on survives growth of the table. */
  lemma GrowKeepsPc(s: Sys, nodes: seq<Device>, buckets: seq<int>, linked: nat, pc: Pc)
    requires TableOk(s) && PcOk(s.nodes, s.buckets, s.linked, pc) && !HoldsRead(pc) && !HoldsWrite(pc)
    requires s.nodes <= nodes && s.linked <= linked <= |nodes| && Descending(nodes) && |buckets| == TABLE_BUCKETS
    ensures PcOk(nodes, buckets, linked, pc)
  {
  }

  lemma AllocKeepsInv(s: Sys, t: nat, now: int)
    requires Inv(s) && t in s.threads && s.threads[t].Absent?
    ensures Inv(Advance(s, t, true, now))
  {
    var Absent(id, session) := s.threads[t];
    var s' := Advance(s, t, true, now);
    assert WriterPc(s) == s.threads[t] && WriterPc(s') == s'.threads[t];
    AllocKeepsSound(s.nodes, s.buckets, Fresh(id, session, s.buckets[Hash(id)], now));
    forall u | u in s'.threads ensures PcOk(s'.nodes, s'.buckets, s'.linked, s'.threads[u]) {
      if u != t {
        GrowKeepsPc(s, s'.nodes, s'.buckets, s'.linked, s.threads[u]);
      }
    }
  }

  lemma LinkKeepsInv(s: Sys, t: nat, now: int)
    requires Inv(s) && t in s.threads && s.threads[t].Allocated?
    ensures Inv(Advance(s, t, true, now))
  {
    var s' := Advance(s, t, true, now);
    assert WriterPc(s) == s.threads[t] && WriterPc(s') == s'.threads[t];
    LinkKeepsSound(s.nodes, s.buckets, s.linked);
    forall u | u in s'.threads ensures PcOk(s'.nodes, s'.buckets, s'.linked, s'.threads[u]) {
      if u != t {
        GrowKeepsPc(s, s'.nodes, s'.buckets, s'.linked, s.threads[u]);
      }
    }
  }

  lemma CountKeepsInv(s: Sys, t: nat, now: int)
    requires Inv(s) && t in s.threads && s.threads[t].Linked?
    ensures Inv(Advance(s, t, true, now))
  {
    var s' := Advance(s, t, true, now);
    assert WriterPc(s) == s.threads[t] && WriterPc(s') == s'.threads[t];
    Counts32(s.linked - 1);
  }

  lemma LogKeepsInv(s: Sys, id: U32, node: int)
    requires Inv(s) && 0 <= node < s.linked && s.nodes[node].id == id
    ensures Inv(s.(returned := s.returned + [(id, node)]))
  {
    assert WriterPc(s.(returned := s.returned + [(id, node)])) == WriterPc(s);
  }

  lemma InvIsSafe(s: Sys, a: Act)
    requires Inv(s) && Enabled(s, a)
    ensures Safe(s, a)
  {
    if a.Go? {
      assert PcOk(s.nodes, s.buckets, s.linked, s.threads[a.t]);
    }
  }

  /** One step of a chain walk. */
  lemma LookKeepsInv(s: Sys, t: nat, now: int)
    requires Inv(s) && t in s.threads && (s.threads[t].Reading? || s.threads[t].Rechecking?)
    ensures Safe(s, Go(t, true, now)) && Inv(Advance(s, t, true, now))
  {
    var pc := s.threads[t];
    ScanStep(s.nodes, s.linked, pc.id, pc.cur);
    MoveKeepsInv(s, t, Advance(s, t, true, now).threads[t]);
  }

  lemma ReadUnlockKeepsInv(s: Sys, t: nat, now: int)
    requires Inv(s) && t in s.threads && s.threads[t].ReadDone?
    ensures Inv(Advance(s, t, true, now))
  {
    var ReadDone(id, session, node) := s.threads[t];
    ReadersExcludeWriter(s, t);
    HashInRange(id);
    if node == NULL {
      ReadLockKeepsInv(s, t, Upgrading(id, session), false);
    } else {
      ReadLockKeepsInv(s, t, Ready(id, node), false);
      LogKeepsInv(At(s, t, Ready(id, node)).(readers := s.readers - {t}), id, node);
    }
  }

  lemma WriteReturnKeepsInv(s: Sys, t: nat, now: int)
    requires Inv(s) && t in s.threads && s.threads[t].WriteDone?
    ensures Inv(Advance(s, t, true, now))
  {
    var WriteDone(id, node) := s.threads[t];
    if node == NULL {
      WriteUnlockKeepsInv(s, t, Idle);
    } else {
      WriteUnlockKeepsInv(s, t, Ready(id, node));
      LogKeepsInv(At(s, t, Ready(id, node)).(writer := None), id, node);
    }
  }

  /** Taking a lock and starting the walk. */
  lemma LockKeepsInv(s: Sys, t: nat, now: int)
    requires Inv(s) && Enabled(s, Go(t, true, now)) && (s.threads[t].Called? || s.threads[t].Upgrading?)
    ensures Safe(s, Go(t, true, now)) && Inv(Advance(s, t, true, now))
  {
    var id, session := s.threads[t].id, s.threads[t].session;
    ScanStarts(s.nodes, s.buckets, s.linked, id);
    if s.threads[t].Called? {
      ReadLockKeepsInv(s, t, Reading(id, session, s.buckets[Hash(id)]), true);
    } else {
      WriteLockKeepsInv(s, t, Rechecking(id, session, s.buckets[Hash(id)]));
    }
  }

  lemma FailedAllocKeepsInv(s: Sys, t: nat, now: int)
    requires Inv(s) && t in s.threads && s.threads[t].Absent?
    ensures Inv(Advance(s, t, false, now))
  {
    MoveKeepsInv(s, t, WriteDone(s.threads[t].id, NULL));
  }

  lemma RecordedKeepsInv(s: Sys, t: nat, now: int)
    requires Inv(s) && t in s.threads && s.threads[t].Counted?
    ensures Inv(Advance(s, t, true, now))
  {
    MoveKeepsInv(s, t, Ready(s.threads[t].id, s.threads[t].node));
  }

  lemma AdvanceKeepsInv(s: Sys, t: nat, allocOk: bool, now: int)
    requires Inv(s) && Enabled(s, Go(t, allocOk, now)) && Safe(s, Go(t, allocOk, now))
    ensures Inv(Advance(s, t, allocOk, now))
  {
    match s.threads[t]
    case Called(_, _) => LockKeepsInv(s, t, now);
    case Upgrading(_, _) => LockKeepsInv(s, t, now);
    case Reading(_, _, _) => LookKeepsInv(s, t, now);
    case Rechecking(_, _, _) => LookKeepsInv(s, t, now);
    case ReadDone(_, _, _) => ReadUnlockKeepsInv(s, t, now);
    case Absent(_, _) =>
      if allocOk { AllocKeepsInv(s, t, now); } else { FailedAllocKeepsInv(s, t, now); }
    case Allocated(_, _, _) => LinkKeepsInv(s, t, now);
    case Linked(_, _, _) => CountKeepsInv(s, t, now);
    case WriteDone(_, _) => WriteReturnKeepsInv(s, t, now);
    case Counted(_, _) => RecordedKeepsInv(s, t, now);
  }

  lemma StepKeepsInv(s: Sys, a: Act)
    requires Inv(s) && Enabled(s, a) && Safe(s, a)
    ensures Inv(Step(s, a))
  {
    match a
    case Spawn(t) => MoveKeepsInv(s, t, Idle);
    case Call(t, id, session) =>
      HashInRange(id);
      MoveKeepsInv(s, t, Called(id, session));
    case Store(t, v) => UpdateKeepsInv(s, s.threads[t].node, v);
    case CountBad(t) =>
      var d := s.nodes[s.threads[t].node];
      UpdateKeepsInv(s, s.threads[t].node, d.(packetsBad := Next64(d.packetsBad)));
    case CountOk(t) =>
      var pc := s.threads[t];
      var d := s.nodes[pc.node];
      UpdateKeepsInv(s, pc.node, d.(packetsOk := Next64(d.packetsOk)));
      MoveKeepsInv(Update(s, pc.node, d.(packetsOk := Next64(d.packetsOk))), t, Counted(pc.id, pc.node));
    case Go(t, allocOk, now) => AdvanceKeepsInv(s, t, allocOk, now);
  }

  // ---- whole runs -------------------------------------------------------------------

  /** Where a schedule leads: to a state, to an act that cannot happen yet, or to a wild pointer. */
  datatype Outcome = Reached(s: Sys) | Blocked | WildPointer

  function Exec(s: Sys, acts: seq<Act>): Outcome
    decreases |acts|
  {
    if acts == [] then Reached(s)
    else if !Enabled(s, acts[0]) then Blocked
    else if !Safe(s, acts[0]) then WildPointer
    else Exec(Step(s, acts[0]), acts[1..])
  }

  lemma {:induction false} ExecKeepsInv(s: Sys, acts: seq<Act>)
    requires Inv(s)
    ensures !Exec(s, acts).WildPointer?
    ensures Exec(s, acts).Reached? ==> Inv(Exec(s, acts).s)
    decreases |acts|
  {
    if acts != [] && Enabled(s, acts[0]) {
      InvIsSafe(s, acts[0]);
      StepKeepsInv(s, acts[0]);
      ExecKeepsInv(Step(s, acts[0]), acts[1..]);
    }
  }

  lemma StartIsOk()
    ensures Inv(Start())
  {
  }

  /** In every interleaving of any number of threads: no wild pointer is followed, every id has at
      most one node and that node is on the chain of its own bucket and on no other, and outside a
      write-locked section the device count is the number of nodes. */
  lemma {:induction false} EveryInterleaving(acts: seq<Act>)
    ensures !Exec(Start(), acts).WildPointer?
    ensures Exec(Start(), acts).Reached? ==>
              var s := Exec(Start(), acts).s;
              && Inv(s)
              && (s.writer.None? ==> s.linked == |s.nodes| && s.deviceCount == Low32(|s.nodes|))
              && (s.writer.None? ==> forall i, b :: 0 <= i < |s.nodes| && 0 <= b < TABLE_BUCKETS ==>
                    (i in Chain(s.nodes, s.buckets[b]) <==> b == Hash(s.nodes[i].id)))
  {
    StartIsOk();
    ExecKeepsInv(Start(), acts);
    if Exec(Start(), acts).Reached? {
      var s := Exec(Start(), acts).s;
      forall i, b | s.writer.None? && 0 <= i < |s.nodes| && 0 <= b < TABLE_BUCKETS
        ensures i in Chain(s.nodes, s.buckets[b]) <==> b == Hash(s.nodes[i].id)
      {
        assert Chain(s.nodes, s.buckets[b]) == Bucket(s.nodes, s.linked, b);
      }
    }
  }

  /** All callers that ask for the same id, at any time and in any thread, get the same node. */
  lemma {:induction false} SameIdSameNode(acts: seq<Act>, j: nat, k: nat)
    requires Exec(Start(), acts).Reached?
    requires j < |Exec(Start(), acts).s.returned| && k < |Exec(Start(), acts).s.returned|
    ensures var log := Exec(Start(), acts).s.returned;
            log[j].0 == log[k].0 <==> log[j].1 == log[k].1
  {
    EveryInterleaving(acts);
    var s := Exec(Start(), acts).s;
    assert Unique(s.nodes);
  }

  /** No step removes a node or changes its id, its session or, once it is published, its place. */
  lemma StepKeepsNodes(s: Sys, a: Act)
    requires Inv(s) && Enabled(s, a) && Safe(s, a)
    ensures |s.nodes| <= |Step(s, a).nodes|
    ensures forall i :: 0 <= i < |s.nodes| ==>
              && Step(s, a).nodes[i].id == s.nodes[i].id
              && Step(s, a).nodes[i].session == s.nodes[i].session
              && Step(s, a).nodes[i].next == s.nodes[i].next
  {
  }

  lemma {:induction false} NodesAreForever(s: Sys, acts: seq<Act>)
    requires Inv(s) && Exec(s, acts).Reached?
    ensures var s' := Exec(s, acts).s;
            && |s.nodes| <= |s'.nodes|
            && forall i :: 0 <= i < |s.nodes| ==>
                 s'.nodes[i].id == s.nodes[i].id && s'.nodes[i].session == s.nodes[i].session
    decreases |acts|
  {
    if acts != [] {
      StepKeepsNodes(s, acts[0]);
      StepKeepsInv(s, acts[0]);
      NodesAreForever(Step(s, acts[0]), acts[1..]);
    }
  }

  // ---- conservation of records ------------------------------------------------------

  function SumOk(nodes: seq<Device>): nat {
    if nodes == [] then 0 else SumOk(nodes[..|nodes| - 1]) + nodes[|nodes| - 1].packetsOk
  }

  /** The threads between `dt_record_sensor` and their sink write. */
  function InFlight(threads: map<nat, Pc>): set<nat> {
    set t | t in threads && threads[t].Counted?
  }

  /** The 64-bit counters of all devices add up to the records written plus those in flight. */
  ghost predicate Balanced(s: Sys) {
    Low64(SumOk(s.nodes)) == Low64(s.sinkWrites + |InFlight(s.threads)|)
  }

  lemma {:induction false} SumUpdate(nodes: seq<Device>, node: nat, d: Device)
    requires node < |nodes|
    ensures SumOk(nodes[node := d]) == SumOk(nodes) - nodes[node].packetsOk + d.packetsOk
  {
    var last := |nodes| - 1;
    if node < last {
      assert nodes[node := d][..last] == nodes[..last][node := d];
      SumUpdate(nodes[..last], node, d);
    } else {
      assert nodes[node := d][..last] == nodes[..last];
    }
  }

  lemma {:induction false} SumAppend(nodes: seq<Device>, d: Device)
    ensures SumOk(nodes + [d]) == SumOk(nodes) + d.packetsOk
  {
    assert (nodes + [d])[..|nodes|] == nodes;
  }

  /** One wrapping increment adds one to the sum, modulo 2^64. */
  lemma SumCounts(sum: nat, sum': nat, ok: U64)
    requires sum' == sum - ok + Next64(ok) && ok <= sum
    ensures Low64(sum') == Low64(sum + 1)
  {
    if ok == 0xFFFF_FFFF_FFFF_FFFF {
      assert sum + 1 == sum' + 0x1_0000_0000_0000_0000;
    }
  }

  lemma Low64Next(a: nat, b: nat)
    requires Low64(a) == Low64(b)
    ensures Low64(a + 1) == Low64(b + 1)
  {
  }

  lemma {:induction false} SumIncludes(nodes: seq<Device>, node: nat)
    requires node < |nodes|
    ensures nodes[node].packetsOk <= SumOk(nodes)
  {
    var last := |nodes| - 1;
    if node < last {
      SumIncludes(nodes[..last], node);
    }
  }

  lemma FlightChanges(threads: map<nat, Pc>, t: nat, pc: Pc)
    ensures InFlight(threads[t := pc]) == if pc.Counted? then InFlight(threads) + {t} else InFlight(threads) - {t}
    ensures t in InFlight(threads) <==> t in threads && threads[t].Counted?
  {
  }

  lemma {:induction false} CountedSum(nodes: seq<Device>, node: nat)
    requires node < |nodes|
    ensures var d := nodes[node];
            Low64(SumOk(nodes[node := d.(packetsOk := Next64(d.packetsOk))])) == Low64(SumOk(nodes) + 1)
  {
    var d := nodes[node];
    var d' := d.(packetsOk := Next64(d.packetsOk));
    SumUpdate(nodes, node, d');
    SumIncludes(nodes, node);
    SumCounts(SumOk(nodes), SumOk(nodes[node := d']), d.packetsOk);
  }

  lemma CountOkBalances(s: Sys, t: nat)
    requires Balanced(s) && Enabled(s, CountOk(t))
    ensures Balanced(Step(s, CountOk(t)))
  {
    var pc := s.threads[t];
    CountedSum(s.nodes, pc.node);
    FlightChanges(s.threads, t, Counted(pc.id, pc.node));
    Low64Next(SumOk(s.nodes), s.sinkWrites + |InFlight(s.threads)|);
  }

  lemma SinkWriteBalances(s: Sys, t: nat, allocOk: bool, now: int)
    requires Balanced(s) && t in s.threads && s.threads[t].Counted?
    ensures Balanced(Advance(s, t, allocOk, now))
  {
    FlightChanges(s.threads, t, Ready(s.threads[t].id, s.threads[t].node));
  }

  /** A step inside a call moves one thread and leaves the counters alone. */
  lemma AdvanceBalances(s: Sys, t: nat, allocOk: bool, now: int)
    requires Balanced(s) && Enabled(s, Go(t, allocOk, now)) && Safe(s, Go(t, allocOk, now))
    requires !s.threads[t].Counted?
    ensures Balanced(Advance(s, t, allocOk, now))
  {
    var pc, added := AdvanceMoves(s, t, allocOk, now);
    FlightChanges(s.threads, t, pc);
    if added != [] {
      SumAppend(s.nodes, added[0]);
    }
  }

  lemma AdvanceMoves(s: Sys, t: nat, allocOk: bool, now: int) returns (pc: Pc, added: seq<Device>)
    requires Enabled(s, Go(t, allocOk, now)) && Safe(s, Go(t, allocOk, now)) && !s.threads[t].Counted?
    ensures var s' := Advance(s, t, allocOk, now);
            s'.threads == s.threads[t := pc] && s'.nodes == s.nodes + added && s'.sinkWrites == s.sinkWrites
    ensures !pc.Counted? && (added == [] || (|added| == 1 && added[0].packetsOk == 0))
  {
    var s' := Advance(s, t, allocOk, now);
    pc := s'.threads[t];
    added := s'.nodes[|s.nodes|..];
  }

  lemma StoreBalances(s: Sys, node: nat, d: Device)
    requires Balanced(s) && node < |s.nodes| && d.packetsOk == s.nodes[node].packetsOk
    ensures Balanced(Update(s, node, d))
  {
    SumUpdate(s.nodes, node, d);
  }

  lemma StepBalances(s: Sys, a: Act)
    requires Balanced(s) && Enabled(s, a) && Safe(s, a)
    ensures Balanced(Step(s, a))
  {
    match a
    case Spawn(t) => FlightChanges(s.threads, t, Idle);
    case Call(t, id, session) => FlightChanges(s.threads, t, Called(id, session));
    case Store(t, v) => StoreBalances(s, s.threads[t].node, v);
    case CountBad(t) =>
      var d := s.nodes[s.threads[t].node];
      StoreBalances(s, s.threads[t].node, d.(packetsBad := Next64(d.packetsBad)));
    case CountOk(t) => CountOkBalances(s, t);
    case Go(t, allocOk, now) =>
      if s.threads[t].Counted? {
        SinkWriteBalances(s, t, allocOk, now);
      } else {
        AdvanceBalances(s, t, allocOk, now);
      }
  }

  /** At every reachable state of many interleaved workers, the packets_ok counters of all devices
      together equal the sink writes made plus the workers still on their way to one. */
  lemma {:induction false} RecordsConserved(s: Sys, acts: seq<Act>)
    requires Balanced(s) && Exec(s, acts).Reached?
    ensures Balanced(Exec(s, acts).s)
    decreases |acts|
  {
    if acts != [] {
      StepBalances(s, acts[0]);
      RecordsConserved(Step(s, acts[0]), acts[1..]);
    }
  }

  lemma {:induction false} RecordsConservedFromStart(acts: seq<Act>)
    requires Exec(Start(), acts).Reached?
    ensures Balanced(Exec(Start(), acts).s)
  {
    assert InFlight(Start().threads) == {};
    RecordsConserved(Start(), acts);
  }
}
