/** That calls of `dt_get_or_create` are answered: no call is lost in any interleaving, and a call that
    nobody disturbs does what it does alone. */
module DeviceTableCalls {
  import opened Bytes
  import opened Options
  import opened DeviceTable
  import opened DeviceTableRuns

  // ---- every call is answered -------------------------------------------------------

  predicate InCall(pc: Pc) {
    !pc.Idle? && !pc.Ready? && !pc.Counted?
  }

  /** The threads inside a call. */
  function Busy(threads: map<nat, Pc>): set<nat> {
    set t | t in threads && InCall(threads[t])
  }

  lemma BusyChanges(threads: map<nat, Pc>, t: nat, pc: Pc)
    ensures |Busy(threads[t := pc])| == |Busy(threads) - {t}| + (if InCall(pc) then 1 else 0)
    ensures |Busy(threads)| == |Busy(threads) - {t}| + (if t in threads && InCall(threads[t]) then 1 else 0)
  {
    var busy, busy' := Busy(threads), Busy(threads[t := pc]);
    assert busy' == if InCall(pc) then busy - {t} + {t} else busy - {t};
    assert t in threads && InCall(threads[t]) ==> busy == busy - {t} + {t};
    assert !(t in threads && InCall(threads[t])) ==> busy == busy - {t};
  }

  /** A thread is not about to return empty-handed, and what it has it got from a call. */
  ghost predicate PcAnswered(pc: Pc, returned: seq<(U32, int)>) {
    match pc
    case WriteDone(_, node) => node != NULL
    case Ready(id, node) => (id, node) in returned
    case Counted(id, node) => (id, node) in returned
    case _ => true
  }

  ghost predicate Answered(s: Sys) {
    forall t :: t in s.threads ==> PcAnswered(s.threads[t], s.returned)
  }

  /** No allocation fails. */
  ghost predicate Willing(acts: seq<Act>) {
    forall i :: 0 <= i < |acts| && acts[i].Go? ==> acts[i].allocOk
  }

  function Calls(acts: seq<Act>): nat {
    if acts == [] then 0 else (if acts[0].Call? then 1 else 0) + Calls(acts[1..])
  }

  lemma GoShape(s: Sys, t: nat, now: int)
    requires Enabled(s, Go(t, true, now)) && Safe(s, Go(t, true, now)) && PcAnswered(s.threads[t], s.returned)
    requires s.threads[t].Linked? ==> s.threads[t].node != NULL
    ensures var s' := Advance(s, t, true, now);
            && s'.threads == s.threads[t := s'.threads[t]] && s.returned <= s'.returned
            && PcAnswered(s'.threads[t], s'.returned)
            && |s'.returned| + (if InCall(s'.threads[t]) then 1 else 0)
               == |s.returned| + (if InCall(s.threads[t]) then 1 else 0)
  {
  }

  lemma GoAnswers(s: Sys, t: nat, now: int)
    requires Inv(s) && Answered(s) && Enabled(s, Go(t, true, now)) && Safe(s, Go(t, true, now))
    ensures var s' := Advance(s, t, true, now);
            Answered(s') && |s'.returned| + |Busy(s'.threads)| == |s.returned| + |Busy(s.threads)|
  {
    assert PcOk(s.nodes, s.buckets, s.linked, s.threads[t]);
    GoShape(s, t, now);
    Moved(s, Advance(s, t, true, now), t);
  }

  /** One thread moves on; the answers given so far stand. */
  lemma Moved(s: Sys, s': Sys, t: nat)
    requires Answered(s) && t in s.threads && t in s'.threads && s'.threads == s.threads[t := s'.threads[t]]
    requires s.returned <= s'.returned && PcAnswered(s'.threads[t], s'.returned)
    ensures Answered(s')
    ensures |Busy(s'.threads)| + (if InCall(s.threads[t]) then 1 else 0)
         == |Busy(s.threads)| + (if InCall(s'.threads[t]) then 1 else 0)
  {
    BusyChanges(s.threads, t, s'.threads[t]);
    forall u | u in s'.threads && u != t ensures PcAnswered(s'.threads[u], s'.returned) {
      assert PcAnswered(s.threads[u], s.returned);
      assert forall r :: r in s.returned ==> r in s'.returned;
    }
  }

  lemma Spawned(s: Sys, t: nat)
    requires Answered(s) && t !in s.threads
    ensures Answered(At(s, t, Idle)) && |Busy(At(s, t, Idle).threads)| == |Busy(s.threads)|
  {
    BusyChanges(s.threads, t, Idle);
  }

  lemma StepAnswers(s: Sys, a: Act)
    requires Inv(s) && Answered(s) && Enabled(s, a) && Safe(s, a) && (a.Go? ==> a.allocOk)
    ensures var s' := Step(s, a);
            && Answered(s')
            && |s'.returned| + |Busy(s'.threads)| == |s.returned| + |Busy(s.threads)| + if a.Call? then 1 else 0
  {
    var s' := Step(s, a);
    if a.Go? {
      GoAnswers(s, a.t, a.now);
    } else if a.Spawn? {
      Spawned(s, a.t);
    } else if a.Call? || a.CountOk? {
      Moved(s, s', a.t);
    }
  }

  lemma {:induction false} RunAnswers(s: Sys, acts: seq<Act>)
    requires Inv(s) && Answered(s) && Willing(acts) && Exec(s, acts).Reached?
    ensures var s' := Exec(s, acts).s;
            Answered(s') && |s'.returned| + |Busy(s'.threads)| == |s.returned| + |Busy(s.threads)| + Calls(acts)
    decreases |acts|
  {
    if acts != [] {
      StepAnswers(s, acts[0]);
      StepKeepsInv(s, acts[0]);
      RunAnswers(Step(s, acts[0]), acts[1..]);
    }
  }

  /** In every interleaving in which no allocation fails: no call returns empty-handed, every call made
      has returned a device or is still under way, and a thread with a device got it from a call. */
  lemma {:induction false} EveryCallAnswered(acts: seq<Act>)
    requires Willing(acts) && Exec(Start(), acts).Reached?
    ensures var s := Exec(Start(), acts).s;
            && (forall t :: t in s.threads && s.threads[t].WriteDone? ==> s.threads[t].node != NULL)
            && (forall t :: t in s.threads && s.threads[t].Ready? ==>
                  (s.threads[t].id, s.threads[t].node) in s.returned)
            && |s.returned| + |Busy(s.threads)| == Calls(acts)
  {
    StartIsOk();
    assert Busy(Start().threads) == {};
    RunAnswers(Start(), acts);
  }

  // ---- bad packets ------------------------------------------------------------------

  function SumBad(nodes: seq<Device>): nat {
    if nodes == [] then 0 else SumBad(nodes[..|nodes| - 1]) + nodes[|nodes| - 1].packetsBad
  }

  function BadCalls(acts: seq<Act>): nat {
    if acts == [] then 0 else (if acts[0].CountBad? then 1 else 0) + BadCalls(acts[1..])
  }

  lemma {:induction false} BadUpdate(nodes: seq<Device>, node: nat, d: Device)
    requires node < |nodes|
    ensures SumBad(nodes[node := d]) == SumBad(nodes) - nodes[node].packetsBad + d.packetsBad
    ensures nodes[node].packetsBad <= SumBad(nodes)
  {
    var last := |nodes| - 1;
    if node < last {
      assert nodes[node := d][..last] == nodes[..last][node := d];
      BadUpdate(nodes[..last], node, d);
    } else {
      assert nodes[node := d][..last] == nodes[..last];
    }
  }

  lemma {:induction false} StepCountsBad(s: Sys, a: Act)
    requires Enabled(s, a) && Safe(s, a)
    ensures Low64(SumBad(Step(s, a).nodes)) == Low64(SumBad(s.nodes) + if a.CountBad? then 1 else 0)
  {
    if a.Store? || a.CountOk? || a.CountBad? {
      var node := s.threads[a.t].node;
      BadUpdate(s.nodes, node, Step(s, a).nodes[node]);
      if a.CountBad? {
        SumCounts(SumBad(s.nodes), SumBad(Step(s, a).nodes), s.nodes[node].packetsBad);
      }
    } else if a.Go? && s.threads[a.t].Absent? && a.allocOk {
      assert Step(s, a).nodes[..|s.nodes|] == s.nodes;
    }
  }

  /** The bad-packet counters of all devices together count every bad packet once. */
  lemma {:induction false} BadPacketsCounted(s: Sys, acts: seq<Act>)
    requires Exec(s, acts).Reached?
    ensures Low64(SumBad(Exec(s, acts).s.nodes)) == Low64(SumBad(s.nodes) + BadCalls(acts))
    decreases |acts|
  {
    if acts != [] {
      var s1, one, more := Step(s, acts[0]), if acts[0].CountBad? then 1 else 0, BadCalls(acts[1..]);
      StepCountsBad(s, acts[0]);
      BadPacketsCounted(s1, acts[1..]);
      SameLow(SumBad(s1.nodes), SumBad(s.nodes) + one, more);
    }
  }

  lemma SameLow(a: nat, b: nat, n: nat)
    requires Low64(a) == Low64(b)
    ensures Low64(a + n) == Low64(b + n)
  {
  }

  // ---- good packets -----------------------------------------------------------------

  function OkCalls(acts: seq<Act>): nat {
    if acts == [] then 0 else (if acts[0].CountOk? then 1 else 0) + OkCalls(acts[1..])
  }

  /** The records written and those on their way. */
  function Recorded(s: Sys): nat {
    s.sinkWrites + |InFlight(s.threads)|
  }

  lemma StepRecords(s: Sys, a: Act)
    requires Enabled(s, a) && Safe(s, a)
    ensures Recorded(Step(s, a)) == Recorded(s) + if a.CountOk? then 1 else 0
  {
    match a
    case Spawn(t) => FlightChanges(s.threads, t, Idle);
    case Call(t, id, session) => FlightChanges(s.threads, t, Called(id, session));
    case Store(t, v) =>
    case CountBad(t) =>
    case CountOk(t) => FlightChanges(s.threads, t, Counted(s.threads[t].id, s.threads[t].node));
    case Go(t, allocOk, now) =>
      if s.threads[t].Counted? {
        FlightChanges(s.threads, t, Ready(s.threads[t].id, s.threads[t].node));
      } else {
        var pc, _ := AdvanceMoves(s, t, allocOk, now);
        FlightChanges(s.threads, t, pc);
      }
  }

  lemma {:induction false} RunRecords(s: Sys, acts: seq<Act>)
    requires Exec(s, acts).Reached?
    ensures Recorded(Exec(s, acts).s) == Recorded(s) + OkCalls(acts)
    decreases |acts|
  {
    if acts != [] {
      StepRecords(s, acts[0]);
      RunRecords(Step(s, acts[0]), acts[1..]);
    }
  }

  /** Every recorded SENSOR packet is written to the sink or about to be, and the counters of all devices
      together count each once. */
  lemma {:induction false} OkPacketsCounted(acts: seq<Act>)
    requires Exec(Start(), acts).Reached?
    ensures var s := Exec(Start(), acts).s;
            s.sinkWrites + |InFlight(s.threads)| == OkCalls(acts) && Low64(SumOk(s.nodes)) == Low64(OkCalls(acts))
  {
    assert InFlight(Start().threads) == {};
    RunRecords(Start(), acts);
    RecordsConservedFromStart(acts);
  }

  // ---- a call undisturbed -----------------------------------------------------------

  function Gos(t: nat, allocOk: bool, now: int, n: nat): seq<Act> {
    seq(n, _ => Go(t, allocOk, now))
  }

  /** `n` steps of thread `t` alone lead from `s` to `s'`. */
  ghost predicate Leads(s: Sys, t: nat, allocOk: bool, now: int, n: nat, s': Sys) {
    Exec(s, Gos(t, allocOk, now, n)) == Reached(s')
  }

  lemma {:induction false} ExecOn(s: Sys, a: seq<Act>, b: seq<Act>)
    requires Exec(s, a).Reached?
    ensures Exec(s, a + b) == Exec(Exec(s, a).s, b)
    decreases |a|
  {
    if a == [] {
      assert a + b == b;
    } else {
      assert (a + b)[1..] == a[1..] + b;
      ExecOn(Step(s, a[0]), a[1..], b);
    }
  }

  lemma {:induction false} LeadsOn(s: Sys, t: nat, allocOk: bool, now: int, n: nat, s1: Sys, m: nat, s2: Sys)
    requires Leads(s, t, allocOk, now, n, s1) && Leads(s1, t, allocOk, now, m, s2)
    ensures Leads(s, t, allocOk, now, n + m, s2)
  {
    ExecOn(s, Gos(t, allocOk, now, n), Gos(t, allocOk, now, m));
    assert Gos(t, allocOk, now, n + m) == Gos(t, allocOk, now, n) + Gos(t, allocOk, now, m);
  }

  lemma {:induction false} LeadsOne(s: Sys, t: nat, allocOk: bool, now: int)
    requires Inv(s) && Enabled(s, Go(t, allocOk, now))
    ensures Safe(s, Go(t, allocOk, now)) && Inv(Advance(s, t, allocOk, now))
    ensures Leads(s, t, allocOk, now, 1, Advance(s, t, allocOk, now))
  {
    InvIsSafe(s, Go(t, allocOk, now));
    AdvanceKeepsInv(s, t, allocOk, now);
    assert Gos(t, allocOk, now, 1)[1..] == [];
  }

  lemma {:induction false} LeadsInv(s: Sys, t: nat, allocOk: bool, now: int, n: nat, s': Sys)
    requires Inv(s) && Leads(s, t, allocOk, now, n, s')
    ensures Inv(s')
  {
    ExecKeepsInv(s, Gos(t, allocOk, now, n));
  }

  /** The walk under the read lock ends with what the table holds. */
  lemma {:induction false} ReadWalk(s: Sys, t: nat, allocOk: bool, now: int, id: U32, session: U32, cur: int)
    returns (n: nat, node: int)
    requires Inv(s) && t in s.threads && s.threads[t] == Reading(id, session, cur)
    ensures Lookup(s.nodes, s.linked, id, node)
    ensures Leads(s, t, allocOk, now, n, At(s, t, ReadDone(id, session, node)))
    decreases cur + 1
  {
    assert PcOk(s.nodes, s.buckets, s.linked, s.threads[t]);
    LeadsOne(s, t, allocOk, now);
    var s1 := Advance(s, t, allocOk, now);
    assert PcOk(s1.nodes, s1.buckets, s1.linked, s1.threads[t]);
    if cur == NULL || s.nodes[cur].id == id {
      return 1, cur;
    }
    n, node := ReadWalk(s1, t, allocOk, now, id, session, s.nodes[cur].next);
    assert At(s1, t, ReadDone(id, session, node)) == At(s, t, ReadDone(id, session, node));
    LeadsOn(s, t, allocOk, now, 1, s1, n, At(s, t, ReadDone(id, session, node)));
    n := n + 1;
  }

  function Rechecked(id: U32, session: U32, node: int): Pc {
    if node == NULL then Absent(id, session) else WriteDone(id, node)
  }

  /** So does the one under the write lock. */
  lemma {:induction false} WriteWalk(s: Sys, t: nat, allocOk: bool, now: int, id: U32, session: U32, cur: int)
    returns (n: nat, node: int)
    requires Inv(s) && t in s.threads && s.threads[t] == Rechecking(id, session, cur)
    ensures Lookup(s.nodes, s.linked, id, node)
    ensures Leads(s, t, allocOk, now, n, At(s, t, Rechecked(id, session, node)))
    decreases cur + 1
  {
    assert PcOk(s.nodes, s.buckets, s.linked, s.threads[t]);
    ScanStep(s.nodes, s.linked, id, cur);
    LeadsOne(s, t, allocOk, now);
    var s1 := Advance(s, t, allocOk, now);
    if cur == NULL || s.nodes[cur].id == id {
      return 1, cur;
    }
    n, node := WriteWalk(s1, t, allocOk, now, id, session, s.nodes[cur].next);
    assert At(s1, t, Rechecked(id, session, node)) == At(s, t, Rechecked(id, session, node));
    LeadsOn(s, t, allocOk, now, 1, s1, n, At(s, t, Rechecked(id, session, node)));
    n := n + 1;
  }

  // ---- the whole call ---------------------------------------------------------------

  /** Nobody holds the lock. */
  ghost predicate Quiet(s: Sys) {
    s.writer.None? && s.readers == {}
  }

  /** From the call to the end of the first walk. */
  lemma {:induction false} ReadPhase(s: Sys, t: nat, allocOk: bool, now: int, id: U32, session: U32)
    returns (n: nat, node: int, s': Sys)
    requires Inv(s) && Quiet(s) && t in s.threads && s.threads[t] == Called(id, session)
    ensures Lookup(s.nodes, s.linked, id, node)
    ensures s' == At(s, t, ReadDone(id, session, node)).(readers := {t}) && Leads(s, t, allocOk, now, n, s')
  {
    LeadsOne(s, t, allocOk, now);
    var s1 := Advance(s, t, allocOk, now);
    n, node := ReadWalk(s1, t, allocOk, now, id, session, s1.threads[t].cur);
    s' := At(s1, t, ReadDone(id, session, node));
    assert s.readers + {t} == {t};
    LeadsOn(s, t, allocOk, now, 1, s1, n, s');
    n := n + 1;
  }

  lemma {:induction false} UpgradeWalk(s: Sys, t: nat, allocOk: bool, now: int, id: U32, session: U32)
    returns (n: nat, s': Sys)
    requires Inv(s) && Quiet(s) && t in s.threads && s.threads[t] == Upgrading(id, session)
    requires Lookup(s.nodes, s.linked, id, NULL)
    ensures s' == At(s, t, Absent(id, session)).(writer := Some(t)) && Leads(s, t, allocOk, now, n, s')
  {
    LeadsOne(s, t, allocOk, now);
    var s1 := Advance(s, t, allocOk, now);
    var m, node := WriteWalk(s1, t, allocOk, now, id, session, s1.threads[t].cur);
    assert node == NULL;
    s' := At(s1, t, Absent(id, session));
    LeadsOn(s, t, allocOk, now, 1, s1, m, s');
    n := m + 1;
  }

  lemma {:induction false} ReleaseLeads(s: Sys, t: nat, allocOk: bool, now: int, id: U32, session: U32)
    returns (s': Sys)
    requires Inv(s) && s.readers == {t} && t in s.threads && s.threads[t] == ReadDone(id, session, NULL)
    ensures s' == At(s, t, Upgrading(id, session)).(readers := {})
    ensures Inv(s') && Leads(s, t, allocOk, now, 1, s')
  {
    LeadsOne(s, t, allocOk, now);
    s' := Advance(s, t, allocOk, now);
    assert s.readers - {t} == {};
  }

  /** From the release of the read lock to the end of the second walk. */
  lemma {:induction false} WritePhase(s: Sys, t: nat, allocOk: bool, now: int, id: U32, session: U32)
    returns (n: nat, s': Sys)
    requires Inv(s) && s.writer.None? && s.readers == {t} && t in s.threads
    requires s.threads[t] == ReadDone(id, session, NULL) && Lookup(s.nodes, s.linked, id, NULL)
    ensures s' == At(s, t, Absent(id, session)).(readers := {}, writer := Some(t))
    ensures Leads(s, t, allocOk, now, n, s')
  {
    var s1 := ReleaseLeads(s, t, allocOk, now, id, session);
    n, s' := UpgradeWalk(s1, t, allocOk, now, id, session);
    LeadsOn(s, t, allocOk, now, 1, s1, n, s');
    n := n + 1;
  }

  lemma {:induction false} UnlockLeads(s: Sys, t: nat, allocOk: bool, now: int, id: U32, node: int)
    requires Inv(s) && t in s.threads && s.threads[t] == WriteDone(id, node)
    ensures Leads(s, t, allocOk, now, 1, Return(s.(writer := None), t, id, node))
  {
    LeadsOne(s, t, allocOk, now);
  }

  lemma {:induction false} CountLeads(s: Sys, t: nat, now: int, id: U32, session: U32, node: nat)
    requires Inv(s) && t in s.threads && s.threads[t] == Linked(id, session, node)
    ensures Leads(s, t, true, now, 2, Return(s.(writer := None, deviceCount := Next32(s.deviceCount)), t, id, node))
  {
    LeadsOne(s, t, true, now);
    var s1 := Advance(s, t, true, now);
    UnlockLeads(s1, t, true, now, id, node);
    var s2 := Return(s1.(writer := None), t, id, node);
    LeadsOn(s, t, true, now, 1, s1, 1, s2);
    assert s2 == Return(s.(writer := None, deviceCount := Next32(s.deviceCount)), t, id, node);
  }

  lemma {:induction false} LinkLeads(s: Sys, t: nat, now: int, id: U32, session: U32, node: nat) returns (s': Sys)
    requires Inv(s) && t in s.threads && s.threads[t] == Allocated(id, session, node)
    ensures Leads(s, t, true, now, 3, s')
    ensures s' == Return(s.(writer := None, deviceCount := Next32(s.deviceCount), linked := s'.linked,
                            buckets := s'.buckets), t, id, node)
  {
    LeadsOne(s, t, true, now);
    var s1 := Advance(s, t, true, now);
    CountLeads(s1, t, now, id, session, node);
    s' := Return(s1.(writer := None, deviceCount := Next32(s.deviceCount)), t, id, node);
    LeadsOn(s, t, true, now, 1, s1, 2, s');
  }

  /** Insertion: allocated, linked, counted, unlocked. */
  lemma {:induction false} InsertPhase(s: Sys, t: nat, now: int, id: U32, session: U32) returns (s': Sys)
    requires Inv(s) && s.readers == {} && s.writer == Some(t) && t in s.threads && s.threads[t] == Absent(id, session)
    ensures Leads(s, t, true, now, 4, s') && s'.writer.None? && s'.readers == {}
    ensures s'.threads == s.threads[t := Ready(id, |s.nodes|)] && s'.returned == s.returned + [(id, |s.nodes|)]
    ensures |s'.nodes| == |s.nodes| + 1 && s'.nodes[..|s.nodes|] == s.nodes
    ensures Created(s'.nodes[|s.nodes|], id, session, now)
    ensures s'.deviceCount == Next32(s.deviceCount) && s'.sinkWrites == s.sinkWrites
  {
    LeadsOne(s, t, true, now);
    var s1 := Advance(s, t, true, now);
    s' := LinkLeads(s1, t, now, id, session, |s.nodes|);
    LeadsOn(s, t, true, now, 1, s1, 3, s');
  }

  /** What an undisturbed call leaves behind: what `Registry.GetOrCreate` promises. */
  ghost predicate Answer(s: Sys, s': Sys, t: nat, id: U32, session: U32, allocOk: bool, now: int) {
    && Quiet(s') && s'.sinkWrites == s.sinkWrites && t in s'.threads && s'.threads == s.threads[t := s'.threads[t]]
    && if exists i :: 0 <= i < |s.nodes| && s.nodes[i].id == id then
         && s'.nodes == s.nodes && s'.deviceCount == s.deviceCount && s'.threads[t].Ready? && s'.threads[t].id == id
         && var d := s'.threads[t].node;
            0 <= d < |s.nodes| && s.nodes[d].id == id && s'.returned == s.returned + [(id, d)]
       else if allocOk then
         && s'.threads[t] == Ready(id, |s.nodes|) && s'.returned == s.returned + [(id, |s.nodes|)]
         && |s'.nodes| == |s.nodes| + 1 && s'.nodes[..|s.nodes|] == s.nodes
         && Created(s'.nodes[|s.nodes|], id, session, now) && s'.deviceCount == Next32(s.deviceCount)
       else
         s'.nodes == s.nodes && s'.deviceCount == s.deviceCount && s'.threads[t] == Idle && s'.returned == s.returned
  }

  lemma {:induction false} AbsentPhase(s0: Sys, s: Sys, t: nat, allocOk: bool, now: int, id: U32, session: U32)
    returns (n: nat, s': Sys)
    requires Quiet(s0) && t in s0.threads
    requires s == At(s0, t, Absent(id, session)).(writer := Some(t)) && Inv(s) && Lookup(s0.nodes, |s0.nodes|, id, NULL)
    ensures Leads(s, t, allocOk, now, n, s') && Answer(s0, s', t, id, session, allocOk, now)
  {
    if allocOk {
      n := 4;
      s' := InsertPhase(s, t, now, id, session);
    } else {
      LeadsOne(s, t, allocOk, now);
      var s1 := Advance(s, t, allocOk, now);
      UnlockLeads(s1, t, allocOk, now, id, NULL);
      s' := Return(s1.(writer := None), t, id, NULL);
      LeadsOn(s, t, allocOk, now, 1, s1, 1, s');
      n := 2;
    }
  }

  lemma {:induction false} FoundPhase(s0: Sys, s: Sys, t: nat, allocOk: bool, now: int, id: U32, session: U32,
                                      node: nat)
    returns (s': Sys)
    requires Quiet(s0) && t in s0.threads && node < |s0.nodes| && s0.nodes[node].id == id
    requires s == At(s0, t, ReadDone(id, session, node)).(readers := {t}) && Inv(s)
    ensures Leads(s, t, allocOk, now, 1, s') && Answer(s0, s', t, id, session, allocOk, now)
  {
    LeadsOne(s, t, allocOk, now);
    s' := Advance(s, t, allocOk, now);
    assert s.readers - {t} == {};
  }

  lemma {:induction false} MissingPhase(s0: Sys, s: Sys, t: nat, allocOk: bool, now: int, id: U32, session: U32)
    returns (n: nat, s': Sys)
    requires Quiet(s0) && t in s0.threads && Lookup(s0.nodes, |s0.nodes|, id, NULL) && s0.linked == |s0.nodes|
    requires s == At(s0, t, ReadDone(id, session, NULL)).(readers := {t}) && Inv(s)
    ensures Leads(s, t, allocOk, now, n, s') && Answer(s0, s', t, id, session, allocOk, now)
  {
    var k, s1 := WritePhase(s, t, allocOk, now, id, session);
    assert s1 == At(s0, t, Absent(id, session)).(writer := Some(t));
    LeadsInv(s, t, allocOk, now, k, s1);
    n, s' := AbsentPhase(s0, s1, t, allocOk, now, id, session);
    LeadsOn(s, t, allocOk, now, k, s1, n, s');
    n := k + n;
  }

  lemma AllLinked(s: Sys)
    requires Inv(s) && Quiet(s)
    ensures s.linked == |s.nodes|
  {
  }

  lemma {:induction false} AfterRead(s0: Sys, s: Sys, t: nat, allocOk: bool, now: int, id: U32, session: U32, node: int)
    returns (n: nat, s': Sys)
    requires Quiet(s0) && t in s0.threads && Lookup(s0.nodes, |s0.nodes|, id, node) && s0.linked == |s0.nodes|
    requires s == At(s0, t, ReadDone(id, session, node)).(readers := {t}) && Inv(s)
    ensures Leads(s, t, allocOk, now, n, s') && Answer(s0, s', t, id, session, allocOk, now)
  {
    if node != NULL {
      n := 1;
      s' := FoundPhase(s0, s, t, allocOk, now, id, session, node);
    } else {
      n, s' := MissingPhase(s0, s, t, allocOk, now, id, session);
    }
  }

  lemma {:induction false} CalledPhase(s0: Sys, s: Sys, t: nat, allocOk: bool, now: int, id: U32, session: U32)
    returns (n: nat, s': Sys)
    requires Quiet(s0) && t in s0.threads && s == At(s0, t, Called(id, session)) && Inv(s)
    ensures Leads(s, t, allocOk, now, n, s') && Answer(s0, s', t, id, session, allocOk, now)
  {
    var node, s1, m;
    n, node, s1 := ReadPhase(s, t, allocOk, now, id, session);
    AllLinked(s);
    LeadsInv(s, t, allocOk, now, n, s1);
    m, s' := AfterRead(s0, s1, t, allocOk, now, id, session, node);
    LeadsOn(s, t, allocOk, now, n, s1, m, s');
    n := n + m;
  }

  /** One thread that runs through a whole call while nobody holds the lock does what the call promises:
      a known id gets its node and changes nothing, a new id gets a new node, and only a failed
      allocation gives nothing. */
  lemma {:induction false} CallAlone(s: Sys, t: nat, id: U32, session: U32, allocOk: bool, now: int)
    returns (n: nat, s': Sys)
    requires Inv(s) && Quiet(s) && t in s.threads && (s.threads[t].Idle? || s.threads[t].Ready?)
    ensures Exec(s, [Call(t, id, session)] + Gos(t, allocOk, now, n)) == Reached(s')
    ensures Answer(s, s', t, id, session, allocOk, now)
  {
    var call := [Call(t, id, session)];
    StepKeepsInv(s, call[0]);
    var s1 := Step(s, call[0]);
    assert call[1..] == [] && Exec(s, call) == Reached(s1);
    n, s' := CalledPhase(s, s1, t, allocOk, now, id, session);
    ExecOn(s, call, Gos(t, allocOk, now, n));
  }
}
