/** What every run of the connection worker keeps, stated through a monitor that reads nothing but
    the trace of externally visible acts. */
module WorkerRuns {
  import opened Bytes
  import opened Options
  import opened Wire
  import opened NetUtil
  import opened Frame
  import opened Worker

  /** What the monitor has seen: faults since the last accepted packet, bad-packet counts and the
      faults after HELLO that should have caused them, records and ACKs in order, ok counts, and
      whether anything was taken from the device before a delivered HELLO_ACK. */
  datatype Tally = Tally(faults: nat, bad: nat, lateFaults: nat, records: seq<Record>, acks: seq<U32>,
                         oks: nat, hello: bool, greeted: bool, orderly: bool)

  const NOTHING := Tally(0, 0, 0, [], [], 0, false, false, true)

  function Observe(a: Tally, e: Effect): Tally {
    match e
    case SentError(_, code) =>
      if code == ERR_NO_HELLO then a
      else a.(faults := a.faults + 1, lateFaults := a.lateFaults + if a.hello then 1 else 0)
    case CountedBad => a.(bad := a.bad + 1)
    case SentHelloAck(_, _, delivered) =>
      if delivered then a.(hello := true, greeted := true, faults := 0) else a.(hello := true)
    case CountedOk => a.(oks := a.oks + 1, orderly := a.orderly && a.greeted)
    case Stored(record) => a.(records := a.records + [record], faults := 0, orderly := a.orderly && a.greeted)
    case SentAck(_, sequence) => a.(acks := a.acks + [sequence], orderly := a.orderly && a.greeted)
    case TookChunk(_) => a.(faults := 0, orderly := a.orderly && a.greeted)
  }

  function Account(t: seq<Effect>): Tally {
    if t == [] then NOTHING else Observe(Account(t[..|t| - 1]), t[|t| - 1])
  }

  lemma {:induction false} AccountOne(t: seq<Effect>, e: Effect)
    ensures Account(t + [e]) == Observe(Account(t), e)
  {
    assert (t + [e])[..|t|] == t;
  }

  lemma {:induction false} AccountTwo(t: seq<Effect>, e: Effect, f: Effect)
    ensures Account(t + [e, f]) == Observe(Observe(Account(t), e), f)
  {
    AccountOne(t, e);
    AccountOne(t + [e], f);
    assert t + [e] + [f] == t + [e, f];
  }

  /** In an orderly trace nothing is counted, stored, acknowledged or reassembled before a
      HELLO_ACK has been delivered. */
  lemma {:induction false} OrderlyTrace(t: seq<Effect>, k: nat)
    requires Account(t).orderly && k < |t|
    requires t[k].CountedOk? || t[k].Stored? || t[k].SentAck? || t[k].TookChunk?
    ensures exists j :: 0 <= j < k && t[j].SentHelloAck? && t[j].delivered
  {
    var s := t[..|t| - 1];
    if k < |s| {
      OrderlyTrace(s, k);
      var j :| 0 <= j < k && s[j].SentHelloAck? && s[j].delivered;
      assert t[j] == s[j];
    } else {
      var j := GreetedAt(s);
      assert t[j] == s[j];
    }
  }

  lemma {:induction false} GreetedAt(t: seq<Effect>) returns (j: nat)
    requires Account(t).greeted
    ensures j < |t| && t[j].SentHelloAck? && t[j].delivered
  {
    var last := |t| - 1;
    if t[last].SentHelloAck? && t[last].delivered {
      return last;
    }
    j := GreetedAt(t[..last]);
  }

  // ---- the moves a worker can make --------------------------------------------------

  datatype Move =
    | Quiet
    | Fault(deviceId: U32, code: U16)
    | Greet(deviceId: U32, session: U32, delivered: bool)
    | Sense(deviceId: U32, record: Record)
    | Chunked(result: Result)
    | Refuse(deviceId: U32)

  /** The control state after a move, ignoring buffers and idle ticks. */
  ghost predicate Moves(w: Conn, w': Conn, m: Move) {
    match m
    case Quiet => w' == w.(open := w'.open, idleTicks := w'.idleTicks, payload := w'.payload)
    case Fault(d, c) =>
      && c != ERR_NO_HELLO
      && w'.trace == w.trace + [SentError(d, c)] + (if w.device.Some? then [CountedBad] else [])
      && w'.strikes == w.strikes + 1 && w'.device == w.device && w'.sensorCount == w.sensorCount
      && (w'.strikes < MAX_STRIKES ==> w'.phase == w.phase)
      && (w'.strikes >= MAX_STRIKES ==> !Looping(w') && (w'.phase == w.phase || w.phase == Active))
    case Greet(d, s, delivered) =>
      && w.phase == WaitHello && w'.device == Some(d) && w'.sensorCount == w.sensorCount
      && w'.trace == w.trace + [SentHelloAck(d, s, delivered)]
      && (if delivered then w'.phase == Active && w'.strikes == 0
          else w'.phase == WaitHello && w'.strikes == w.strikes && !w'.open)
    case Sense(d, rec) =>
      && w.phase == w'.phase == Active && w'.strikes == 0 && w'.device == w.device
      && w'.sensorCount == Next32(w.sensorCount)
      && w'.trace == w.trace + [CountedOk, Stored(rec)]
                     + (if w'.sensorCount % ACK_EVERY == 0 then [SentAck(d, rec.sequence)] else [])
    case Chunked(result) =>
      && w.phase == w'.phase == Active && w'.strikes == 0 && w'.device == w.device
      && w'.sensorCount == w.sensorCount && w'.trace == w.trace + [TookChunk(result)]
    case Refuse(d) =>
      && w.phase == WaitHello && !w'.open
      && w' == w.(open := false, idleTicks := w'.idleTicks, payload := w'.payload, trace := w'.trace)
      && w'.trace == w.trace + [SentError(d, ERR_NO_HELLO)]
  }

  lemma DispatchMoves(w: Conn, h: Header, env: Env) returns (m: Move)
    requires Ok(w) && Looping(w) && h.payloadLen <= MAX_PAYLOAD
    ensures Moves(w, Dispatch(w, h, env), m)
  {
    var w' := Dispatch(w, h, env);
    if w.phase == WaitHello {
      m := if h.kind != PKT_HELLO then Refuse(h.deviceId) else Greet(h.deviceId, env.session, env.ackSent);
    } else if h.kind == PKT_SENSOR {
      m := Sense(h.deviceId, RecordOf(w, h, env.now));
      SensorTrace(w, h, env);
    } else if h.kind == PKT_FRAME {
      var result := Feed(w.frames, Input(w.payload[..h.payloadLen], env.bufferOk, env.imageOk)).1;
      m := if result.Rejected? then Fault(h.deviceId, ERR_TOO_BIG) else Chunked(result);
      FaultTrace(w, h.deviceId, ERR_TOO_BIG);
    } else if h.kind == PKT_HELLO {
      m := Quiet;
    } else {
      m := Fault(h.deviceId, ERR_BAD_TYPE);
      FaultTrace(w, h.deviceId, ERR_BAD_TYPE);
    }
  }

  lemma FaultTrace(w: Conn, d: U32, c: U16)
    ensures Struck(w, d, c).trace == w.trace + [SentError(d, c)] + if w.device.Some? then [CountedBad] else []
  {
  }

  lemma SensorTrace(w: Conn, h: Header, env: Env)
    requires |w.payload| == MAX_PAYLOAD
    ensures var rec := RecordOf(w, h, env.now);
            OnSensor(w, h, env).trace
            == w.trace + [CountedOk, Stored(rec)]
               + if Next32(w.sensorCount) % ACK_EVERY == 0 then [SentAck(h.deviceId, rec.sequence)] else []
  {
  }

  lemma StepMoves(w: Conn, marks: seq<Mark>, env: Env) returns (m: Move)
    requires Ok(w) && Looping(w)
    ensures Moves(w, Step(w, marks, env).0, m)
  {
    var (r, rest) := Pull(marks, HDR_SIZE);
    if r.status != Done || |r.bytes| != HDR_SIZE {
      return Quiet;
    }
    var h := ReadHeader(r.bytes);
    m := HeaderMoves(w.(idleTicks := 0), h, rest, env);
  }

  lemma HeaderMoves(w: Conn, h: Header, marks: seq<Mark>, env: Env) returns (m: Move)
    requires Ok(w) && Looping(w)
    ensures Moves(w, OnHeader(w, h, marks, env).0, m)
  {
    if h.magic != MAGIC {
      FaultTrace(w, h.deviceId, ERR_BAD_MAGIC);
      return Fault(h.deviceId, ERR_BAD_MAGIC);
    }
    if h.version != VERSION {
      FaultTrace(w, h.deviceId, ERR_BAD_VERSION);
      return Fault(h.deviceId, ERR_BAD_VERSION);
    }
    if h.payloadLen > MAX_PAYLOAD {
      FaultTrace(w, h.deviceId, ERR_TOO_BIG);
      return Fault(h.deviceId, ERR_TOO_BIG);
    }
    var (r, rest) := Pull(marks, h.payloadLen);
    if r.status != Done || |r.bytes| != h.payloadLen {
      return Quiet;
    }
    m := CheckedMoves(WithPayload(w, r.bytes), h, env);
  }

  lemma CheckedMoves(w: Conn, h: Header, env: Env) returns (m: Move)
    requires Ok(w) && Looping(w) && h.payloadLen <= MAX_PAYLOAD
    ensures Moves(w, Checked(w, h, env), m)
  {
    if Checksum.Sum16(w.payload[..h.payloadLen]) != h.checksum {
      FaultTrace(w, h.deviceId, ERR_BAD_CHECKSUM);
      return Fault(h.deviceId, ERR_BAD_CHECKSUM);
    }
    m := DispatchMoves(w, h, env);
  }

  // ---- the invariant ----------------------------------------------------------------

  /** The k-th ACK carries the sequence number of the 8k-th record, and there is one for every
      eight records. */
  ghost predicate Cadence(records: seq<Record>, acks: seq<U32>) {
    && |acks| == |records| / 8
    && forall k :: 0 <= k < |acks| ==> acks[k] == records[8 * k + 7].sequence
  }

  ghost predicate Inv(w: Conn) {
    var a := Account(w.trace);
    && w.strikes == a.faults <= MAX_STRIKES
    && (Looping(w) ==> w.strikes < MAX_STRIKES)
    && a.bad == a.lateFaults
    && a.hello == w.device.Some?
    && (w.phase == WaitHello && w.open ==> !a.hello)
    && (w.phase != WaitHello ==> a.hello && a.greeted)
    && a.orderly
    && a.oks == |a.records|
    && w.sensorCount == Low32(|a.records|)
    && Cadence(a.records, a.acks)
  }

  /** The 32-bit packet counter wraps, but 8 divides 2^32. */
  lemma CounterModEight(n: nat, count: U32)
    requires count == Low32(n)
    ensures Next32(count) == Low32(n + 1)
    ensures Next32(count) % 8 == 0 <==> (n + 1) % 8 == 0
  {
    Counts32(n);
    var q := (n + 1) / 0x1_0000_0000;
    assert n + 1 == q * 0x2000_0000 * 8 + (n + 1) % 0x1_0000_0000;
  }

  lemma CadenceStep(records: seq<Record>, acks: seq<U32>, rec: Record)
    requires Cadence(records, acks)
    ensures (|records| + 1) % 8 == 0 ==> Cadence(records + [rec], acks + [rec.sequence])
    ensures (|records| + 1) % 8 != 0 ==> Cadence(records + [rec], acks)
  {
  }

  lemma SenseKeepsInv(w: Conn, w': Conn, d: U32, rec: Record)
    requires Looping(w) && Inv(w) && Moves(w, w', Sense(d, rec))
    ensures Inv(w')
  {
    var a := Account(w.trace);
    AccountTwo(w.trace, CountedOk, Stored(rec));
    CounterModEight(|a.records|, w.sensorCount);
    CadenceStep(a.records, a.acks, rec);
    if w'.sensorCount % ACK_EVERY == 0 {
      AccountOne(w.trace + [CountedOk, Stored(rec)], SentAck(d, rec.sequence));
    } else {
      assert w'.trace == w.trace + [CountedOk, Stored(rec)];
    }
  }

  lemma FaultKeepsInv(w: Conn, w': Conn, d: U32, c: U16)
    requires Looping(w) && Inv(w) && Moves(w, w', Fault(d, c))
    ensures Inv(w')
  {
    AccountOne(w.trace, SentError(d, c));
    if w.device.Some? {
      AccountOne(w.trace + [SentError(d, c)], CountedBad);
    } else {
      assert w'.trace == w.trace + [SentError(d, c)];
    }
  }

  lemma QuietKeepsInv(w: Conn, w': Conn)
    requires Looping(w) && Inv(w) && Moves(w, w', Quiet)
    ensures Inv(w')
  {
  }

  lemma RefuseKeepsInv(w: Conn, w': Conn, d: U32)
    requires Looping(w) && Inv(w) && Moves(w, w', Refuse(d))
    ensures Inv(w')
  {
    AccountOne(w.trace, SentError(d, ERR_NO_HELLO));
  }

  lemma GreetKeepsInv(w: Conn, w': Conn, m: Move)
    requires Looping(w) && Inv(w) && m.Greet? && Moves(w, w', m)
    ensures Inv(w')
  {
    AccountOne(w.trace, SentHelloAck(m.deviceId, m.session, m.delivered));
  }

  lemma ChunkKeepsInv(w: Conn, w': Conn, result: Result)
    requires Looping(w) && Inv(w) && Moves(w, w', Chunked(result))
    ensures Inv(w')
  {
    AccountOne(w.trace, TookChunk(result));
  }

  lemma StepKeepsInv(w: Conn, marks: seq<Mark>, env: Env)
    requires Ok(w) && Looping(w) && Inv(w)
    ensures Inv(Step(w, marks, env).0)
  {
    var m := StepMoves(w, marks, env);
    var w' := Step(w, marks, env).0;
    match m
    case Sense(d, rec) => SenseKeepsInv(w, w', d, rec);
    case Fault(d, c) => FaultKeepsInv(w, w', d, c);
    case Quiet => QuietKeepsInv(w, w');
    case Refuse(d) => RefuseKeepsInv(w, w', d);
    case Greet(_, _, _) => GreetKeepsInv(w, w', m);
    case Chunked(result) => ChunkKeepsInv(w, w', result);
  }

  /** The invariant holds at the head of every turn of every run, on any stream and in any
      environment. */
  lemma {:induction false} RunKeepsInv(w: Conn, marks: seq<Mark>, envs: seq<Env>)
    requires Ok(w) && Inv(w)
    ensures Inv(Run(w, marks, envs).0)
    decreases |envs|
  {
    if envs != [] && Looping(w) {
      StepKeepsInv(w, marks, envs[0]);
      var (w', rest) := Step(w, marks, envs[0]);
      RunKeepsInv(w', rest, envs[1..]);
    }
  }

  /** For every connection, from the first byte on: strikes are the faults since the last accepted
      packet and stay below three while the loop turns, every fault after HELLO is counted once on
      the device, nothing is taken before HELLO_ACK, and ACKs keep their cadence however often the
      packet counter wraps. */
  lemma {:induction false} EveryRun(payload: seq<U8>, marks: seq<Mark>, envs: seq<Env>)
    requires |payload| == MAX_PAYLOAD
    ensures Inv(Run(Initial(payload), marks, envs).0)
  {
    RunKeepsInv(Initial(payload), marks, envs);
  }
}
