/** The per-connection worker of server/client_handler.c as a transition function: one step is one
    turn of its loop, over the stream of marks left on the socket. Every externally visible act
    is appended to a trace in program order. */
module Worker {
  import opened Bytes
  import opened Options
  import opened Checksum
  import opened Wire
  import opened Telemetry
  import opened NetUtil
  import opened Frame

  const MAX_STRIKES := 3
  const ACK_EVERY := 8
  const WORKER_TICK_S := 2
  const DEAD_PEER_S := 30

  const ERR_BAD_MAGIC: U16 := 1
  const ERR_BAD_VERSION: U16 := 2
  const ERR_BAD_CHECKSUM: U16 := 3
  const ERR_BAD_TYPE: U16 := 4
  const ERR_TOO_BIG: U16 := 5
  const ERR_NO_HELLO: U16 := 6

  datatype Record = Record(deviceId: U32, sequence: U32, temperature: I32, humidity: I32, stamp: U64)

  datatype Effect =
    | SentError(deviceId: U32, code: U16)
    | CountedBad                                           // packets_bad of the HELLO's device
    | SentHelloAck(deviceId: U32, session: U32, delivered: bool)
    | CountedOk                                            // packets_ok of the HELLO's device
    | Stored(record: Record)                               // sink write_record
    | SentAck(deviceId: U32, sequence: U32)
    | TookChunk(result: Result)                            // frame_asm_feed returned 0 or 1

  datatype Phase = WaitHello | Active | Closing

  /** `open` is cleared by a `break`; `device` is the id of the table entry, once there is one. */
  datatype Conn = Conn(
    open: bool, phase: Phase, device: Option<U32>, strikes: nat, idleTicks: nat,
    sensorCount: U32, payload: seq<U8>, frames: Frame.State, trace: seq<Effect>)

  /** What one turn of the loop takes from outside: the session number drawn, whether HELLO_ACK
      could be sent, the time, and whether the reassembler's allocations succeed. */
  datatype Env = Env(session: U32, ackSent: bool, now: U64, bufferOk: bool, imageOk: bool)

  ghost predicate Ok(w: Conn) {
    |w.payload| == MAX_PAYLOAD && Consistent(w.frames)
  }

  predicate Looping(w: Conn) {
    w.open && w.phase != Closing
  }

  /** At the head of the loop, before anything was received. The payload buffer is uninitialised. */
  function Initial(payload: seq<U8>): Conn {
    Conn(true, WaitHello, None, 0, 0, 0, payload, Idle, [])
  }

  function Emit(w: Conn, effects: seq<Effect>): Conn {
    w.(trace := w.trace + effects)
  }

  function Broken(w: Conn): Conn {
    w.(open := false)
  }

  /** An error reply, the bad-packet counter of a known device, and a strike. */
  function Struck(w: Conn, deviceId: U32, code: U16): Conn {
    Emit(w, [SentError(deviceId, code)] + if w.device.Some? then [CountedBad] else [])
      .(strikes := w.strikes + 1)
  }

  /** A fault in framing or checksum: the third strike breaks out of the loop. */
  function FramingFault(w: Conn, deviceId: U32, code: U16): Conn {
    var w' := Struck(w, deviceId, code);
    if w'.strikes >= MAX_STRIKES then Broken(w') else w'
  }

  /** A fault found while dispatching: the third strike closes the state machine. */
  function DispatchFault(w: Conn, deviceId: U32, code: U16): Conn {
    var w' := Struck(w, deviceId, code);
    if w'.strikes >= MAX_STRIKES then w'.(phase := Closing) else w'
  }

  // ---- one packet -------------------------------------------------------------------

  function OnHello(w: Conn, h: Header, env: Env): Conn {
    var w' := Emit(w, [SentHelloAck(h.deviceId, env.session, env.ackSent)]).(device := Some(h.deviceId));
    if env.ackSent then w'.(phase := Active, strikes := 0) else Broken(w')
  }

  /** The record is built from the first sixteen bytes of the payload buffer, whatever the
      announced length. */
  function RecordOf(w: Conn, h: Header, now: U64): Record
    requires |w.payload| == MAX_PAYLOAD
  {
    var r := ReadSensor(w.payload);
    Record(h.deviceId, r.sequence, r.temperature, r.humidity, now)
  }

  function OnSensor(w: Conn, h: Header, env: Env): Conn
    requires |w.payload| == MAX_PAYLOAD
  {
    var rec := RecordOf(w, h, env.now);
    var count := Next32(w.sensorCount);
    var ack := if count % ACK_EVERY == 0 then [SentAck(h.deviceId, rec.sequence)] else [];
    Emit(w, [CountedOk, Stored(rec)] + ack).(sensorCount := count, strikes := 0)
  }

  function OnFrame(w: Conn, h: Header, env: Env): Conn
    requires Ok(w) && h.payloadLen <= MAX_PAYLOAD
  {
    var (frames, result) := Feed(w.frames, Input(w.payload[..h.payloadLen], env.bufferOk, env.imageOk));
    var w' := w.(frames := frames);
    if result.Rejected? then DispatchFault(w', h.deviceId, ERR_TOO_BIG)
    else Emit(w', [TookChunk(result)]).(strikes := 0)
  }

  /** A packet that passed framing and checksum. */
  function Dispatch(w: Conn, h: Header, env: Env): (w': Conn)
    requires Ok(w) && Looping(w) && h.payloadLen <= MAX_PAYLOAD
    ensures Ok(w')
  {
    if w.phase == WaitHello then
      if h.kind != PKT_HELLO then Broken(Emit(w, [SentError(h.deviceId, ERR_NO_HELLO)]))
      else OnHello(w, h, env)
    else if h.kind == PKT_SENSOR then OnSensor(w, h, env)
    else if h.kind == PKT_FRAME then OnFrame(w, h, env)
    else if h.kind == PKT_HELLO then w
    else DispatchFault(w, h.deviceId, ERR_BAD_TYPE)
  }

  // ---- one turn of the loop ---------------------------------------------------------

  function OnTick(w: Conn): Conn {
    var w' := w.(idleTicks := w.idleTicks + 1);
    if w'.idleTicks * WORKER_TICK_S >= DEAD_PEER_S then Broken(w') else w'
  }

  function Checked(w: Conn, h: Header, env: Env): (w': Conn)
    requires Ok(w) && Looping(w) && h.payloadLen <= MAX_PAYLOAD
    ensures Ok(w')
  {
    if Sum16(w.payload[..h.payloadLen]) != h.checksum then FramingFault(w, h.deviceId, ERR_BAD_CHECKSUM)
    else Dispatch(w, h, env)
  }

  function WithPayload(w: Conn, bytes: seq<U8>): (w': Conn)
    requires |bytes| <= |w.payload|
  {
    w.(payload := Spliced(w.payload, 0, bytes))
  }

  function OnHeader(w: Conn, h: Header, marks: seq<Mark>, env: Env): (out: (Conn, seq<Mark>))
    requires Ok(w) && Looping(w)
    ensures Ok(out.0)
  {
    if h.magic != MAGIC then (FramingFault(w, h.deviceId, ERR_BAD_MAGIC), marks)
    else if h.version != VERSION then (FramingFault(w, h.deviceId, ERR_BAD_VERSION), marks)
    else if h.payloadLen > MAX_PAYLOAD then (FramingFault(w, h.deviceId, ERR_TOO_BIG), marks)
    else
      var (r, rest) := Pull(marks, h.payloadLen);
      var w' := WithPayload(w, r.bytes);
      if r.status == Done && |r.bytes| == h.payloadLen then (Checked(w', h, env), rest)
      else (Broken(w'), rest)
  }

  function Step(w: Conn, marks: seq<Mark>, env: Env): (out: (Conn, seq<Mark>))
    requires Ok(w) && Looping(w)
    ensures Ok(out.0)
  {
    var (r, rest) := Pull(marks, HDR_SIZE);
    if r.status == TimedOut then (OnTick(w), rest)
    else if r.status == Failed || |r.bytes| != HDR_SIZE then (Broken(w), rest)
    else OnHeader(w.(idleTicks := 0), ReadHeader(r.bytes), rest, env)
  }

  /** The loop: it turns until the worker leaves it or the server stops, which is when `envs`
      ends. */
  function Run(w: Conn, marks: seq<Mark>, envs: seq<Env>): (out: (Conn, seq<Mark>))
    requires Ok(w)
    ensures Ok(out.0)
    decreases |envs|
  {
    if envs == [] || !Looping(w) then (w, marks) else
    var (w', rest) := Step(w, marks, envs[0]);
    Run(w', rest, envs[1..])
  }
}
