/** What each kind of packet does to a connection, told from the bytes on the stream to the acts they
    cause: server/client_handler.c case by case. */
module WorkerCases {
  import opened Bytes
  import opened Options
  import opened Checksum
  import opened Burst
  import opened Wire
  import opened Telemetry
  import opened NetUtil
  import opened Frame
  import opened FrameHistory
  import opened Worker
  import opened WorkerRuns
  import opened WorkerFraming

  // ---- faulty packets ---------------------------------------------------------------

  /** The packet is answered with this error, counted bad for a known device and punished with one
      strike, and nothing else happens. */
  ghost predicate Punished(w: Conn, w': Conn, d: U32, code: U16) {
    && w'.trace == w.trace + [SentError(d, code)] + (if w.device.Some? then [CountedBad] else [])
    && w'.strikes == w.strikes + 1
    && w'.device == w.device && w'.sensorCount == w.sensorCount && w'.idleTicks == 0
  }

  /** A fault in the framing: the third strike breaks the loop. */
  ghost predicate FramingPunished(w: Conn, w': Conn, d: U32, code: U16) {
    && Punished(w, w', d, code) && w'.frames == w.frames && w'.phase == w.phase
    && (w'.open <==> w.strikes < 2)
  }

  /** A fault in the content: the third strike ends the connection's active phase. */
  ghost predicate ContentPunished(w: Conn, w': Conn, d: U32, code: U16) {
    Punished(w, w', d, code) && w'.open && w'.phase == if w.strikes < 2 then Active else Closing
  }

  /** Which error a header deserves by itself, if any. */
  function HeaderError(h: Header): Option<U16> {
    if h.magic != MAGIC then Some(ERR_BAD_MAGIC)
    else if h.version != VERSION then Some(ERR_BAD_VERSION)
    else if h.payloadLen > MAX_PAYLOAD then Some(ERR_TOO_BIG)
    else None
  }

  lemma {:induction false} HeaderRead(w: Conn, h: Header, rest: seq<Mark>, env: Env)
    requires Ok(w) && Looping(w)
    ensures Step(w, Marked(HeaderBytes(h)) + rest, env) == OnHeader(w.(idleTicks := 0), h, rest, env)
  {
    PullExact(HeaderBytes(h), rest);
    HeaderRoundTrip(h, HeaderBytes(h));
  }

  /** A header with the wrong magic, version or length is punished; what follows it stays on the
      stream. */
  lemma {:induction false} BadHeaderPunished(w: Conn, h: Header, rest: seq<Mark>, env: Env)
    requires Ok(w) && Looping(w) && HeaderError(h).Some?
    ensures var (w', left) := Step(w, Marked(HeaderBytes(h)) + rest, env);
            FramingPunished(w, w', h.deviceId, HeaderError(h).value) && w'.payload == w.payload && left == rest
  {
    HeaderRead(w, h, rest, env);
    HeaderPunished(w.(idleTicks := 0), h, rest, env);
  }

  lemma HeaderPunished(w: Conn, h: Header, rest: seq<Mark>, env: Env)
    requires Ok(w) && Looping(w) && w.idleTicks == 0 && HeaderError(h).Some?
    ensures var (w', left) := OnHeader(w, h, rest, env);
            FramingPunished(w, w', h.deviceId, HeaderError(h).value) && w'.payload == w.payload && left == rest
  {
    FaultTrace(w, h.deviceId, HeaderError(h).value);
  }

  /** A packet whose checksum field is not the checksum of its payload is punished. */
  lemma {:induction false} BadChecksumPunished(w: Conn, h: Header, payload: seq<U8>, rest: seq<Mark>, env: Env)
    requires Ok(w) && Looping(w) && HeaderError(h).None? && h.payloadLen == |payload| && h.checksum != Sum16(payload)
    ensures var (w', left) := Step(w, Marked(HeaderBytes(h) + payload) + rest, env);
            FramingPunished(w, w', h.deviceId, ERR_BAD_CHECKSUM) && left == rest
  {
    var after := Marked(payload) + rest;
    assert Marked(HeaderBytes(h) + payload) + rest == Marked(HeaderBytes(h)) + after;
    PullExact(HeaderBytes(h), after);
    HeaderRoundTrip(h, HeaderBytes(h));
    PayloadMismatch(w.(idleTicks := 0), h, payload, rest, env);
  }

  lemma {:induction false} PayloadMismatch(w: Conn, h: Header, payload: seq<U8>, rest: seq<Mark>, env: Env)
    requires Ok(w) && Looping(w) && w.idleTicks == 0
    requires HeaderError(h).None? && h.payloadLen == |payload| && h.checksum != Sum16(payload)
    ensures var (w', left) := OnHeader(w, h, Marked(payload) + rest, env);
            FramingPunished(w, w', h.deviceId, ERR_BAD_CHECKSUM) && left == rest
  {
    PullExact(payload, rest);
    assert WithPayload(w, payload).payload[..|payload|] == payload;
    SumMismatch(WithPayload(w, payload), h, env);
  }

  lemma SumMismatch(w: Conn, h: Header, env: Env)
    requires Ok(w) && Looping(w) && w.idleTicks == 0 && h.payloadLen <= MAX_PAYLOAD
    requires h.checksum != Sum16(w.payload[..h.payloadLen])
    ensures FramingPunished(w, Checked(w, h, env), h.deviceId, ERR_BAD_CHECKSUM)
  {
    FaultTrace(w, h.deviceId, ERR_BAD_CHECKSUM);
  }

  /** A built packet whose payload is corrupted within 15 consecutive bits on the way is always punished
      for its checksum: whatever the corruption looks like, no record is stored and no chunk taken. */
  lemma {:induction false} CorruptionPunished(w: Conn, kind: U8, d: U32, payload: seq<U8>, corrupted: seq<U8>,
                                              p: nat, n: nat, rest: seq<Mark>, env: Env)
    requires Ok(w) && Looping(w) && |payload| <= MAX_PAYLOAD && corrupted != payload
    requires n <= 15 && Confined(Bits(payload), Bits(corrupted), p, n)
    ensures var h := PacketHeader(kind, d, payload);
            var (w', left) := Step(w, Marked(HeaderBytes(h) + corrupted) + rest, env);
            FramingPunished(w, w', d, ERR_BAD_CHECKSUM) && left == rest
  {
    BurstDetected(payload, corrupted, p, n);
    BadChecksumPunished(w, PacketHeader(kind, d, payload), corrupted, rest, env);
  }

  // ---- built packets ----------------------------------------------------------------

  /** Anything but HELLO ends a connection that has not said HELLO. */
  lemma {:induction false} FirstMustBeHello(w: Conn, kind: U8, d: U32, payload: seq<U8>, rest: seq<Mark>, env: Env)
    requires Ok(w) && w.open && w.phase == WaitHello && |payload| <= MAX_PAYLOAD && kind != PKT_HELLO
    ensures var (w', left) := Step(w, Marked(Packet(kind, d, payload)) + rest, env);
            && !w'.open && w'.trace == w.trace + [SentError(d, ERR_NO_HELLO)] && left == rest
            && w'.strikes == w.strikes && w'.device == w.device && w'.frames == w.frames
  {
    StepOnPacket(w, kind, d, payload, rest, env);
  }

  /** HELLO is answered with the session number; a delivered answer makes the connection active and
      forgets its strikes, an undelivered one ends it. */
  lemma {:induction false} HelloGreeted(w: Conn, d: U32, payload: seq<U8>, rest: seq<Mark>, env: Env)
    requires Ok(w) && w.open && w.phase == WaitHello && |payload| <= MAX_PAYLOAD
    ensures var (w', left) := Step(w, Marked(Packet(PKT_HELLO, d, payload)) + rest, env);
            && w'.trace == w.trace + [SentHelloAck(d, env.session, env.ackSent)] && left == rest
            && w'.device == Some(d) && (w'.open <==> env.ackSent)
            && (env.ackSent ==> w'.phase == Active && w'.strikes == 0)
            && w'.frames == w.frames && w'.sensorCount == w.sensorCount
  {
    StepOnPacket(w, PKT_HELLO, d, payload, rest, env);
  }

  /** A SENSOR packet on an active connection is counted and stored, whatever its payload, and every
      eighth is acknowledged. */
  lemma {:induction false} SensorStored(w: Conn, d: U32, payload: seq<U8>, rest: seq<Mark>, env: Env)
    returns (r: Record)
    requires Ok(w) && w.open && w.phase == Active && |payload| <= MAX_PAYLOAD
    ensures r.deviceId == d && r.stamp == env.now
    ensures var (w', left) := Step(w, Marked(Packet(PKT_SENSOR, d, payload)) + rest, env);
            && w'.trace == w.trace + [CountedOk, Stored(r)]
                         + (if Next32(w.sensorCount) % 8 == 0 then [SentAck(d, r.sequence)] else [])
            && w'.open && w'.phase == Active && w'.strikes == 0 && w'.sensorCount == Next32(w.sensorCount)
            && w'.device == w.device && w'.frames == w.frames && left == rest
    ensures |payload| >= 16 ==>
              var reading := ReadSensor(payload);
              r.sequence == reading.sequence && r.temperature == reading.temperature && r.humidity == reading.humidity
  {
    StepOnPacket(w, PKT_SENSOR, d, payload, rest, env);
    var w1, h := WithPayload(w.(idleTicks := 0), payload), PacketHeader(PKT_SENSOR, d, payload);
    r := RecordOf(w1, h, env.now);
    SensorHandled(w1, h, env);
    assert w1.payload[..|payload|] == payload;
    if |payload| >= 16 {
      SamePayload(w1.payload, payload);
    }
  }

  lemma SensorHandled(w: Conn, h: Header, env: Env)
    requires Ok(w) && w.open && w.phase == Active && h.kind == PKT_SENSOR && h.payloadLen <= MAX_PAYLOAD
    ensures var w', r := Dispatch(w, h, env), RecordOf(w, h, env.now);
            && w'.trace == w.trace + [CountedOk, Stored(r)]
                         + (if Next32(w.sensorCount) % 8 == 0 then [SentAck(h.deviceId, r.sequence)] else [])
            && w' == w.(strikes := 0, sensorCount := Next32(w.sensorCount), trace := w'.trace)
  {
    SensorTrace(w, h, env);
  }

  lemma SamePayload(buffer: seq<U8>, payload: seq<U8>)
    requires 16 <= |payload| <= |buffer| && buffer[..|payload|] == payload
    ensures ReadSensor(buffer) == ReadSensor(payload)
  {
    forall i | 0 <= i < 16 ensures buffer[i] == payload[i] {
      assert buffer[..|payload|][i] == buffer[i];
    }
  }

  /** What the firmware measured is what the server stores. */
  lemma {:induction false} MeasurementStored(w: Conn, d: U32, sequence: U32, timestamp: U32, temperature: I32,
                                             humidity: I32, rest: seq<Mark>, env: Env)
    requires Ok(w) && w.open && w.phase == Active
    ensures var payload := SensorPayload(sequence, timestamp, temperature, humidity);
            var (w', left) := Step(w, Marked(Packet(PKT_SENSOR, d, payload)) + rest, env);
            && w'.trace == w.trace + [CountedOk, Stored(Record(d, sequence, temperature, humidity, env.now))]
                         + (if Next32(w.sensorCount) % 8 == 0 then [SentAck(d, sequence)] else [])
            && left == rest
  {
    var payload := SensorPayload(sequence, timestamp, temperature, humidity);
    var r := SensorStored(w, d, payload, rest, env);
    SensorRoundTrip(sequence, timestamp, temperature, humidity, []);
    assert payload + [] == payload;
  }

  /** A FRAME packet that spells no chunk is punished and leaves the reassembler alone. */
  lemma {:induction false} MalformedFramePunished(w: Conn, d: U32, payload: seq<U8>, rest: seq<Mark>, env: Env)
    requires Ok(w) && w.open && w.phase == Active && |payload| <= MAX_PAYLOAD && forall c :: !Spells(payload, c)
    ensures var (w', left) := Step(w, Marked(Packet(PKT_FRAME, d, payload)) + rest, env);
            ContentPunished(w, w', d, ERR_TOO_BIG) && w'.frames == w.frames && left == rest
  {
    RefusedExactly(w.frames, Input(payload, env.bufferOk, env.imageOk));
    FrameDispatched(w, d, payload, rest, env);
  }

  /** A FRAME packet that spells a chunk is taken, and any strikes are forgotten, if allocations
      succeed. */
  lemma {:induction false} FrameAccepted(w: Conn, d: U32, payload: seq<U8>, c: Chunk, rest: seq<Mark>, env: Env)
    requires Ok(w) && w.open && w.phase == Active && |payload| <= MAX_PAYLOAD && Spells(payload, c)
    requires env.bufferOk && env.imageOk
    ensures var (w', left) := Step(w, Marked(Packet(PKT_FRAME, d, payload)) + rest, env);
            && left == rest && w'.open && w'.phase == Active && w'.strikes == 0
            && w'.device == w.device && w'.sensorCount == w.sensorCount
            && |w'.trace| == |w.trace| + 1 && w.trace <= w'.trace && w'.trace[|w.trace|].TookChunk?
            && (w'.trace[|w.trace|].result.Complete? <==> Finishes(w.frames, c))
  {
    var input := Input(payload, true, true);
    RefusedExactly(w.frames, input);
    DecodeExact(payload, c);
    FeedChunk(w.frames, input, c);
    AcceptCollected(w.frames, c, true, true);
    FinishesExactly(w.frames, c, Collected(w.frames, c));
    FrameDispatched(w, d, payload, rest, env);
  }

  lemma {:induction false} FrameDispatched(w: Conn, d: U32, payload: seq<U8>, rest: seq<Mark>, env: Env)
    requires Ok(w) && w.open && w.phase == Active && |payload| <= MAX_PAYLOAD
    ensures var (w', left) := Step(w, Marked(Packet(PKT_FRAME, d, payload)) + rest, env);
            var (frames, result) := Feed(w.frames, Input(payload, env.bufferOk, env.imageOk));
            && left == rest && w'.frames == frames
            && if result.Rejected? then ContentPunished(w, w', d, ERR_TOO_BIG)
               else && w'.trace == w.trace + [TookChunk(result)] && w'.open && w'.phase == Active && w'.strikes == 0
                    && w'.device == w.device && w'.sensorCount == w.sensorCount
  {
    StepOnPacket(w, PKT_FRAME, d, payload, rest, env);
    var w1, h := WithPayload(w.(idleTicks := 0), payload), PacketHeader(PKT_FRAME, d, payload);
    assert w1.payload[..|payload|] == payload;
    FrameHandled(w1, h, payload, env, Feed(w.frames, Input(payload, env.bufferOk, env.imageOk)));
  }

  lemma FrameHandled(w: Conn, h: Header, payload: seq<U8>, env: Env, fed: (Frame.State, Result))
    requires Ok(w) && w.open && w.phase == Active && w.idleTicks == 0 && h.payloadLen == |payload| <= MAX_PAYLOAD
    requires h.kind == PKT_FRAME && w.payload[..|payload|] == payload
    requires fed == Feed(w.frames, Input(payload, env.bufferOk, env.imageOk))
    ensures var w' := Dispatch(w, h, env);
            && w'.frames == fed.0
            && if fed.1.Rejected? then ContentPunished(w, w', h.deviceId, ERR_TOO_BIG)
               else && w'.trace == w.trace + [TookChunk(fed.1)] && w'.open && w'.phase == Active && w'.strikes == 0
                    && w'.device == w.device && w'.sensorCount == w.sensorCount
  {
    assert Dispatch(w, h, env) == OnFrame(w, h, env);
    FaultTrace(w, h.deviceId, ERR_TOO_BIG);
  }

  /** A second HELLO is ignored. */
  lemma {:induction false} SecondHelloIgnored(w: Conn, d: U32, payload: seq<U8>, rest: seq<Mark>, env: Env)
    requires Ok(w) && w.open && w.phase == Active && |payload| <= MAX_PAYLOAD
    ensures var (w', left) := Step(w, Marked(Packet(PKT_HELLO, d, payload)) + rest, env);
            w' == w.(idleTicks := 0, payload := w'.payload) && left == rest
  {
    StepOnPacket(w, PKT_HELLO, d, payload, rest, env);
  }

  /** Any other packet type is punished. */
  lemma {:induction false} OtherTypesPunished(w: Conn, kind: U8, d: U32, payload: seq<U8>, rest: seq<Mark>, env: Env)
    requires Ok(w) && w.open && w.phase == Active && |payload| <= MAX_PAYLOAD
    requires kind !in {PKT_HELLO, PKT_SENSOR, PKT_FRAME}
    ensures var (w', left) := Step(w, Marked(Packet(kind, d, payload)) + rest, env);
            ContentPunished(w, w', d, ERR_BAD_TYPE) && w'.frames == w.frames && left == rest
  {
    StepOnPacket(w, kind, d, payload, rest, env);
  }

  // ---- silence and the end of the stream --------------------------------------------

  function Ticks(k: nat): seq<Mark> {
    seq(k, _ => Tick)
  }

  /** A peer that is silent for fifteen receive timeouts of two seconds is dropped, and not before. */
  lemma {:induction false} SilenceReaped(w: Conn, k: nat, rest: seq<Mark>, envs: seq<Env>)
    requires Ok(w) && Looping(w) && |envs| == k && w.idleTicks + k <= 15
    ensures var (w', left) := Run(w, Ticks(k) + rest, envs);
            && left == rest && w' == w.(open := w'.open, idleTicks := w.idleTicks + k)
            && (w'.open <==> k == 0 || w.idleTicks + k < 15)
    decreases k
  {
    if k == 0 {
      assert Ticks(0) + rest == rest;
    } else {
      assert Ticks(k) + rest == [Tick] + (Ticks(k - 1) + rest);
      PullStops(Ticks(k - 1) + rest, HDR_SIZE);
      var w1 := OnTick(w);
      if Looping(w1) {
        SilenceReaped(w1, k - 1, rest, envs[1..]);
      } else {
        assert Ticks(0) + rest == rest;
      }
    }
  }

  /** A stream that ends or fails before a whole header ends the connection, with no reply. */
  lemma {:induction false} CutHeaderEnds(w: Conn, bytes: seq<U8>, rest: seq<Mark>, env: Env)
    requires Ok(w) && Looping(w) && |bytes| < HDR_SIZE
    ensures Step(w, Marked(bytes), env) == (w.(open := false), [])
    ensures Step(w, Marked(bytes) + [Fail] + rest, env) == (w.(open := false), rest)
  {
    PullShort(bytes, rest, HDR_SIZE);
  }

  /** So does one that ends, fails or times out inside a payload. */
  lemma {:induction false} CutPayloadEnds(w: Conn, h: Header, part: seq<U8>, stop: seq<Mark>, env: Env)
    requires Ok(w) && Looping(w) && HeaderError(h).None? && |part| < h.payloadLen
    requires stop == [] || (|stop| > 0 && !stop[0].Byte?)
    ensures var w' := Step(w, Marked(HeaderBytes(h) + part) + stop, env).0;
            w' == w.(open := false, idleTicks := 0, payload := w'.payload)
  {
    var after := Marked(part) + stop;
    assert Marked(HeaderBytes(h) + part) + stop == Marked(HeaderBytes(h)) + after;
    HeaderRead(w, h, after, env);
    PayloadCut(w.(idleTicks := 0), h, part, stop, env);
  }

  lemma {:induction false} PayloadCut(w: Conn, h: Header, part: seq<U8>, stop: seq<Mark>, env: Env)
    requires Ok(w) && Looping(w) && HeaderError(h).None? && |part| < h.payloadLen
    requires stop == [] || (|stop| > 0 && !stop[0].Byte?)
    ensures var w' := OnHeader(w, h, Marked(part) + stop, env).0;
            w' == w.(open := false, payload := w'.payload)
  {
    PartPulled(part, stop, h.payloadLen);
  }

  lemma {:induction false} PartPulled(part: seq<U8>, stop: seq<Mark>, n: nat)
    requires |part| < n && (stop == [] || (|stop| > 0 && !stop[0].Byte?))
    ensures var r := Pull(Marked(part) + stop, n).0;
            r.bytes == part && (r.status == Done ==> |r.bytes| != n)
  {
    PullBytes(part, stop, n);
    assert part + [] == part;
  }
}
