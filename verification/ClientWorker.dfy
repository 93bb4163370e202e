/** The connection worker of server/client_handler.c as the source has it: one loop over a socket,
    updating the protocol state, the payload buffer and the frame reassembler in place. */
module ClientWorker {
  import opened Bytes
  import opened Options
  import opened Checksum
  import opened Wire
  import opened Telemetry
  import opened NetUtil
  import opened Frame
  import opened FrameAssembler
  import opened Worker

  class Client {
    var open: bool
    var phase: Phase
    var device: Option<U32>
    var strikes: nat
    var idleTicks: nat
    var sensorCount: U32
    var trace: seq<Effect>
    const payload: array<U8>
    const fa: Assembler
    const sock: Socket

    constructor (sock: Socket)
      ensures Valid() && fresh(payload) && fresh(fa) && fa.buf == null && fa.seen == null && this.sock == sock
      ensures Abs() == Initial(payload[..])
    {
      open, phase, device, strikes, idleTicks, sensorCount, trace := true, WaitHello, None, 0, 0, 0, [];
      payload := new U8[MAX_PAYLOAD];
      fa := new Assembler();
      this.sock := sock;
    }

    ghost predicate Valid()
      reads this, fa, fa.buf, fa.seen
    {
      payload.Length == MAX_PAYLOAD && fa.Valid() && payload != fa.buf
    }

    ghost function Abs(): (w: Conn)
      requires Valid()
      reads this, payload, fa, fa.buf, fa.seen
      ensures Ok(w)
    {
      Conn(open, phase, device, strikes, idleTicks, sensorCount, payload[..], fa.Abs(), trace)
    }

    method Strike(deviceId: U32, code: U16)
      requires Valid()
      modifies `trace, `strikes
      ensures Valid() && Abs() == Struck(old(Abs()), deviceId, code)
    {
      trace := trace + [SentError(deviceId, code)];
      if device.Some? {
        trace := trace + [CountedBad];
      }
      strikes := strikes + 1;
      assert trace == old(trace) + ([SentError(deviceId, code)] + if device.Some? then [CountedBad] else []);
    }

    method FramingStrike(deviceId: U32, code: U16)
      requires Valid()
      modifies `trace, `strikes, `open
      ensures Valid() && Abs() == FramingFault(old(Abs()), deviceId, code)
    {
      Strike(deviceId, code);
      if strikes >= MAX_STRIKES {
        open := false;
      }
    }

    method DispatchStrike(deviceId: U32, code: U16)
      requires Valid()
      modifies `trace, `strikes, `phase
      ensures Valid() && Abs() == DispatchFault(old(Abs()), deviceId, code)
    {
      Strike(deviceId, code);
      if strikes >= MAX_STRIKES {
        phase := Closing;
      }
    }

    method TakeSensor(h: Header, env: Env)
      requires Valid()
      modifies `trace, `strikes, `sensorCount
      ensures Valid() && Abs() == OnSensor(old(Abs()), h, env)
    {
      var s := ReadSensor(payload[..]);
      var record := Record(h.deviceId, s.sequence, s.temperature, s.humidity, env.now);
      trace := trace + [CountedOk];
      trace := trace + [Stored(record)];
      sensorCount := Next32(sensorCount);
      if sensorCount % ACK_EVERY == 0 {
        trace := trace + [SentAck(h.deviceId, s.sequence)];
      }
      strikes := 0;
      assert trace == old(trace) + ([CountedOk, Stored(record)] +
                                    if sensorCount % ACK_EVERY == 0 then [SentAck(h.deviceId, s.sequence)] else []);
    }

    method FeedFrame(n: U16, env: Env) returns (r: int, image: Image)
      requires Valid() && n <= MAX_PAYLOAD
      modifies fa, fa.buf, fa.seen
      ensures Valid() && Owned(old(fa.buf), old(fa.seen)) && -1 <= r <= 1
      ensures var w := old(Abs());
              var out := Feed(w.frames, Input(w.payload[..n], env.bufferOk, env.imageOk));
              Abs() == w.(frames := out.0) && Outcome(r, image) == out.1
    {
      assert payload[..n] == payload[..][..n];
      r, image := fa.Feed(payload, n, env.bufferOk, env.imageOk);
    }

    method TakeFrame(h: Header, env: Env)
      requires Valid() && h.payloadLen <= MAX_PAYLOAD
      modifies `trace, `strikes, `phase, fa, fa.buf, fa.seen
      ensures Valid() && Owned(old(fa.buf), old(fa.seen))
      ensures Abs() == OnFrame(old(Abs()), h, env)
    {
      var r, image := FeedFrame(h.payloadLen, env);
      if r < 0 {
        DispatchStrike(h.deviceId, ERR_TOO_BIG);
      } else {
        Credit(TookChunk(Outcome(r, image)));
      }
    }

    method Credit(effect: Effect)
      requires Valid()
      modifies `trace, `strikes
      ensures Valid() && Abs() == Emit(old(Abs()), [effect]).(strikes := 0)
    {
      strikes := 0;
      trace := trace + [effect];
    }

    /** The reassembler's buffers are the ones given, gone, or allocated since. */
    twostate predicate Owned(buf: array?<U8>, seen: array?<bool>)
      reads fa
    {
      && (fa.buf == buf || fa.buf == null || fresh(fa.buf))
      && (fa.seen == seen || fa.seen == null || fresh(fa.seen))
    }

    /** A packet while HELLO is awaited. */
    method Greet(h: Header, env: Env)
      requires Valid() && Looping(Abs()) && phase == WaitHello && h.payloadLen <= MAX_PAYLOAD
      modifies `trace, `strikes, `phase, `open, `device
      ensures Valid() && Abs() == Dispatch(old(Abs()), h, env)
    {
      if h.kind != PKT_HELLO {
        trace, open := trace + [SentError(h.deviceId, ERR_NO_HELLO)], false;
        return;
      }
      device := Some(h.deviceId);
      trace := trace + [SentHelloAck(h.deviceId, env.session, env.ackSent)];
      if !env.ackSent {
        open := false;
        return;
      }
      phase, strikes := Active, 0;
    }

    /** The switch on the packet type. */
    method Handle(h: Header, env: Env)
      requires Valid() && Looping(Abs()) && h.payloadLen <= MAX_PAYLOAD
      modifies `trace, `strikes, `phase, `open, `device, `sensorCount, fa, fa.buf, fa.seen
      ensures Valid() && Owned(old(fa.buf), old(fa.seen))
      ensures Abs() == Dispatch(old(Abs()), h, env)
    {
      if phase == WaitHello {
        Greet(h, env);
        return;
      }
      if h.kind == PKT_SENSOR {
        TakeSensor(h, env);
      } else if h.kind == PKT_FRAME {
        TakeFrame(h, env);
      } else if h.kind == PKT_HELLO {
        // a duplicate HELLO is ignored
      } else {
        DispatchStrike(h.deviceId, ERR_BAD_TYPE);
      }
    }

    /** Framing validation, payload, checksum, then dispatch. */
    method Take(h: Header, env: Env)
      requires Valid() && Looping(Abs())
      modifies this, sock`script, payload, fa, fa.buf, fa.seen
      ensures Valid() && Owned(old(fa.buf), old(fa.seen))
      ensures (Abs(), Marks(sock.script)) == OnHeader(old(Abs()), h, Marks(old(sock.script)), env)
    {
      if h.magic != MAGIC {
        FramingStrike(h.deviceId, ERR_BAD_MAGIC);
        return;
      }
      if h.version != VERSION {
        FramingStrike(h.deviceId, ERR_BAD_VERSION);
        return;
      }
      if h.payloadLen > MAX_PAYLOAD {
        FramingStrike(h.deviceId, ERR_TOO_BIG);
        return;
      }
      var r := ReadPayload(h.payloadLen);
      if r.status != Done || |r.bytes| != h.payloadLen {
        open := false;
        return;
      }
      Check(h, env);
    }

    method ReadPayload(n: U16) returns (r: ReadResult)
      requires Valid() && n <= MAX_PAYLOAD
      modifies sock`script, payload
      ensures Valid()
      ensures (r, Marks(sock.script)) == Pull(Marks(old(sock.script)), n)
      ensures Abs() == WithPayload(old(Abs()), r.bytes)
    {
      if n > 0 {
        r := ReadN(sock, payload, n);
      } else {
        r := ReadResult(Done, []);
        assert Spliced(payload[..], 0, []) == payload[..];
      }
    }

    method Check(h: Header, env: Env)
      requires Valid() && Looping(Abs()) && h.payloadLen <= MAX_PAYLOAD
      modifies this, fa, fa.buf, fa.seen
      ensures Valid() && Owned(old(fa.buf), old(fa.seen))
      ensures Abs() == Checked(old(Abs()), h, env)
    {
      var check := Compute(payload, 0, h.payloadLen);
      assert payload[0..h.payloadLen] == payload[..][..h.payloadLen];
      if check != h.checksum {
        FramingStrike(h.deviceId, ERR_BAD_CHECKSUM);
      } else {
        Handle(h, env);
      }
    }

    /** One turn of the loop. */
    method Turn(env: Env)
      requires Valid() && Looping(Abs())
      modifies this, sock`script, payload, fa, fa.buf, fa.seen
      ensures Valid() && Owned(old(fa.buf), old(fa.seen))
      ensures (Abs(), Marks(sock.script)) == Step(old(Abs()), Marks(old(sock.script)), env)
    {
      var r, h := Fetch();
      if r.status == TimedOut {
        Idled();
        return;
      }
      if r.status == Failed || |r.bytes| != HDR_SIZE {
        open := false;
        return;
      }
      idleTicks := 0;
      Take(h, env);
    }

    method Idled()
      requires Valid()
      modifies `idleTicks, `open
      ensures Valid() && Abs() == OnTick(old(Abs()))
    {
      idleTicks := idleTicks + 1;
      if idleTicks * WORKER_TICK_S >= DEAD_PEER_S {
        open := false;
      }
    }

    method Fetch() returns (r: ReadResult, h: Header)
      modifies sock`script
      ensures (r, Marks(sock.script)) == Pull(Marks(old(sock.script)), HDR_SIZE)
      ensures |r.bytes| == HDR_SIZE ==> h == ReadHeader(r.bytes)
    {
      var hdr := new U8[HDR_SIZE];
      r := ReadN(sock, hdr, HDR_SIZE);
      h := ParseHeader(hdr);
      HeaderRoundTrip(h, hdr[..]);
      assert |r.bytes| == HDR_SIZE ==> hdr[..] == r.bytes;
    }

    /** The loop: it turns while the server runs and the connection is neither closing nor left by
        a `break`. */
    method Serve(envs: seq<Env>)
      requires Valid()
      modifies this, sock`script, payload, fa, fa.buf, fa.seen
      ensures Valid()
      ensures (Abs(), Marks(sock.script)) == Run(old(Abs()), Marks(old(sock.script)), envs)
    {
      var i := 0;
      while i < |envs| && open && phase != Closing
        invariant 0 <= i <= |envs| && Valid() && Owned(old(fa.buf), old(fa.seen))
        invariant Run(Abs(), Marks(sock.script), envs[i..]) == Run(old(Abs()), Marks(old(sock.script)), envs)
      {
        assert envs[i..][0] == envs[i] && envs[i..][1..] == envs[i + 1..];
        Turn(envs[i]);
        i := i + 1;
      }
    }
  }
}
