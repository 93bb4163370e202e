/** The byte-stream worker against a packet-level worker that knows nothing of headers, checksums
    or partial reads. */
module WorkerFraming {
  import opened Bytes
  import opened Checksum
  import opened Wire
  import opened NetUtil
  import opened Frame
  import opened FrameHistory
  import opened Worker
  import opened WorkerRuns

  /** What a well-behaved peer sends: packets, and silences between them long enough for the
      receive timeout to expire. */
  datatype Item = Pkt(kind: U8, deviceId: U32, payload: seq<U8>) | Silence

  ghost predicate Carried(items: seq<Item>) {
    forall i :: 0 <= i < |items| && items[i].Pkt? ==> |items[i].payload| <= MAX_PAYLOAD
  }

  function ItemMarks(item: Item): seq<Mark>
    requires item.Pkt? ==> |item.payload| <= MAX_PAYLOAD
  {
    match item
    case Pkt(kind, d, payload) => Marked(Packet(kind, d, payload))
    case Silence => [Tick]
  }

  function Stream(items: seq<Item>): seq<Mark>
    requires Carried(items)
  {
    if items == [] then [] else ItemMarks(items[0]) + Stream(items[1..])
  }

  /** One turn of the packet-level worker. */
  function OnItem(w: Conn, item: Item, env: Env): (w': Conn)
    requires Ok(w) && Looping(w) && (item.Pkt? ==> |item.payload| <= MAX_PAYLOAD)
    ensures Ok(w')
  {
    match item
    case Pkt(kind, d, payload) =>
      Dispatch(WithPayload(w.(idleTicks := 0), payload), PacketHeader(kind, d, payload), env)
    case Silence => OnTick(w)
  }

  function RunItems(w: Conn, items: seq<Item>, envs: seq<Env>): (out: (Conn, seq<Item>))
    requires Ok(w) && Carried(items)
    ensures Ok(out.0) && Carried(out.1)
    decreases |envs|
  {
    if envs == [] || !Looping(w) then (w, items)
    else if items == [] then (Worker.Broken(w), [])
    else RunItems(OnItem(w, items[0], envs[0]), items[1..], envs[1..])
  }

  /** A built packet at the head of the stream is received whole and dispatched. */
  lemma StepOnPacket(w: Conn, kind: U8, d: U32, payload: seq<U8>, marks: seq<Mark>, env: Env)
    requires Ok(w) && Looping(w) && |payload| <= MAX_PAYLOAD
    ensures Step(w, Marked(Packet(kind, d, payload)) + marks, env) == (OnItem(w, Pkt(kind, d, payload), env), marks)
  {
    var h := PacketHeader(kind, d, payload);
    var after := Marked(payload) + marks;
    assert Marked(Packet(kind, d, payload)) + marks == Marked(HeaderBytes(h)) + after;
    PullExact(HeaderBytes(h), after);
    HeaderRoundTrip(h, HeaderBytes(h));
    PayloadFollows(w.(idleTicks := 0), kind, d, payload, marks, env);
  }

  lemma PayloadFollows(w: Conn, kind: U8, d: U32, payload: seq<U8>, marks: seq<Mark>, env: Env)
    requires Ok(w) && Looping(w) && |payload| <= MAX_PAYLOAD
    ensures var h := PacketHeader(kind, d, payload);
            OnHeader(w, h, Marked(payload) + marks, env) == (Dispatch(WithPayload(w, payload), h, env), marks)
  {
    PullExact(payload, marks);
    PacketChecked(WithPayload(w, payload), PacketHeader(kind, d, payload), payload, env);
  }

  lemma PacketChecked(w: Conn, h: Header, payload: seq<U8>, env: Env)
    requires Ok(w) && Looping(w) && |payload| <= MAX_PAYLOAD
    requires h.payloadLen == |payload| && h.checksum == Sum16(payload) && payload <= w.payload
    ensures Checked(w, h, env) == Dispatch(w, h, env)
  {
    assert w.payload[..|payload|] == payload;
  }

  /** For every list of packets and silences, whatever way the bytes are cut into receives, the
      byte-stream worker does exactly what the packet-level worker does: it recovers the packets,
      in order, up to the point where it closes. */
  lemma {:induction false} RecoversPackets(w: Conn, items: seq<Item>, envs: seq<Env>)
    requires Ok(w) && Carried(items)
    ensures var (w', rest) := RunItems(w, items, envs);
            Run(w, Stream(items), envs) == (w', Stream(rest))
    decreases |envs|
  {
    if envs != [] && Looping(w) && items != [] {
      var item, later, env := items[0], items[1..], envs[0];
      match item {
        case Pkt(kind, d, payload) =>
          StepOnPacket(w, kind, d, payload, Stream(later), env);
        case Silence =>
          PullStops(Stream(later), HDR_SIZE);
      }
      RecoversPackets(OnItem(w, item, env), later, envs[1..]);
    }
  }

  /** The same, for the receive script itself. */
  lemma {:induction false} AnySegmentation(w: Conn, items: seq<Item>, script: seq<Event>, envs: seq<Env>)
    requires Ok(w) && Carried(items) && Marks(script) == Stream(items)
    ensures Run(w, Marks(script), envs).0 == RunItems(w, items, envs).0
  {
    RecoversPackets(w, items, envs);
  }

  /** An error reply that blames the framing. An oversized packet shares its code with a bad FRAME chunk,
      so it is told apart only where there is no FRAME packet. */
  ghost predicate FramingError(e: Effect, frames: bool) {
    && e.SentError?
    && (e.code in {ERR_BAD_MAGIC, ERR_BAD_VERSION, ERR_BAD_CHECKSUM} || (!frames && e.code == ERR_TOO_BIG))
  }

  lemma DispatchErrors(w: Conn, h: Header, env: Env, frames: bool)
    requires Ok(w) && Looping(w) && h.payloadLen <= MAX_PAYLOAD && (frames || h.kind != PKT_FRAME)
    ensures forall e :: e in Dispatch(w, h, env).trace ==> e in w.trace || !FramingError(e, frames)
  {
    var m := DispatchMoves(w, h, env);
  }

  /** A peer that builds its packets is never told of a magic, version or checksum error, nor of an
      oversized packet. That the latter holds with FRAME packets too is part of `RecoversPackets`:
      the packet-level worker has no size check to fail. */
  lemma {:induction false} NoFramingErrors(w: Conn, items: seq<Item>, envs: seq<Env>, frames: bool)
    requires Ok(w) && Carried(items) && (forall e :: e in w.trace ==> !FramingError(e, frames))
    requires frames || forall i :: 0 <= i < |items| && items[i].Pkt? ==> items[i].kind != PKT_FRAME
    ensures forall e :: e in RunItems(w, items, envs).0.trace ==> !FramingError(e, frames)
    decreases |envs|
  {
    if envs != [] && Looping(w) && items != [] {
      var item, env := items[0], envs[0];
      if item.Pkt? {
        DispatchErrors(WithPayload(w.(idleTicks := 0), item.payload),
                       PacketHeader(item.kind, item.deviceId, item.payload), env, frames);
      }
      NoFramingErrors(OnItem(w, item, env), items[1..], envs[1..], frames);
    }
  }

  // ---- an image through the whole path ----------------------------------------------

  function ChunkItem(d: U32, id: Id, pix: seq<U8>, i: nat): Item
    requires i < id.Count()
  {
    Pkt(PKT_FRAME, d, ChunkPayload(id, pix, i))
  }

  function ChunkItems(d: U32, id: Id, img: Image, order: seq<nat>): (items: seq<Item>)
    requires Indices(order, id)
    ensures Carried(items) && |items| == |order|
  {
    if order == [] then [] else [ChunkItem(d, id, img.pix, order[0])] + ChunkItems(d, id, img, order[1..])
  }

  ghost predicate Healthy(envs: seq<Env>) {
    forall i :: 0 <= i < |envs| ==> envs[i].bufferOk && envs[i].imageOk
  }

  /** After the chunks `done`, the last of the chunks `todo` is the one that completes the set. */
  ghost predicate Completes(done: seq<nat>, todo: seq<nat>, n: nat) {
    todo != [] && Covers(done + todo, n) && !Covers(done + todo[..|todo| - 1], n)
  }

  lemma CompletesLater(done: seq<nat>, i: nat, later: seq<nat>, n: nat)
    requires Completes(done, [i] + later, n)
    ensures Covers(done + [i], n) <==> later == []
    ensures later != [] ==> Completes(done + [i], later, n)
  {
    var todo := [i] + later;
    assert done + todo == (done + [i]) + later;
    if later != [] {
      assert done + todo[..|todo| - 1] == (done + [i]) + later[..|later| - 1];
      var k :| 0 <= k < n && k !in done + todo[..|todo| - 1];
      assert k !in done + [i];
    } else {
      assert done + todo == done + [i];
    }
  }

  /** The acts that `n` chunks cause, the last of which completes the image. */
  function Taken(n: nat, img: Image): seq<Effect> {
    if n <= 1 then [TookChunk(Complete(img))] else [TookChunk(More)] + Taken(n - 1, img)
  }

  lemma {:induction false} TakenLater(t: seq<Effect>, n: nat, img: Image)
    requires n >= 2
    ensures t + Taken(n, img) == t + [TookChunk(More)] + Taken(n - 1, img)
  {
  }

  /** Chunk `i`, on top of the chunks `done`. */
  lemma ChunkTaken(w: Conn, d: U32, id: Id, img: Image, done: seq<nat>, i: nat, env: Env)
    requires Ok(w) && w.open && w.phase == Active && Announces(id, img) && env.bufferOk && env.imageOk
    requires Indices(done, id) && Indices(done + [i], id) && i < id.Count()
    requires if done == [] then Restarts(w.frames, id) else w.frames == Collecting(id, Slices(img, done))
    ensures var w' := OnItem(w, ChunkItem(d, id, img.pix, i), env);
            && w'.open && w'.phase == Active && w'.strikes == 0
            && if Covers(done + [i], id.Count()) then w'.trace == w.trace + [TookChunk(Complete(img))]
               else w'.trace == w.trace + [TookChunk(More)] && w'.frames == Collecting(id, Slices(img, done + [i]))
  {
    DeliverOne(w.frames, id, img, done, i);
    var payload := ChunkPayload(id, img.pix, i);
    FrameTaken(w, d, payload, env, Feed(w.frames, Input(payload, true, true)));
  }

  /** A frame packet that the reassembler does not reject. */
  lemma FrameTaken(w: Conn, d: U32, payload: seq<U8>, env: Env, fed: (Frame.State, Result))
    requires Ok(w) && w.open && w.phase == Active && |payload| <= MAX_PAYLOAD && env.bufferOk && env.imageOk
    requires fed == Feed(w.frames, Input(payload, true, true)) && !fed.1.Rejected?
    ensures var w' := OnItem(w, Pkt(PKT_FRAME, d, payload), env);
            && w'.open && w'.phase == Active && w'.strikes == 0
            && w'.trace == w.trace + [TookChunk(fed.1)] && w'.frames == fed.0
  {
    var w1, h := WithPayload(w.(idleTicks := 0), payload), PacketHeader(PKT_FRAME, d, payload);
    assert w1.payload[..|payload|] == payload;
    assert Dispatch(w1, h, env) == OnFrame(w1, h, env);
  }

  /** Chunks `done` have been taken in; the rest, in any order and with repetitions, completes the
      frame at its last chunk and not before. */
  lemma {:induction false} ChunksArrive(w: Conn, d: U32, id: Id, img: Image, done: seq<nat>, todo: seq<nat>,
                                        envs: seq<Env>)
    requires Ok(w) && w.open && w.phase == Active && Announces(id, img) && Healthy(envs)
    requires Indices(done, id) && Indices(todo, id) && |envs| == |todo| && Completes(done, todo, id.Count())
    requires if done == [] then Restarts(w.frames, id) else w.frames == Collecting(id, Slices(img, done))
    ensures RunItems(w, ChunkItems(d, id, img, todo), envs).0.trace == w.trace + Taken(|todo|, img)
    decreases |todo|
  {
    var i, later, items := todo[0], todo[1..], ChunkItems(d, id, img, todo);
    assert todo == [i] + later;
    CompletesLater(done, i, later, id.Count());
    ChunkTaken(w, d, id, img, done, i, envs[0]);
    var w1 := OnItem(w, items[0], envs[0]);
    assert items[1..] == ChunkItems(d, id, img, later);
    if later != [] {
      ChunksArrive(w1, d, id, img, done + [i], later, envs[1..]);
      TakenLater(w.trace, |todo|, img);
    }
  }

  lemma HelloAnswered(buffer: seq<U8>, d: U32, hello: seq<U8>, env: Env)
    requires |buffer| == MAX_PAYLOAD && |hello| <= MAX_PAYLOAD && env.ackSent
    ensures var w := OnItem(Initial(buffer), Pkt(PKT_HELLO, d, hello), env);
            w.open && w.phase == Active && w.frames == Idle && w.trace == [SentHelloAck(d, env.session, true)]
  {
  }

  lemma {:induction false} ImageAsPackets(buffer: seq<U8>, d: U32, hello: seq<U8>, id: Id, img: Image,
                                          order: seq<nat>, envs: seq<Env>)
    requires |buffer| == MAX_PAYLOAD && |hello| <= MAX_PAYLOAD && Announces(id, img) && Healthy(envs)
    requires Indices(order, id) && |envs| == |order| + 1 && envs[0].ackSent && Completes([], order, id.Count())
    ensures RunItems(Initial(buffer), [Pkt(PKT_HELLO, d, hello)] + ChunkItems(d, id, img, order), envs).0.trace
         == [SentHelloAck(d, envs[0].session, true)] + Taken(|order|, img)
  {
    HelloFirst(buffer, d, hello, ChunkItems(d, id, img, order), envs);
    HelloAnswered(buffer, d, hello, envs[0]);
    ChunksArrive(OnItem(Initial(buffer), Pkt(PKT_HELLO, d, hello), envs[0]), d, id, img, [], order, envs[1..]);
  }

  /** A device says HELLO and sends the chunks of an image, in any order and with repetitions, the
      set being complete at the last one. However the bytes are cut into receives, the worker
      greets it and reassembles exactly that image, with no strike. */
  lemma {:induction false} ImageOverTheWire(buffer: seq<U8>, d: U32, hello: seq<U8>, id: Id, img: Image,
                                            order: seq<nat>, script: seq<Event>, envs: seq<Env>)
    requires |buffer| == MAX_PAYLOAD && |hello| <= MAX_PAYLOAD && Announces(id, img) && Healthy(envs)
    requires Indices(order, id) && |envs| == |order| + 1 && envs[0].ackSent && Completes([], order, id.Count())
    requires Marks(script) == Stream([Pkt(PKT_HELLO, d, hello)] + ChunkItems(d, id, img, order))
    ensures Run(Initial(buffer), Marks(script), envs).0.trace
         == [SentHelloAck(d, envs[0].session, true)] + Taken(|order|, img)
  {
    AnySegmentation(Initial(buffer), [Pkt(PKT_HELLO, d, hello)] + ChunkItems(d, id, img, order), script, envs);
    ImageAsPackets(buffer, d, hello, id, img, order, envs);
  }

  lemma {:induction false} HelloFirst(buffer: seq<U8>, d: U32, hello: seq<U8>, items: seq<Item>, envs: seq<Env>)
    requires |buffer| == MAX_PAYLOAD && |hello| <= MAX_PAYLOAD && Carried(items) && envs != []
    ensures Carried([Pkt(PKT_HELLO, d, hello)] + items)
    ensures RunItems(Initial(buffer), [Pkt(PKT_HELLO, d, hello)] + items, envs)
         == RunItems(OnItem(Initial(buffer), Pkt(PKT_HELLO, d, hello), envs[0]), items, envs[1..])
  {
    assert ([Pkt(PKT_HELLO, d, hello)] + items)[1..] == items;
  }
}
