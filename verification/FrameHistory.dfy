/** What the reassembler delivers, over every sequence of calls. */
module FrameHistory {
  import opened Bytes
  import opened Options
  import opened Frame

  /** The state after the first `n` calls on a fresh reassembler. */
  function After(inputs: seq<Input>, n: nat): (s: State)
    requires n <= |inputs|
    ensures Consistent(s)
  {
    if n == 0 then Idle else Feed(After(inputs, n - 1), inputs[n - 1]).0
  }

  function ResultOf(inputs: seq<Input>, n: nat): Result
    requires n < |inputs|
  {
    Feed(After(inputs, n), inputs[n]).1
  }

  /** Call `k` delivered a well-formed chunk of frame `id`. */
  predicate ChunkOf(inputs: seq<Input>, k: nat, id: Id)
    requires k < |inputs|
  {
    Decode(inputs[k].payload).Some? && Decode(inputs[k].payload).value.id == id
  }

  /** The calls from `start` up to `end` collect frame `id`: the frame starts at `start`, every
      well-formed chunk since then is one of its chunks, and it has not started again. */
  ghost predicate Epoch(inputs: seq<Input>, start: nat, end: nat, id: Id)
    requires start < end <= |inputs|
  {
    && Restarts(After(inputs, start), id)
    && ChunkOf(inputs, start, id)
    && (forall k: nat :: start <= k < end && Decode(inputs[k].payload).Some? ==> ChunkOf(inputs, k, id))
    && (forall k: nat :: start < k < end ==> !Restarts(After(inputs, k), id))
  }

  /** The last call from `start` up to `end` that delivered chunk `index`. */
  function LastWriter(inputs: seq<Input>, start: nat, end: nat, index: nat): (k: Option<nat>)
    requires start <= end <= |inputs|
    ensures k.Some? ==> start <= k.value < end && Decode(inputs[k.value].payload).Some?
                        && Decode(inputs[k.value].payload).value.index == index
    decreases end
  {
    if start == end then None
    else if Decode(inputs[end - 1].payload).Some? && Decode(inputs[end - 1].payload).value.index == index
    then Some(end - 1)
    else LastWriter(inputs, start, end - 1, index)
  }

  /** No later chunk with the same index intervenes. */
  lemma {:induction false} LastWriterIsLast(inputs: seq<Input>, start: nat, end: nat, index: nat, k: nat)
    requires start <= k < end <= |inputs|
    requires Decode(inputs[k].payload).Some? && Decode(inputs[k].payload).value.index == index
    ensures LastWriter(inputs, start, end, index).Some? && LastWriter(inputs, start, end, index).value >= k
    decreases end
  {
    if LastWriter(inputs, start, end, index) != Some(end - 1) {
      LastWriterIsLast(inputs, start, end - 1, index, k);
    }
  }

  function BytesAt(inputs: seq<Input>, k: nat): seq<U8>
    requires k < |inputs| && Decode(inputs[k].payload).Some?
  {
    Decode(inputs[k].payload).value.bytes
  }

  /** The chunks held after `end` calls are those delivered since `start`, each with the bytes
      of its last delivery. */
  ghost predicate HoldsLast(inputs: seq<Input>, start: nat, end: nat, got: map<nat, seq<U8>>)
    requires start <= end <= |inputs|
  {
    forall i: nat ::
      && (i in got <==> LastWriter(inputs, start, end, i).Some?)
      && (i in got ==> got[i] == BytesAt(inputs, LastWriter(inputs, start, end, i).value))
  }

  /** Where the collection that call `n` joins began, and what it holds after that call. */
  lemma {:induction false} EpochOf(inputs: seq<Input>, n: nat) returns (start: nat)
    requires n < |inputs| && Decode(inputs[n].payload).Some?
    requires Restarts(After(inputs, n), Decode(inputs[n].payload).value.id) ==> inputs[n].bufferOk
    ensures start <= n && Epoch(inputs, start, n + 1, Decode(inputs[n].payload).value.id)
    ensures HoldsLast(inputs, start, n + 1, Collected(After(inputs, n), Decode(inputs[n].payload).value))
    decreases n, 1
  {
    var s, c := After(inputs, n), Decode(inputs[n].payload).value;
    if Restarts(s, c.id) {
      ExtendLast(inputs, n, n, map[], c);
      return n;
    }
    start := CollectingSince(inputs, n);
    ExtendLast(inputs, start, n, s.got, c);
    ExtendEpoch(inputs, start, n, c);
  }

  lemma {:induction false} ExtendEpoch(inputs: seq<Input>, start: nat, n: nat, c: Chunk)
    requires start < n < |inputs| && Decode(inputs[n].payload) == Some(c)
    requires Epoch(inputs, start, n, c.id) && !Restarts(After(inputs, n), c.id)
    ensures Epoch(inputs, start, n + 1, c.id)
  {
  }

  lemma ExtendLast(inputs: seq<Input>, start: nat, n: nat, got: map<nat, seq<U8>>, c: Chunk)
    requires start <= n < |inputs| && Decode(inputs[n].payload) == Some(c)
    requires HoldsLast(inputs, start, n, got)
    ensures HoldsLast(inputs, start, n + 1, got[c.index := c.bytes])
  {
  }

  lemma {:induction false} CollectingSince(inputs: seq<Input>, n: nat) returns (start: nat)
    requires n <= |inputs| && After(inputs, n).Collecting?
    ensures start < n && Epoch(inputs, start, n, After(inputs, n).id)
    ensures HoldsLast(inputs, start, n, After(inputs, n).got)
    decreases n, 0
  {
    var m := n - 1;
    var s := After(inputs, m);
    if Decode(inputs[m].payload).None? {
      start := CollectingSince(inputs, m);
      QuietExtends(inputs, start, m, s.id, s.got);
    } else {
      StillCollecting(s, inputs[m], Decode(inputs[m].payload).value);
      start := EpochOf(inputs, m);
    }
  }

  /** A malformed chunk changes nothing about the collection. */
  lemma {:induction false} QuietExtends(inputs: seq<Input>, start: nat, n: nat, id: Id, got: map<nat, seq<U8>>)
    requires start < n < |inputs| && Decode(inputs[n].payload).None?
    requires Epoch(inputs, start, n, id) && HoldsLast(inputs, start, n, got) && !Restarts(After(inputs, n), id)
    ensures Epoch(inputs, start, n + 1, id) && HoldsLast(inputs, start, n + 1, got)
  {
  }

  lemma StillCollecting(s: State, input: Input, c: Chunk)
    requires Consistent(s) && Decode(input.payload) == Some(c) && Feed(s, input).0.Collecting?
    ensures Feed(s, input).0 == Collecting(c.id, Collected(s, c)) && (Restarts(s, c.id) ==> input.bufferOk)
  {
    FeedChunk(s, input, c);
  }

  /** `img` has the dimensions of `id`, and every pixel is the byte that the last chunk covering it
      from call `start` up to `end` carried there. */
  ghost predicate Shows(inputs: seq<Input>, start: nat, end: nat, id: Id, img: Image)
    requires start <= end <= |inputs|
  {
    && img.w == id.width && img.h == id.height && |img.pix| == id.width * id.height
    && forall j :: 0 <= j < |img.pix| ==>
         var k := LastWriter(inputs, start, end, j / 1024);
         && k.Some?
         && j % 1024 < |BytesAt(inputs, k.value)|
         && img.pix[j] == BytesAt(inputs, k.value)[j % 1024]
  }

  /** Whenever a call completes a frame, in any sequence of calls whatever, the image has the
      dimensions its chunks announced, and every pixel is the byte that the last chunk covering
      it since the frame began carried there. No pixel is left unset. */
  lemma CompletedImage(inputs: seq<Input>, n: nat) returns (start: nat, id: Id)
    requires n < |inputs| && ResultOf(inputs, n).Complete?
    ensures start <= n && Epoch(inputs, start, n + 1, id)
    ensures Shows(inputs, start, n + 1, id, ResultOf(inputs, n).image)
  {
    var s := After(inputs, n);
    var c := CompletingChunk(s, inputs[n]);
    id := c.id;
    start := EpochOf(inputs, n);
    CompletedShows(inputs, start, n + 1, s, c, inputs[n].bufferOk, inputs[n].imageOk, ResultOf(inputs, n).image);
  }

  lemma {:induction false} CompletedShows(inputs: seq<Input>, start: nat, end: nat, s: State, c: Chunk,
                                          bufferOk: bool, imageOk: bool, img: Image)
    requires start <= end <= |inputs| && Consistent(s) && WellFormed(c)
    requires HoldsLast(inputs, start, end, Collected(s, c)) && Accept(s, c, bufferOk, imageOk).1 == Complete(img)
    ensures Shows(inputs, start, end, c.id, img)
  {
    var got := Collected(s, c);
    CompleteMeans(s, c, bufferOk, imageOk, got);
    PixelsFromLast(inputs, start, end, c.id, got, img.pix);
  }

  /** Only a well-formed chunk completes a frame. */
  lemma CompletingChunk(s: State, input: Input) returns (c: Chunk)
    requires Consistent(s) && Feed(s, input).1.Complete?
    ensures Decode(input.payload) == Some(c) && WellFormed(c) && (Restarts(s, c.id) ==> input.bufferOk)
    ensures Feed(s, input) == Accept(s, c, input.bufferOk, input.imageOk)
  {
    c := Decode(input.payload).value;
    FeedChunk(s, input, c);
  }

  lemma FeedChunk(s: State, input: Input, c: Chunk)
    requires Consistent(s) && Decode(input.payload) == Some(c)
    ensures WellFormed(c) && Feed(s, input) == Accept(s, c, input.bufferOk, input.imageOk)
  {
    DecodeExact(input.payload, c);
  }

  /** A chunk that completes a frame found all the others, and they were joined. */
  lemma {:induction false} CompleteMeans(s: State, c: Chunk, bufferOk: bool, imageOk: bool, got: map<nat, seq<U8>>)
    requires Consistent(s) && WellFormed(c) && got == Collected(s, c)
    requires Accept(s, c, bufferOk, imageOk).1.Complete?
    ensures forall i :: 0 <= i < c.id.Count() ==> i in got && WellFormed(Chunk(c.id, i, got[i]))
    ensures Accept(s, c, bufferOk, imageOk).1.image == Image(c.id.width, c.id.height, Joined(got, c.id.Count()))
  {
    CollectedIsConsistent(s, c);
    AllCollected(got, c.id.Count());
  }

  lemma {:induction false} PixelsFromLast(inputs: seq<Input>, start: nat, end: nat, id: Id,
                                          got: map<nat, seq<U8>>, pix: seq<U8>)
    requires start <= end <= |inputs| && HoldsLast(inputs, start, end, got) && id.Legal()
    requires forall i :: 0 <= i < id.Count() ==> i in got && WellFormed(Chunk(id, i, got[i]))
    requires pix == Joined(got, id.Count())
    ensures Shows(inputs, start, end, id, Image(id.width, id.height, pix))
  {
    WholeFrame(id, got);
    RowStartExact(id.width, id.height);
  }

  /** A malformed chunk changes nothing; only a failed allocation resets the collection. */
  lemma {:induction false} RejectionsKeepState(inputs: seq<Input>, n: nat)
    requires n < |inputs| && ResultOf(inputs, n) == Rejected
    ensures After(inputs, n + 1) == if Decode(inputs[n].payload).None? then After(inputs, n) else Idle
    ensures Decode(inputs[n].payload).Some? ==> !inputs[n].bufferOk || !inputs[n].imageOk
  {
  }

  /** `p` spells the well-formed chunk `c`. */
  ghost predicate Spells(p: seq<U8>, c: Chunk) {
    WellFormed(c) && p == FrameHeader(c.id, c.index, c.id.Count()) + c.bytes
  }

  /** A chunk begins a frame unless chunks of the same frame are being collected. */
  ghost predicate Begins(s: State, c: Chunk) {
    !(s.Collecting? && s.id == c.id)
  }

  /** Chunk `i` of the frame is `c` itself or came before it. */
  ghost predicate Arrived(s: State, c: Chunk, i: nat) {
    i == c.index || (!Begins(s, c) && i in s.got)
  }

  /** With chunk `c` every chunk of its frame has arrived. */
  ghost predicate Finishes(s: State, c: Chunk) {
    forall i :: 0 <= i < c.id.Count() ==> Arrived(s, c, i)
  }

  /** In every state a payload is refused if and only if it spells no well-formed chunk, or an
      allocation it needs fails: the buffers for a chunk that begins a frame, the image for one that
      finishes it. A refused payload that spells no chunk changes nothing. */
  lemma RefusedExactly(s: State, input: Input)
    requires Consistent(s)
    ensures Feed(s, input).1.Rejected? <==>
              || (forall c :: !Spells(input.payload, c))
              || (exists c :: Spells(input.payload, c)
                              && ((Begins(s, c) && !input.bufferOk) || (Finishes(s, c) && !input.imageOk)))
    ensures (forall c :: !Spells(input.payload, c)) ==> Feed(s, input) == (s, Rejected)
  {
    match Decode(input.payload)
    case None =>
      forall c ensures !Spells(input.payload, c) {
        DecodeExact(input.payload, c);
      }
    case Some(d) =>
      DecodeExact(input.payload, d);
      assert Spells(input.payload, d);
      forall c | Spells(input.payload, c) ensures c == d {
        DecodeExact(input.payload, c);
      }
      FeedChunk(s, input, d);
      AcceptRefuses(s, d, input.bufferOk, input.imageOk);
  }

  lemma FinishesExactly(s: State, c: Chunk, got: map<nat, seq<U8>>)
    requires got == Collected(s, c)
    ensures Finishes(s, c) <==> forall i :: 0 <= i < c.id.Count() ==> i in got
  {
    forall i: nat ensures i in got <==> Arrived(s, c, i) {
    }
  }

  lemma AcceptRefuses(s: State, c: Chunk, bufferOk: bool, imageOk: bool)
    requires Consistent(s) && WellFormed(c)
    ensures Accept(s, c, bufferOk, imageOk).1.Rejected? <==>
              (Begins(s, c) && !bufferOk) || (Finishes(s, c) && !imageOk)
  {
    var got := Collected(s, c);
    FinishesExactly(s, c, got);
    if bufferOk || !Restarts(s, c.id) {
      AcceptCollected(s, c, bufferOk, imageOk);
    }
  }

  // ---- transfer of one image --------------------------------------------------------

  /** `id` announces the image `img`, and the protocol can carry it. */
  ghost predicate Announces(id: Id, img: Image) {
    id.Legal() && img.w == id.width && img.h == id.height && |img.pix| == id.Total()
  }

  function ChunkPayload(id: Id, pix: seq<U8>, i: nat): seq<U8>
    requires i < id.Count()
  {
    FrameHeader(id, i, id.Count()) + Slice(pix, i)
  }

  lemma ChunkDecodes(id: Id, img: Image, i: nat)
    requires Announces(id, img) && i < id.Count()
    ensures Decode(ChunkPayload(id, img.pix, i)) == Some(Chunk(id, i, Slice(img.pix, i)))
  {
    CountBounds(id.Total(), i);
    DecodeExact(ChunkPayload(id, img.pix, i), Chunk(id, i, Slice(img.pix, i)));
  }

  /** A sequence of chunk indices of a frame. */
  ghost predicate Indices(order: seq<nat>, id: Id) {
    forall k :: 0 <= k < |order| ==> order[k] < id.Count()
  }

  /** The reassembler fed the chunks of `img` in the given order, all allocations succeeding. */
  function Deliver(s: State, id: Id, img: Image, order: seq<nat>): (out: State)
    requires Consistent(s) && Indices(order, id)
    ensures Consistent(out)
  {
    if order == [] then s else
    var last := |order| - 1;
    Feed(Deliver(s, id, img, order[..last]), Input(ChunkPayload(id, img.pix, order[last]), true, true)).0
  }

  ghost predicate Covers(order: seq<nat>, n: nat) {
    forall i :: 0 <= i < n ==> i in order
  }

  function Slices(img: Image, order: seq<nat>): map<nat, seq<U8>> {
    map i | i in order :: Slice(img.pix, i)
  }

  lemma SliceWellFormed(id: Id, img: Image, i: nat)
    requires Announces(id, img) && i < id.Count()
    ensures WellFormed(Chunk(id, i, Slice(img.pix, i)))
  {
    CountBounds(id.Total(), i);
  }

  lemma SlicesRejoin(id: Id, img: Image, order: seq<nat>)
    requires Announces(id, img) && Indices(order, id) && Covers(order, id.Count())
    ensures forall i :: 0 <= i < id.Count() ==> i in Slices(img, order)
    ensures Joined(Slices(img, order), id.Count()) == img.pix
  {
    var got := Slices(img, order);
    forall i | 0 <= i < id.Count() ensures i in got && WellFormed(Chunk(id, i, got[i])) {
      assert i in order;
      SliceWellFormed(id, img, i);
    }
    WholeFrame(id, got);
    forall j | 0 <= j < |img.pix| ensures Joined(got, id.Count())[j] == img.pix[j] {
      SlicePixel(img.pix, j);
    }
  }

  lemma CollectedSlices(s: State, id: Id, img: Image, order: seq<nat>, i: nat, c: Chunk)
    requires if order == [] then Restarts(s, id) else s == Collecting(id, Slices(img, order))
    requires c == Chunk(id, i, Slice(img.pix, i))
    ensures Collected(s, c) == Slices(img, order + [i])
  {
  }

  /** One more chunk, on top of the chunks `order`. */
  lemma AcceptOne(s: State, id: Id, img: Image, order: seq<nat>, i: nat, c: Chunk)
    requires Consistent(s) && Announces(id, img) && Indices(order + [i], id)
    requires if order == [] then Restarts(s, id) else s == Collecting(id, Slices(img, order))
    requires c == Chunk(id, i, Slice(img.pix, i)) && WellFormed(c)
    ensures Accept(s, c, true, true)
            == if Covers(order + [i], id.Count()) then (Idle, Complete(img))
               else (Collecting(id, Slices(img, order + [i])), More)
  {
    CollectedSlices(s, id, img, order, i, c);
    AcceptCollected(s, c, true, true);
    if Covers(order + [i], id.Count()) {
      SlicesRejoin(id, img, order + [i]);
    } else {
      NotCovered(id, img, order + [i]);
    }
  }

  lemma DeliverOne(s: State, id: Id, img: Image, order: seq<nat>, i: nat)
    requires Consistent(s) && Announces(id, img) && Indices(order + [i], id) && i < id.Count()
    requires if order == [] then Restarts(s, id) else s == Collecting(id, Slices(img, order))
    ensures Feed(s, Input(ChunkPayload(id, img.pix, i), true, true))
            == if Covers(order + [i], id.Count()) then (Idle, Complete(img))
               else (Collecting(id, Slices(img, order + [i])), More)
  {
    var c, input := Chunk(id, i, Slice(img.pix, i)), Input(ChunkPayload(id, img.pix, i), true, true);
    ChunkDecodes(id, img, i);
    FeedChunk(s, input, c);
    AcceptOne(s, id, img, order, i, c);
  }

  lemma NotCovered(id: Id, img: Image, order: seq<nat>)
    requires !Covers(order, id.Count())
    ensures !forall i :: 0 <= i < id.Count() ==> i in Slices(img, order)
  {
    var i :| 0 <= i < id.Count() && i !in order;
    assert i !in Slices(img, order);
  }

  lemma {:induction false} DeliveredSoFar(s: State, id: Id, img: Image, order: seq<nat>)
    requires Consistent(s) && Announces(id, img) && Indices(order, id) && Restarts(s, id)
    requires order != [] && !Covers(order, id.Count())
    ensures Deliver(s, id, img, order) == Collecting(id, Slices(img, order))
  {
    var last := |order| - 1;
    assert order == order[..last] + [order[last]];
    if last > 0 {
      assert forall i :: i in order[..last] ==> i in order;
      DeliveredSoFar(s, id, img, order[..last]);
    }
    DeliverOne(Deliver(s, id, img, order[..last]), id, img, order[..last], order[last]);
  }

  /** Chunks of an image, sent in any order with any repetitions, to a reassembler in any state
      that is not already collecting that frame: nothing is delivered until every index has
      occurred, and the chunk that completes the set delivers exactly the source image. */
  lemma {:induction false} AnyOrderDelivers(s: State, id: Id, img: Image, order: seq<nat>, i: nat)
    requires Consistent(s) && Announces(id, img) && Restarts(s, id)
    requires Indices(order, id) && i < id.Count() && !Covers(order, id.Count())
    ensures Feed(Deliver(s, id, img, order), Input(ChunkPayload(id, img.pix, i), true, true)).1
            == if Covers(order + [i], id.Count()) then Complete(img) else More
  {
    if order != [] {
      DeliveredSoFar(s, id, img, order);
    }
    DeliverOne(Deliver(s, id, img, order), id, img, order, i);
  }
}
