/** The chunked frame transfer of imaging/frame.c: the chunk format, and the reassembler as a
    specification over the chunks received so far. */
module Frame {
  import opened Bytes
  import opened Options

  const FRAME_HDR := 12
  const CHUNK_MAX := 1024
  const MAX_PIXELS := 0x40_0000

  /** An 8-bit grayscale image, row by row. */
  datatype Image = Image(w: nat, h: nat, pix: seq<U8>)

  /** Where row `y` begins: `y * w`, added up row by row. */
  function RowStart(w: nat, y: nat): nat {
    if y == 0 then 0 else RowStart(w, y - 1) + w
  }

  lemma {:induction false} RowStartExact(w: nat, y: nat)
    ensures RowStart(w, y) == y * w
  {
    if y > 0 {
      RowStartExact(w, y - 1);
      assert (y - 1) * w + w == y * w;
    }
  }

  /** What makes two chunks belong to the same frame. */
  datatype Id = Id(width: U16, height: U16, sequence: U32) {
    function Total(): nat {
      RowStart(width, height)
    }

    function Count(): nat {
      ChunkCount(Total())
    }

    predicate Legal() {
      width > 0 && height > 0 && Total() <= MAX_PIXELS
    }
  }

  /** As many chunks of 1024 bytes as it takes, counted one by one. */
  function Chunks(total: nat): nat {
    if total == 0 then 0 else 1 + Chunks(if total <= 1024 then 0 else total - 1024)
  }

  lemma {:induction false} ChunksExact(total: nat)
    ensures Chunks(total) == (total + 1023) / 1024
  {
    if total > 1024 {
      ChunksExact(total - 1024);
    }
  }

  /** A 16-bit result, as in the source. */
  function ChunkCount(total: nat): U16 {
    Chunks(total) % 0x1_0000
  }

  /** The formula of `frame_chunk_count`, in 32 bits: it does not wrap for any width and height. */
  lemma CountFormula(total: nat)
    requires total <= 0xFFFF * 0xFFFF
    ensures ChunkCount(total) == (total + 1023) % 0x1_0000_0000 / 1024 % 0x1_0000
  {
    ChunksExact(total);
  }

  function ChunkLen(total: nat, index: nat): nat
    requires index * 1024 <= total
  {
    if total - index * 1024 > 1024 then 1024 else total - index * 1024
  }

  /** The pixels of chunk `i`. */
  function Slice(pix: seq<U8>, i: nat): seq<U8> {
    if i * 1024 <= |pix| then pix[i * 1024..i * 1024 + ChunkLen(|pix|, i)] else []
  }

  lemma SlicePixel(pix: seq<U8>, j: nat)
    requires j < |pix|
    ensures j % 1024 < |Slice(pix, j / 1024)|
    ensures Slice(pix, j / 1024)[j % 1024] == pix[j]
  {
  }

  datatype Chunk = Chunk(id: Id, index: nat, bytes: seq<U8>)

  ghost predicate WellFormed(c: Chunk) {
    && c.id.Legal()
    && c.index < c.id.Count()
    && c.index * 1024 < c.id.Total()
    && |c.bytes| == ChunkLen(c.id.Total(), c.index)
  }

  /** For a legal total the chunk count is the rounded-up quotient, and every chunk index below
      it starts inside the image: the source's check `off >= total` can never fire. */
  lemma CountBounds(total: nat, index: nat)
    requires 0 < total <= MAX_PIXELS
    ensures ChunkCount(total) == (total + 1023) / 1024 > 0
    ensures index < ChunkCount(total) <==> index * 1024 < total
  {
    ChunksExact(total);
    assert (total + 1023) / 1024 <= 4096;
  }

  // ---- the chunk format -------------------------------------------------------------

  function FrameHeader(id: Id, index: U16, count: U16): (b: seq<U8>)
    ensures |b| == FRAME_HDR
  {
    Big16(id.width) + Big16(id.height) + Big32(id.sequence) + Big16(index) + Big16(count)
  }

  /** The fields of a chunk of `len` bytes are in order. */
  predicate Passes(id: Id, index: U16, count: U16, len: nat) {
    && id.width != 0 && id.height != 0 && count != 0
    && id.Total() <= MAX_PIXELS
    && id.Count() == count
    && index < count
    && index * 1024 < id.Total()
    && len == ChunkLen(id.Total(), index)
  }

  /** The validation at the head of frame_asm_feed; `None` is its early `return -1`. */
  function Decode(p: seq<U8>): Option<Chunk> {
    if |p| < 12 then None else
    var id := Id(ReadBig16(p, 0), ReadBig16(p, 2), ReadBig32(p, 4));
    var index := ReadBig16(p, 8);
    if Passes(id, index, ReadBig16(p, 10), |p| - 12) then Some(Chunk(id, index, p[12..])) else None
  }

  /** A payload is accepted exactly if it is the encoding of some well-formed chunk, and it is
      then decoded to that chunk. */
  lemma DecodeExact(p: seq<U8>, c: Chunk)
    ensures Decode(p) == Some(c) <==>
            WellFormed(c) && p == FrameHeader(c.id, c.index, c.id.Count()) + c.bytes
  {
    if Decode(p) == Some(c) {
      CountBounds(c.id.Total(), c.index);
      HeaderSpelled(p, c.id, c.index, c.id.Count());
      assert p == p[..12] + p[12..];
    } else if WellFormed(c) && p == FrameHeader(c.id, c.index, c.id.Count()) + c.bytes {
      CountBounds(c.id.Total(), c.index);
      assert p[..12] == FrameHeader(c.id, c.index, c.id.Count()) && p[12..] == c.bytes;
      HeaderSpelled(p, c.id, c.index, c.id.Count());
    }
  }

  lemma HeaderSpelled(p: seq<U8>, id: Id, index: U16, count: U16)
    requires |p| >= 12
    ensures p[..12] == FrameHeader(id, index, count) <==>
            && ReadBig16(p, 0) == id.width && ReadBig16(p, 2) == id.height && ReadBig32(p, 4) == id.sequence
            && ReadBig16(p, 8) == index && ReadBig16(p, 10) == count
  {
    Big16Inverse(id.width, p, 0);
    Big16Inverse(id.height, p, 2);
    Big32Inverse(id.sequence, p, 4);
    Big16Inverse(index, p, 8);
    Big16Inverse(count, p, 10);
    assert p[..12] == p[0..2] + p[2..4] + p[4..8] + p[8..10] + p[10..12];
    if p[..12] == FrameHeader(id, index, count) {
      var b := FrameHeader(id, index, count);
      assert b[0..2] == Big16(id.width) && b[2..4] == Big16(id.height) && b[4..8] == Big32(id.sequence);
      assert b[8..10] == Big16(index) && b[10..12] == Big16(count);
    }
  }

  // ---- specification of the reassembler ---------------------------------------------

  /** The frame being collected and, for every chunk index received, its latest bytes. */
  datatype State = Idle | Collecting(id: Id, got: map<nat, seq<U8>>)

  datatype Result = Rejected | More | Complete(image: Image)

  /** One call: a payload, and whether the two allocations succeed if they are made. */
  datatype Input = Input(payload: seq<U8>, bufferOk: bool, imageOk: bool)

  /** The chunks below `n`, joined. */
  function Joined(got: map<nat, seq<U8>>, n: nat): seq<U8>
    requires forall i :: 0 <= i < n ==> i in got
  {
    if n == 0 then [] else Joined(got, n - 1) + got[n - 1]
  }

  ghost predicate Consistent(s: State) {
    s.Collecting? ==>
      && s.id.Legal()
      && |s.got| < s.id.Count()
      && forall i :: i in s.got ==> WellFormed(Chunk(s.id, i, s.got[i]))
  }

  predicate Restarts(s: State, id: Id) {
    s.Idle? || s.id != id
  }

  function Collected(s: State, c: Chunk): map<nat, seq<U8>> {
    (if Restarts(s, c.id) then map[] else s.got)[c.index := c.bytes]
  }

  /** Taking in a well-formed chunk. */
  function Accept(s: State, c: Chunk, bufferOk: bool, imageOk: bool): (out: (State, Result))
    requires Consistent(s) && WellFormed(c)
    ensures Consistent(out.0)
  {
    if Restarts(s, c.id) && !bufferOk then (Idle, Rejected) else
    var got := Collected(s, c);
    CollectedIsConsistent(s, c);
    if |got| < c.id.Count() then (Collecting(c.id, got), More) else
    AllCollected(got, c.id.Count());
    if !imageOk then (Idle, Rejected) else
    (Idle, Complete(Image(c.id.width, c.id.height, Joined(got, c.id.Count()))))
  }

  function Feed(s: State, input: Input): (out: (State, Result))
    requires Consistent(s)
    ensures Consistent(out.0)
  {
    match Decode(input.payload)
    case None => (s, Rejected)
    case Some(c) =>
      DecodeExact(input.payload, c);
      Accept(s, c, input.bufferOk, input.imageOk)
  }

  lemma CollectedIsConsistent(s: State, c: Chunk)
    requires Consistent(s) && WellFormed(c)
    ensures forall i :: i in Collected(s, c) ==> WellFormed(Chunk(c.id, i, Collected(s, c)[i]))
    ensures |Collected(s, c)| <= c.id.Count()
  {
    var got := Collected(s, c);
    assert got.Keys <= Below(c.id.Count());
    SubsetSize(got.Keys, Below(c.id.Count()));
  }

  function Below(n: nat): (s: set<nat>)
    ensures |s| == n
    ensures forall i: nat :: i in s <==> i < n
  {
    if n == 0 then {} else Below(n - 1) + {n - 1}
  }

  lemma {:induction false} SubsetSize(a: set<nat>, b: set<nat>)
    requires a <= b
    ensures |a| <= |b|
    ensures |a| == |b| ==> a == b
    decreases a
  {
    if a != {} {
      var x :| x in a;
      SubsetSize(a - {x}, b - {x});
    }
  }

  /** As many chunks as the frame has are all the chunks of the frame. */
  lemma AllCollected(got: map<nat, seq<U8>>, n: nat)
    requires forall i :: i in got ==> i < n
    ensures |got| >= n <==> forall i :: 0 <= i < n ==> i in got
  {
    assert |got.Keys| == |got| && got.Keys <= Below(n);
    SubsetSize(got.Keys, Below(n));
    if |got| >= n {
      forall i | 0 <= i < n ensures i in got {
        assert got.Keys == Below(n) && i in Below(n);
      }
    }
    if forall i :: 0 <= i < n ==> i in got {
      assert Below(n) <= got.Keys;
      SubsetSize(Below(n), got.Keys);
    }
  }

  /** Pixel `j` of a joined frame is byte `j % 1024` of chunk `j / 1024`. */
  lemma {:induction false} JoinedPixel(id: Id, got: map<nat, seq<U8>>, n: nat, j: nat)
    requires id.Legal() && n <= id.Count()
    requires forall i :: 0 <= i < n ==> i in got && WellFormed(Chunk(id, i, got[i]))
    ensures |Joined(got, n)| == if n * 1024 <= id.Total() then n * 1024 else id.Total()
    ensures j < |Joined(got, n)| ==> j / 1024 < n && j % 1024 < |got[j / 1024]|
                                     && Joined(got, n)[j] == got[j / 1024][j % 1024]
  {
    if n > 0 {
      JoinedPixel(id, got, n - 1, j);
      CountBounds(id.Total(), n - 1);
    }
  }

  /** A frame with all its chunks joined has a byte for every pixel. */
  lemma {:induction false} WholeFrame(id: Id, got: map<nat, seq<U8>>)
    requires id.Legal()
    requires forall i :: 0 <= i < id.Count() ==> i in got && WellFormed(Chunk(id, i, got[i]))
    ensures |Joined(got, id.Count())| == id.Total()
    ensures forall j :: 0 <= j < id.Total() ==>
              && j / 1024 < id.Count()
              && j % 1024 < |got[j / 1024]|
              && Joined(got, id.Count())[j] == got[j / 1024][j % 1024]
  {
    CountBounds(id.Total(), id.Count());
    JoinedPixel(id, got, id.Count(), 0);
    forall j | 0 <= j < id.Total()
      ensures j / 1024 < id.Count() && j % 1024 < |got[j / 1024]|
              && Joined(got, id.Count())[j] == got[j / 1024][j % 1024]
    {
      JoinedPixel(id, got, id.Count(), j);
    }
  }

  /** What accepting a chunk does, once buffers are available. */
  lemma AcceptCollected(s: State, c: Chunk, bufferOk: bool, imageOk: bool)
    requires Consistent(s) && WellFormed(c) && (bufferOk || !Restarts(s, c.id))
    ensures var got := Collected(s, c);
            var complete := forall i :: 0 <= i < c.id.Count() ==> i in got;
            && (complete <==> |got| >= c.id.Count())
            && Accept(s, c, bufferOk, imageOk)
               == if !complete then (Collecting(c.id, got), More)
                  else if !imageOk then (Idle, Rejected)
                  else (Idle, Complete(Image(c.id.width, c.id.height, Joined(got, c.id.Count()))))
  {
    CollectedIsConsistent(s, c);
    AllCollected(Collected(s, c), c.id.Count());
  }
}
