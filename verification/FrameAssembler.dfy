/** The chunk builder and the reassembler of imaging/frame.c, on buffers. */
module FrameAssembler {
  import opened Bytes
  import opened Options
  import opened Checksum
  import opened Wire
  import opened Frame

  /** Builds one PKT_FRAME packet into `out`, or returns 0 when the chunk is oversized or the
      buffer too small. */
  method BuildChunk(out: array<U8>, cap: nat, deviceId: U32, id: Id, index: U16, count: U16, chunk: seq<U8>)
    returns (n: nat)
    requires cap <= out.Length && |chunk| < 0x1_0000
    modifies out
    ensures n == if |chunk| <= CHUNK_MAX && HDR_SIZE + FRAME_HDR + |chunk| <= cap
                 then HDR_SIZE + FRAME_HDR + |chunk| else 0
    ensures n > 0 ==> out[..n] == Packet(PKT_FRAME, deviceId, FrameHeader(id, index, count) + chunk)
    ensures forall i :: n <= i < out.Length ==> out[i] == old(out[i])
  {
    if |chunk| > CHUNK_MAX {
      return 0;
    }
    var plen: U16 := FRAME_HDR + |chunk|;
    if cap < HDR_SIZE + plen {
      return 0;
    }
    PutFrameHeader(out, id, index, count);
    Copy(out, HDR_SIZE + FRAME_HDR, chunk);
    ghost var payload := FrameHeader(id, index, count) + chunk;
    assert out[HDR_SIZE..HDR_SIZE + plen] == payload by {
      assert out[HDR_SIZE..HDR_SIZE + FRAME_HDR] == FrameHeader(id, index, count);
      assert out[HDR_SIZE..HDR_SIZE + plen]
          == out[HDR_SIZE..HDR_SIZE + FRAME_HDR] + out[HDR_SIZE + FRAME_HDR..HDR_SIZE + plen];
    }
    var check := Compute(out, HDR_SIZE, plen);
    label filled:
    Copy(out, 0, HeaderBytes(Header(MAGIC, VERSION, PKT_FRAME, deviceId, plen, check)));
    assert out[HDR_SIZE..HDR_SIZE + plen] == old@filled(out[HDR_SIZE..HDR_SIZE + plen]);
    assert out[..HDR_SIZE + plen] == out[0..HDR_SIZE] + out[HDR_SIZE..HDR_SIZE + plen];
    return HDR_SIZE + plen;
  }

  method PutFrameHeader(out: array<U8>, id: Id, index: U16, count: U16)
    requires HDR_SIZE + FRAME_HDR <= out.Length
    modifies out
    ensures out[HDR_SIZE..HDR_SIZE + FRAME_HDR] == FrameHeader(id, index, count)
    ensures forall i :: 0 <= i < out.Length && !(HDR_SIZE <= i < HDR_SIZE + FRAME_HDR) ==> out[i] == old(out[i])
  {
    PutBig16(out, HDR_SIZE, id.width);
    PutBig16(out, HDR_SIZE + 2, id.height);
    PutBig32(out, HDR_SIZE + 4, id.sequence);
    PutBig16(out, HDR_SIZE + 8, index);
    PutBig16(out, HDR_SIZE + 10, count);
    assert out[12..14] == Big16(id.width) && out[14..16] == Big16(id.height) && out[16..20] == Big32(id.sequence);
    assert out[20..22] == Big16(index);
    assert out[12..24] == out[12..14] + out[14..16] + out[16..20] + out[20..22] + out[22..24];
  }

  /** The result of a call, as its return value and output image tell it. */
  function Outcome(r: int, image: Image): Result {
    if r == 1 then Complete(image) else if r == 0 then More else Rejected
  }

  /** The chunks flagged as received, cut out of the pixel buffer. */
  ghost function Flagged(seen: seq<bool>, pix: seq<U8>): map<nat, seq<U8>> {
    map i: nat | i < |seen| && seen[i] :: Slice(pix, i)
  }

  /** Copying a chunk to its place and flagging it replaces that chunk and no other. */
  lemma StoreChunk(seen: seq<bool>, pix: seq<U8>, after: seq<U8>, index: nat, chunk: seq<U8>)
    requires index < |seen| && |pix| == |after| && index * 1024 <= |pix|
    requires |chunk| == ChunkLen(|pix|, index)
    requires after[index * 1024..index * 1024 + |chunk|] == chunk
    requires forall i :: 0 <= i < |pix| && !(index * 1024 <= i < index * 1024 + |chunk|) ==> after[i] == pix[i]
    ensures Flagged(seen[index := true], after) == Flagged(seen, pix)[index := chunk]
  {
    forall i: nat | i < |seen| && i != index && i * 1024 <= |pix| ensures Slice(after, i) == Slice(pix, i) {
    }
    assert Slice(after, index) == chunk;
  }

  /** The number of flags set, before and after setting one. */
  lemma FlagCount(seen: seq<bool>, pix: seq<U8>, index: nat, chunk: seq<U8>)
    requires index < |seen| && index * 1024 <= |pix|
    ensures |Flagged(seen, pix)[index := chunk]| == |Flagged(seen, pix)| + if seen[index] then 0 else 1
    ensures |Flagged(seen, pix)[index := chunk]| <= |seen|
  {
    var got := Flagged(seen, pix);
    assert got[index := chunk].Keys == got.Keys + {index};
    assert got[index := chunk].Keys <= Below(|seen|);
    SubsetSize(got[index := chunk].Keys, Below(|seen|));
  }

  lemma FlagBound(seen: seq<bool>, pix: seq<U8>)
    ensures |Flagged(seen, pix)| <= |seen|
  {
    assert Flagged(seen, pix).Keys <= Below(|seen|);
    SubsetSize(Flagged(seen, pix).Keys, Below(|seen|));
  }

  lemma FlaggedIsConsistent(id: Id, seen: seq<bool>, pix: seq<U8>)
    requires id.Legal() && |seen| == id.Count() && |pix| == id.Total()
    ensures forall i :: i in Flagged(seen, pix) ==> WellFormed(Chunk(id, i, Flagged(seen, pix)[i]))
  {
    forall i | i in Flagged(seen, pix) ensures WellFormed(Chunk(id, i, Flagged(seen, pix)[i])) {
      CountBounds(id.Total(), i);
    }
  }

  /** A pixel buffer whose chunks are all flagged is the frame they join to. */
  lemma BufferIsFrame(id: Id, seen: seq<bool>, pix: seq<U8>)
    requires id.Legal() && |seen| == id.Count() && |pix| == id.Total()
    requires |Flagged(seen, pix)| == id.Count()
    ensures forall i :: 0 <= i < id.Count() ==> i in Flagged(seen, pix)
    ensures Joined(Flagged(seen, pix), id.Count()) == pix
  {
    var got := Flagged(seen, pix);
    FlaggedIsConsistent(id, seen, pix);
    AllCollected(got, id.Count());
    WholeFrame(id, got);
    forall j | 0 <= j < |pix| ensures Joined(got, id.Count())[j] == pix[j] {
      SlicePixel(pix, j);
    }
  }

  /** The checks at the head of the reassembler, field by field. */
  method ReadChunk(payload: array<U8>, payloadLen: U16) returns (ok: bool, id: Id, index: U16)
    requires payloadLen <= payload.Length
    ensures ok <==> Decode(payload[..payloadLen]).Some?
    ensures ok ==> payloadLen >= 12
                   && Decode(payload[..payloadLen]) == Some(Chunk(id, index, payload[12..payloadLen]))
  {
    id, index := Id(0, 0, 0), 0;
    ghost var p := payload[..payloadLen];
    if payloadLen < 12 {
      return false, id, index;
    }
    var width, height := Join8(payload[0], payload[1]), Join8(payload[2], payload[3]);
    var fseq := Join16(Join8(payload[4], payload[5]), Join8(payload[6], payload[7]));
    var cidx, ccount := Join8(payload[8], payload[9]), Join8(payload[10], payload[11]);
    assert width == ReadBig16(p, 0) && height == ReadBig16(p, 2) && fseq == ReadBig32(p, 4);
    assert cidx == ReadBig16(p, 8) && ccount == ReadBig16(p, 10);
    assert p[12..] == payload[12..payloadLen];
    id, index := Id(width, height, fseq), cidx;
    ok := CheckFields(width, height, fseq, cidx, ccount, payloadLen - 12);
  }

  method CheckFields(width: U16, height: U16, fseq: U32, cidx: U16, ccount: U16, chunkLen: nat) returns (ok: bool)
    ensures ok <==> Passes(Id(width, height, fseq), cidx, ccount, chunkLen)
  {
    if width == 0 || height == 0 || ccount == 0 {
      return false;
    }
    var total := width * height;
    RowStartExact(width, height);
    if total > MAX_PIXELS {
      return false;
    }
    CountFormula(total);
    if (total + 1023) % 0x1_0000_0000 / 1024 % 0x1_0000 != ccount {
      return false;
    }
    if cidx >= ccount {
      return false;
    }
    var off := cidx * 1024;
    if off >= total {
      return false;
    }
    var expected := total - off;
    if expected > CHUNK_MAX {
      expected := CHUNK_MAX;
    }
    return chunkLen == expected;
  }

  class Assembler {
    var active: bool
    var width: U16
    var height: U16
    var chunkCount: U16
    var received: U16
    var frameSeq: U32
    var total: U32
    var buf: array?<U8>
    var seen: array?<bool>

    ghost function Ident(): Id
      reads this
    {
      Id(width, height, frameSeq)
    }

    /** Buffers, flags and counter agree: the counter counts the flags that are set. */
    ghost predicate Sound()
      reads this, buf, seen
    {
      && active && buf != null && seen != null
      && Ident().Legal() && total == Ident().Total() && chunkCount == Ident().Count()
      && buf.Length == total && seen.Length == chunkCount
      && received == |Flagged(seen[..], buf[..])|
    }

    ghost predicate Valid()
      reads this, buf, seen
    {
      active ==> Sound() && received < chunkCount
    }

    ghost function Abs(): (s: State)
      requires Valid()
      reads this, buf, seen
      ensures Consistent(s)
    {
      if active then
        FlaggedIsConsistent(Ident(), seen[..], buf[..]);
        Collecting(Ident(), Flagged(seen[..], buf[..]))
      else Idle
    }

    constructor ()
      ensures Valid() && Abs() == Idle && buf == null && seen == null
    {
      active, width, height, chunkCount, received, frameSeq, total := false, 0, 0, 0, 0, 0, 0;
      buf, seen := null, null;
    }

    method Reset()
      modifies this
      ensures Valid() && Abs() == Idle && buf == null && seen == null
    {
      active, width, height, chunkCount, received, frameSeq, total := false, 0, 0, 0, 0, 0, 0;
      buf, seen := null, null;
    }

    /** A new frame: an uninitialised pixel buffer and cleared flags. */
    method Start(id: Id)
      requires id.Legal()
      modifies this
      ensures Sound() && fresh(buf) && fresh(seen)
      ensures Ident() == id && Flagged(seen[..], buf[..]) == map[]
    {
      CountBounds(id.Total(), 0);
      buf := new U8[id.Total()];
      seen := new bool[id.Count()](_ => false);
      active, width, height, frameSeq := true, id.width, id.height, id.sequence;
      chunkCount, total, received := id.Count(), id.Total(), 0;
      assert Flagged(seen[..], buf[..]) == map[];
    }

    /** Starts or restarts a frame when idle or when the identity changed. */
    method Prepare(id: Id, bufferOk: bool) returns (ready: bool)
      requires Valid() && id.Legal()
      modifies this
      ensures ready <==> bufferOk || !Restarts(old(Abs()), id)
      ensures !ready ==> Valid() && Abs() == Idle && buf == null && seen == null
      ensures ready ==> Sound() && Ident() == id
      ensures ready && !Restarts(old(Abs()), id) ==> unchanged(this)
      ensures ready && Restarts(old(Abs()), id) ==> fresh(buf) && fresh(seen) && Flagged(seen[..], buf[..]) == map[]
    {
      if !active || frameSeq != id.sequence || width != id.width || height != id.height {
        Reset();
        if !bufferOk {
          return false;
        }
        Start(id);
      }
      return true;
    }

    method Store(index: nat, chunk: seq<U8>)
      requires Sound() && index < chunkCount && index * 1024 <= total && |chunk| == ChunkLen(total, index)
      modifies `received, buf, seen
      ensures Sound()
      ensures Flagged(seen[..], buf[..]) == old(Flagged(seen[..], buf[..]))[index := chunk]
    {
      ghost var flags, pix := seen[..], buf[..];
      FlagCount(flags, pix, index, chunk);
      if !seen[index] {
        seen[index] := true;
        received := received + 1;
      }
      Copy(buf, index * 1024, chunk);
      assert seen[..] == flags[index := true];
      StoreChunk(flags, pix, buf[..], index, chunk);
    }

    /** All chunks are in: the frame's pixels, and the reassembler idle again. */
    method Finish(imageOk: bool) returns (r: int, image: Image)
      requires Sound() && received == chunkCount
      modifies this
      ensures Valid() && Abs() == Idle && buf == null && seen == null && -1 <= r <= 1
      ensures forall i :: 0 <= i < old(chunkCount) ==> i in old(Flagged(seen[..], buf[..]))
      ensures Outcome(r, image) == if imageOk
              then Complete(Image(old(width), old(height), Joined(old(Flagged(seen[..], buf[..])), old(chunkCount))))
              else Rejected
    {
      BufferIsFrame(Ident(), seen[..], buf[..]);
      if !imageOk {
        Reset();
        return -1, Image(0, 0, []);
      }
      image := Image(width, height, buf[..]);
      Reset();
      r := 1;
    }

    /** Takes in one chunk of the current frame. */
    method Advance(index: nat, chunk: seq<U8>, imageOk: bool) returns (r: int, image: Image)
      requires Sound() && index < chunkCount && index * 1024 <= total && |chunk| == ChunkLen(total, index)
      modifies this, buf, seen
      ensures Valid() && (buf == old(buf) || buf == null) && (seen == old(seen) || seen == null)
      ensures -1 <= r <= 1
      ensures var got := old(Flagged(seen[..], buf[..]))[index := chunk];
              && (|got| < old(chunkCount) ==> r == 0 && Abs() == Collecting(old(Ident()), got))
              && (|got| >= old(chunkCount) ==>
                    && Abs() == Idle
                    && (forall i :: 0 <= i < old(chunkCount) ==> i in got)
                    && Outcome(r, image) == if !imageOk then Rejected
                                            else Complete(Image(old(width), old(height), Joined(got, old(chunkCount)))))
    {
      Store(index, chunk);
      if received == chunkCount {
        r, image := Finish(imageOk);
      } else {
        FlagBound(seen[..], buf[..]);
        r, image := 0, Image(0, 0, []);
      }
    }

    method Take(id: Id, index: nat, chunk: seq<U8>, bufferOk: bool, imageOk: bool) returns (r: int, image: Image)
      requires Valid() && WellFormed(Chunk(id, index, chunk))
      modifies this, buf, seen
      ensures Valid()
      ensures (buf == old(buf) || buf == null || fresh(buf)) && (seen == old(seen) || seen == null || fresh(seen))
      ensures -1 <= r <= 1
      ensures (Abs(), Outcome(r, image)) == Accept(old(Abs()), Chunk(id, index, chunk), bufferOk, imageOk)
    {
      ghost var before, c := Abs(), Chunk(id, index, chunk);
      var ready := Prepare(id, bufferOk);
      if !ready {
        return -1, Image(0, 0, []);
      }
      assert Flagged(seen[..], buf[..])[index := chunk] == Collected(before, c);
      r, image := Advance(index, chunk, imageOk);
      AcceptCollected(before, c, bufferOk, imageOk);
    }

    /** Feeds one payload: -1 for a rejected chunk, 0 if more chunks are needed, 1 with the
        image for the chunk that completes the frame. The two flags say whether the allocations
        of the pixel buffers and of the image succeed. */
    method Feed(payload: array<U8>, payloadLen: U16, bufferOk: bool, imageOk: bool) returns (r: int, image: Image)
      requires Valid() && payloadLen <= payload.Length && payload != buf
      modifies this, buf, seen
      ensures Valid()
      ensures (buf == old(buf) || buf == null || fresh(buf)) && (seen == old(seen) || seen == null || fresh(seen))
      ensures -1 <= r <= 1
      ensures (Abs(), Outcome(r, image)) == Frame.Feed(old(Abs()), Input(payload[..payloadLen], bufferOk, imageOk))
      ensures var result := Frame.Feed(old(Abs()), Input(payload[..payloadLen], bufferOk, imageOk)).1;
              r == if result.Rejected? then -1 else if result.More? then 0 else 1
    {
      var ok, id, index := ReadChunk(payload, payloadLen);
      if !ok {
        return -1, Image(0, 0, []);
      }
      DecodeExact(payload[..payloadLen], Chunk(id, index, payload[12..payloadLen]));
      r, image := Take(id, index, payload[12..payloadLen], bufferOk, imageOk);
    }
  }
}
