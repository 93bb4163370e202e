/** The wire format of common/protocol.h and the server's builder and parser, common/wire.c. */
module Wire {
  import opened Bytes
  import opened Checksum

  const MAGIC: U16 := 0x504C
  const VERSION: U8 := 0x01
  const HDR_SIZE := 12
  const MAX_PAYLOAD := 1100

  const PKT_HELLO: U8 := 0x01
  const PKT_HELLO_ACK: U8 := 0x02
  const PKT_SENSOR: U8 := 0x03
  const PKT_ACK: U8 := 0x04
  const PKT_HEARTBEAT: U8 := 0x05
  const PKT_FRAME: U8 := 0x06
  const PKT_ERROR: U8 := 0x07

  datatype Header = Header(magic: U16, version: U8, kind: U8, deviceId: U32, payloadLen: U16, checksum: U16)

  /** The twelve bytes of the packed header, every field in network byte order. */
  function HeaderBytes(h: Header): (b: seq<U8>)
    ensures |b| == HDR_SIZE
  {
    Big16(h.magic) + [h.version, h.kind] + Big32(h.deviceId) + Big16(h.payloadLen) + Big16(h.checksum)
  }

  function ReadHeader(b: seq<U8>): Header
    requires |b| >= HDR_SIZE
  {
    Header(ReadBig16(b, 0), b[2], b[3], ReadBig32(b, 4), ReadBig16(b, 8), ReadBig16(b, 10))
  }

  /** A payload whose length the 16-bit length field can carry. */
  type Payload = p: seq<U8> | |p| < 0x1_0000

  function PacketHeader(kind: U8, deviceId: U32, payload: Payload): Header {
    Header(MAGIC, VERSION, kind, deviceId, |payload|, Sum16(payload))
  }

  function Packet(kind: U8, deviceId: U32, payload: Payload): seq<U8> {
    HeaderBytes(PacketHeader(kind, deviceId, payload)) + payload
  }

  // ---- writing into buffers ---------------------------------------------------------

  /** `memcpy(dst + at, src, |src|)`. */
  method Copy(dst: array<U8>, at: nat, src: seq<U8>)
    requires at + |src| <= dst.Length
    modifies dst
    ensures dst[at..at + |src|] == src
    ensures forall i :: 0 <= i < dst.Length && !(at <= i < at + |src|) ==> dst[i] == old(dst[i])
  {
    for k := 0 to |src|
      invariant forall i :: 0 <= i < k ==> dst[at + i] == src[i]
      invariant forall i :: 0 <= i < dst.Length && !(at <= i < at + k) ==> dst[i] == old(dst[i])
    {
      dst[at + k] := src[k];
    }
  }

  method PutBig16(p: array<U8>, at: nat, v: U16)
    requires at + 2 <= p.Length
    modifies p
    ensures p[at..at + 2] == Big16(v)
    ensures forall i :: 0 <= i < p.Length && !(at <= i < at + 2) ==> p[i] == old(p[i])
  {
    p[at] := v / 0x100;
    p[at + 1] := v % 0x100;
  }

  method PutBig32(p: array<U8>, at: nat, v: U32)
    requires at + 4 <= p.Length
    modifies p
    ensures p[at..at + 4] == Big32(v)
    ensures forall i :: 0 <= i < p.Length && !(at <= i < at + 4) ==> p[i] == old(p[i])
  {
    p[at] := v / 0x100_0000;
    p[at + 1] := v / 0x1_0000 % 0x100;
    p[at + 2] := v / 0x100 % 0x100;
    p[at + 3] := v % 0x100;
    Shifts32(v);
  }

  // ---- builder and parser -----------------------------------------------------------

  /** Builds a packet into `out`, or returns 0 and writes nothing when it does not fit. */
  method Build(out: array<U8>, cap: nat, kind: U8, deviceId: U32, payload: array<U8>, plen: U16)
    returns (n: nat)
    requires cap <= out.Length && plen <= payload.Length && out != payload
    modifies out
    ensures n == if HDR_SIZE + plen <= cap then HDR_SIZE + plen else 0
    ensures n > 0 ==> out[..n] == Packet(kind, deviceId, payload[..plen])
    ensures forall i :: n <= i < out.Length ==> out[i] == old(out[i])
  {
    var total := HDR_SIZE + plen;
    if total > cap {
      return 0;
    }
    var check := Compute(payload, 0, plen);
    var h := Header(MAGIC, VERSION, kind, deviceId, plen, check);
    Copy(out, 0, HeaderBytes(h));
    assert out[..HDR_SIZE] == HeaderBytes(h);
    label filled:
    Copy(out, HDR_SIZE, payload[..plen]);
    assert out[..HDR_SIZE] == old@filled(out[..HDR_SIZE]);
    assert payload[0..plen] == payload[..plen];
    assert out[..total] == out[..HDR_SIZE] + out[HDR_SIZE..total];
    return total;
  }

  method ParseHeader(hdr: array<U8>) returns (h: Header)
    requires hdr.Length == HDR_SIZE
    ensures HeaderBytes(h) == hdr[..]
  {
    h := Header(
      Join8(hdr[0], hdr[1]), hdr[2], hdr[3],
      Join16(Join8(hdr[4], hdr[5]), Join8(hdr[6], hdr[7])),
      Join8(hdr[8], hdr[9]), Join8(hdr[10], hdr[11]));
    assert h == ReadHeader(hdr[..]);
    HeaderOfBytes(hdr[..]);
  }

  // ---- the two are inverse ----------------------------------------------------------

  lemma HeaderFields(h: Header, b: seq<U8>)
    requires |b| >= HDR_SIZE && b[..HDR_SIZE] == HeaderBytes(h)
    ensures b[0..2] == Big16(h.magic) && b[2] == h.version && b[3] == h.kind
    ensures b[4..8] == Big32(h.deviceId) && b[8..10] == Big16(h.payloadLen) && b[10..12] == Big16(h.checksum)
  {
    var c := b[..HDR_SIZE];
    assert c == HeaderBytes(h);
    assert b[0..2] == c[0..2] && b[4..8] == c[4..8] && b[8..10] == c[8..10] && b[10..12] == c[10..12];
    assert c[2] == b[2] && c[3] == b[3];
  }

  /** Reading the header of any buffer that starts with a header's bytes gives it back. */
  lemma HeaderRoundTrip(h: Header, b: seq<U8>)
    requires |b| >= HDR_SIZE && b[..HDR_SIZE] == HeaderBytes(h)
    ensures ReadHeader(b) == h
  {
    HeaderFields(h, b);
    Big16Inverse(h.magic, b, 0);
    Big32Inverse(h.deviceId, b, 4);
    Big16Inverse(h.payloadLen, b, 8);
    Big16Inverse(h.checksum, b, 10);
  }

  /** Every twelve bytes are the header they read as: parsing loses nothing. */
  lemma HeaderOfBytes(b: seq<U8>)
    requires |b| == HDR_SIZE
    ensures HeaderBytes(ReadHeader(b)) == b
  {
    var h := ReadHeader(b);
    Big16Inverse(h.magic, b, 0);
    Big32Inverse(h.deviceId, b, 4);
    Big16Inverse(h.payloadLen, b, 8);
    Big16Inverse(h.checksum, b, 10);
    assert b == b[0..2] + [b[2], b[3]] + b[4..8] + b[8..10] + b[10..12];
  }

  /** What the receiver of a built packet sees: its fields, its payload and a checksum that
      matches. */
  lemma PacketRoundTrip(kind: U8, deviceId: U32, payload: Payload)
    ensures var b := Packet(kind, deviceId, payload);
            && |b| == HDR_SIZE + |payload|
            && ReadHeader(b) == PacketHeader(kind, deviceId, payload)
            && b[HDR_SIZE..] == payload
            && Sum16(b[HDR_SIZE..]) == ReadHeader(b).checksum
  {
    HeaderRoundTrip(PacketHeader(kind, deviceId, payload), Packet(kind, deviceId, payload));
  }
}
