/** The firmware's packet builders and parser, firmware/telemetry.c, and what the server reads
    out of a SENSOR payload. */
module Telemetry {
  import opened Bytes
  import opened Checksum
  import opened Wire

  // ---- payload layouts of common/protocol.h -----------------------------------------

  function Pair(a: U32, b: U32): (p: seq<U8>)
    ensures |p| == 8
  {
    Big32(a) + Big32(b)
  }

  function SensorPayload(sequence: U32, timestamp: U32, temperature: I32, humidity: I32): (p: seq<U8>)
    ensures |p| == 16
  {
    Pair(sequence, timestamp) + Pair(Unsigned32(temperature), Unsigned32(humidity))
  }

  /** The sixteen bytes of a SENSOR payload. */
  lemma SensorBytes(sequence: U32, timestamp: U32, temperature: I32, humidity: I32, p: seq<U8>)
    requires p == SensorPayload(sequence, timestamp, temperature, humidity)
    ensures p[0..4] == Big32(sequence) && p[4..8] == Big32(timestamp)
    ensures p[8..12] == Big32(temperature % 0x1_0000_0000) && p[12..16] == Big32(humidity % 0x1_0000_0000)
  {
    CastExact(temperature);
    CastExact(humidity);
    FourFields(Big32(sequence), Big32(timestamp), Big32(Unsigned32(temperature)), Big32(Unsigned32(humidity)));
  }

  lemma FourFields(a: seq<U8>, b: seq<U8>, c: seq<U8>, d: seq<U8>)
    requires |a| == |b| == |c| == |d| == 4
    ensures var p := a + b + (c + d); p[0..4] == a && p[4..8] == b && p[8..12] == c && p[12..16] == d
  {
  }

  /** The cast to `uint32_t` is reduction modulo 2^32. */
  lemma CastExact(v: I32)
    ensures Unsigned32(v) == v % 0x1_0000_0000
  {
  }

  // ---- builders ---------------------------------------------------------------------

  /** Fills the header in front of a finished payload. */
  method PutHeader(out: array<U8>, kind: U8, deviceId: U32, plen: U16)
    requires HDR_SIZE + plen <= out.Length
    modifies out
    ensures out[..HDR_SIZE + plen] == Packet(kind, deviceId, old(out[HDR_SIZE..HDR_SIZE + plen]))
    ensures forall i :: HDR_SIZE <= i < out.Length ==> out[i] == old(out[i])
  {
    ghost var payload := out[HDR_SIZE..HDR_SIZE + plen];
    PutBig16(out, 0, MAGIC);
    out[2] := VERSION;
    out[3] := kind;
    PutBig32(out, 4, deviceId);
    PutBig16(out, 8, plen);
    assert out[HDR_SIZE..HDR_SIZE + plen] == payload;
    var check := Compute(out, HDR_SIZE, plen);
    PutBig16(out, 10, check);
    assert out[HDR_SIZE..HDR_SIZE + plen] == payload;
    assert out[0..2] == Big16(MAGIC) && out[4..8] == Big32(deviceId) && out[8..10] == Big16(plen);
    HeaderLaid(out[..HDR_SIZE + plen], kind, deviceId, payload, check);
  }

  lemma HeaderLaid(b: seq<U8>, kind: U8, deviceId: U32, payload: Payload, check: U16)
    requires |b| == HDR_SIZE + |payload| && b[HDR_SIZE..] == payload && check == Sum16(payload)
    requires b[0..2] == Big16(MAGIC) && b[2] == VERSION && b[3] == kind && b[4..8] == Big32(deviceId)
    requires b[8..10] == Big16(|payload|) && b[10..12] == Big16(check)
    ensures b == Packet(kind, deviceId, payload)
  {
    assert b == b[0..2] + [b[2], b[3]] + b[4..8] + b[8..10] + b[10..12] + b[HDR_SIZE..];
  }

  method PutPair(p: array<U8>, at: nat, a: U32, b: U32)
    requires at + 8 <= p.Length
    modifies p
    ensures p[at..at + 8] == Pair(a, b)
    ensures forall i :: 0 <= i < p.Length && !(at <= i < at + 8) ==> p[i] == old(p[i])
  {
    PutBig32(p, at, a);
    PutBig32(p, at + 4, b);
    assert p[at..at + 8] == p[at..at + 4] + p[at + 4..at + 8];
  }

  method PutQuad(p: array<U8>, at: nat, a: U32, b: U32, c: U32, d: U32)
    requires at + 16 <= p.Length
    modifies p
    ensures p[at..at + 16] == Pair(a, b) + Pair(c, d)
    ensures forall i :: 0 <= i < p.Length && !(at <= i < at + 16) ==> p[i] == old(p[i])
  {
    PutPair(p, at, a, b);
    label first:
    PutPair(p, at + 8, c, d);
    assert p[at..at + 8] == old@first(p[at..at + 8]);
    assert p[at..at + 16] == p[at..at + 8] + p[at + 8..at + 16];
  }

  method BuildSensor(out: array<U8>, cap: nat, deviceId: U32,
                     sequence: U32, timestamp: U32, temperature: I32, humidity: I32) returns (n: nat)
    requires cap <= out.Length
    modifies out
    ensures n == if HDR_SIZE + 16 <= cap then HDR_SIZE + 16 else 0
    ensures n > 0 ==> out[..n] == Packet(PKT_SENSOR, deviceId,
                                         SensorPayload(sequence, timestamp, temperature, humidity))
    ensures forall i :: n <= i < out.Length ==> out[i] == old(out[i])
  {
    if cap < HDR_SIZE + 16 {
      return 0;
    }
    PutQuad(out, HDR_SIZE, sequence, timestamp, Unsigned32(temperature), Unsigned32(humidity));
    PutHeader(out, PKT_SENSOR, deviceId, 16);
    return HDR_SIZE + 16;
  }

  method BuildPair(out: array<U8>, cap: nat, kind: U8, deviceId: U32, a: U32, b: U32) returns (n: nat)
    requires cap <= out.Length
    modifies out
    ensures n == if HDR_SIZE + 8 <= cap then HDR_SIZE + 8 else 0
    ensures n > 0 ==> out[..n] == Packet(kind, deviceId, Pair(a, b))
    ensures forall i :: n <= i < out.Length ==> out[i] == old(out[i])
  {
    if cap < HDR_SIZE + 8 {
      return 0;
    }
    PutPair(out, HDR_SIZE, a, b);
    PutHeader(out, kind, deviceId, 8);
    return HDR_SIZE + 8;
  }

  method BuildHello(out: array<U8>, cap: nat, deviceId: U32, firmware: U32, capabilities: U32) returns (n: nat)
    requires cap <= out.Length
    modifies out
    ensures n == if HDR_SIZE + 8 <= cap then HDR_SIZE + 8 else 0
    ensures n > 0 ==> out[..n] == Packet(PKT_HELLO, deviceId, Pair(firmware, capabilities))
    ensures forall i :: n <= i < out.Length ==> out[i] == old(out[i])
  {
    n := BuildPair(out, cap, PKT_HELLO, deviceId, firmware, capabilities);
  }

  method BuildHeartbeat(out: array<U8>, cap: nat, deviceId: U32, uptime: U32, freeHeap: U32) returns (n: nat)
    requires cap <= out.Length
    modifies out
    ensures n == if HDR_SIZE + 8 <= cap then HDR_SIZE + 8 else 0
    ensures n > 0 ==> out[..n] == Packet(PKT_HEARTBEAT, deviceId, Pair(uptime, freeHeap))
    ensures forall i :: n <= i < out.Length ==> out[i] == old(out[i])
  {
    n := BuildPair(out, cap, PKT_HEARTBEAT, deviceId, uptime, freeHeap);
  }

  // ---- the two ends agree -----------------------------------------------------------

  datatype RxHeader = RxHeader(kind: U8, deviceId: U32, payloadLen: U16, checksum: U16)

  /** The firmware accepts a header exactly if its magic and version are right, and then reads
      the same fields the server's parser reads. */
  method ParseHeaderFw(hdr: array<U8>) returns (ok: bool, rx: RxHeader)
    requires hdr.Length >= HDR_SIZE
    ensures var h := ReadHeader(hdr[..]);
            && (ok <==> h.magic == MAGIC && h.version == VERSION)
            && (ok ==> rx == RxHeader(h.kind, h.deviceId, h.payloadLen, h.checksum))
  {
    rx := RxHeader(0, 0, 0, 0);
    if Join8(hdr[0], hdr[1]) != MAGIC {
      return false, rx;
    }
    if hdr[2] != VERSION {
      return false, rx;
    }
    rx := RxHeader(hdr[3], Join16(Join8(hdr[4], hdr[5]), Join8(hdr[6], hdr[7])),
                   Join8(hdr[8], hdr[9]), Join8(hdr[10], hdr[11]));
    return true, rx;
  }

  /** The fields the worker takes from the first sixteen payload bytes. */
  datatype Reading = Reading(sequence: U32, temperature: I32, humidity: I32)

  function ReadSensor(p: seq<U8>): Reading
    requires |p| >= 16
  {
    Reading(ReadBig32(p, 0), Signed32(ReadBig32(p, 8)), Signed32(ReadBig32(p, 12)))
  }

  /** The server reads back what the firmware measured, negative temperatures included. */
  lemma SensorRoundTrip(sequence: U32, timestamp: U32, temperature: I32, humidity: I32, rest: seq<U8>)
    ensures ReadSensor(SensorPayload(sequence, timestamp, temperature, humidity) + rest)
         == Reading(sequence, temperature, humidity)
  {
    var p := SensorPayload(sequence, timestamp, temperature, humidity) + rest;
    assert p[0..4] == Big32(sequence);
    assert p[8..12] == Big32(Unsigned32(temperature));
    assert p[12..16] == Big32(Unsigned32(humidity));
    Big32Inverse(sequence, p, 0);
    Big32Inverse(Unsigned32(temperature), p, 8);
    Big32Inverse(Unsigned32(humidity), p, 12);
  }
}
