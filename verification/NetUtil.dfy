/** Exact-count reads and writes over a byte stream, common/netutil.c. What the kernel delivers is
    a finite script of receive events; the stream of marks is what is left of it when the cuts
    between segments and the interrupted calls are forgotten. */
module NetUtil {
  import opened Bytes
  import opened Wire

  /** What one `recv` meets: bytes that have arrived, EINTR, an expired SO_RCVTIMEO, or another
      error. An exhausted script is the peer's orderly shutdown. */
  datatype Event = Segment(bytes: seq<U8>) | Interrupted | Timeout | Broken

  datatype Mark = Byte(value: U8) | Tick | Fail

  function Marked(bytes: seq<U8>): (m: seq<Mark>)
    ensures |m| == |bytes|
  {
    seq(|bytes|, i requires 0 <= i < |bytes| => Byte(bytes[i]))
  }

  function Marks(script: seq<Event>): seq<Mark> {
    if script == [] then [] else
    var rest := Marks(script[1..]);
    match script[0]
    case Segment(bytes) => if bytes == [] then rest else Marked(bytes) + rest
    case Interrupted => rest
    case Timeout => [Tick] + rest
    case Broken => [Fail] + rest
  }

  datatype Status = Done | TimedOut | Failed

  /** How a read ended, and the bytes it put into the buffer. */
  datatype ReadResult = ReadResult(status: Status, bytes: seq<U8>)

  /** Reading up to `n` bytes off a stream of marks. A read that is done but short means that the
      peer closed; bytes read before a timeout or error are gone from the stream. */
  function Pull(marks: seq<Mark>, n: nat): (out: (ReadResult, seq<Mark>))
    ensures |out.0.bytes| <= n
    decreases n
  {
    if n == 0 || marks == [] then (ReadResult(Done, []), marks) else
    match marks[0]
    case Tick => (ReadResult(TimedOut, []), marks[1..])
    case Fail => (ReadResult(Failed, []), marks[1..])
    case Byte(b) => After([b], Pull(marks[1..], n - 1))
  }

  function After(front: seq<U8>, out: (ReadResult, seq<Mark>)): (ReadResult, seq<Mark>) {
    (out.0.(bytes := front + out.0.bytes), out.1)
  }

  lemma AfterNothing(out: (ReadResult, seq<Mark>))
    ensures After([], out) == out
  {
    assert [] + out.0.bytes == out.0.bytes;
  }

  lemma {:induction false} PullBytes(bytes: seq<U8>, marks: seq<Mark>, n: nat)
    requires |bytes| <= n
    ensures Pull(Marked(bytes) + marks, n) == After(bytes, Pull(marks, n - |bytes|))
  {
    if bytes == [] {
      assert Marked(bytes) + marks == marks;
      AfterNothing(Pull(marks, n));
    } else {
      var all := Marked(bytes) + marks;
      assert all[0] == Byte(bytes[0]) && all[1..] == Marked(bytes[1..]) + marks;
      PullBytes(bytes[1..], marks, n - 1);
      assert [bytes[0]] + bytes[1..] == bytes;
      AfterAfter([bytes[0]], bytes[1..], Pull(marks, n - |bytes|));
    }
  }

  lemma AfterAfter(a: seq<U8>, b: seq<U8>, out: (ReadResult, seq<Mark>))
    ensures After(a, After(b, out)) == After(a + b, out)
  {
    assert a + (b + out.0.bytes) == (a + b) + out.0.bytes;
  }

  /** `n` bytes that arrive without a timeout are read whole, and nothing after them is touched. */
  lemma {:induction false} PullExact(bytes: seq<U8>, marks: seq<Mark>)
    ensures Pull(Marked(bytes) + marks, |bytes|) == (ReadResult(Done, bytes), marks)
  {
    PullBytes(bytes, marks, |bytes|);
    assert bytes + [] == bytes;
  }

  class Socket {
    var script: seq<Event>
    var wire: seq<U8>

    constructor (script: seq<Event>)
      ensures this.script == script && wire == []
    {
      this.script, wire := script, [];
    }
  }

  /** Taking the first `k` bytes of a segment leaves the rest of it on the stream. */
  lemma {:induction false} CutSegment(bytes: seq<U8>, rest: seq<Event>, k: nat)
    requires k <= |bytes|
    ensures Marks([Segment(bytes)] + rest) == Marked(bytes[..k]) + Marks([Segment(bytes[k..])] + rest)
  {
    if k == |bytes| {
      assert Marked(bytes) + Marks(rest) == Marked(bytes[..k]) + Marks(rest);
    } else {
      assert Marked(bytes) == Marked(bytes[..k]) + Marked(bytes[k..]);
    }
    assert ([Segment(bytes)] + rest)[1..] == rest && ([Segment(bytes[k..])] + rest)[1..] == rest;
  }

  /** What `recv` returns: a byte count, 0 at the peer's shutdown, or -1 with an errno. */
  datatype Receipt = Received(count: nat) | Eintr | Eagain | Error

  function Count(r: Receipt): nat {
    if r.Received? then r.count else 0
  }

  /** The contents of a buffer after `bytes` were copied in at `at`. */
  function Spliced(s: seq<U8>, at: nat, bytes: seq<U8>): seq<U8>
    requires at + |bytes| <= |s|
  {
    s[..at] + bytes + s[at + |bytes|..]
  }

  /** The stream before a receipt, given the bytes it delivered and the stream after it. */
  ghost predicate Explains(receipt: Receipt, bytes: seq<U8>, before: seq<Mark>, after: seq<Mark>) {
    && |bytes| == Count(receipt)
    && match receipt
       case Received(k) => before == Marked(bytes) + after && (k == 0 ==> after == [])
       case Eintr => before == after
       case Eagain => before == [Tick] + after
       case Error => before == [Fail] + after
  }

  /** `recv`: at most `want` bytes of the first segment, whatever has arrived. */
  method Recv(sock: Socket, buf: array<U8>, at: nat, want: nat) returns (r: Receipt, ghost bytes: seq<U8>)
    requires at + want <= buf.Length && want > 0
    modifies sock`script, buf
    ensures |bytes| <= want && buf[..] == Spliced(old(buf[..]), at, bytes)
    ensures Explains(r, bytes, Marks(old(sock.script)), Marks(sock.script))
    ensures r.Eintr? ==> |sock.script| < |old(sock.script)|
  {
    if sock.script == [] {
      return Received(0), [];
    }
    var event, rest := sock.script[0], sock.script[1..];
    assert sock.script == [event] + rest;
    match event {
      case Interrupted =>
        sock.script := rest;
        return Eintr, [];
      case Timeout =>
        sock.script := rest;
        return Eagain, [];
      case Broken =>
        sock.script := rest;
        return Error, [];
      case Segment(arrived) =>
        if arrived == [] {
          sock.script := rest;
          return Eintr, [];
        }
        var k := if |arrived| <= want then |arrived| else want;
        CutSegment(arrived, rest, k);
        Copy(buf, at, arrived[..k]);
        sock.script := if k == |arrived| then rest else [Segment(arrived[k..])] + rest;
        return Received(k), arrived[..k];
    }
  }

  /** `read_n`: loops over partial receives and retries interrupted ones. The outcome depends on
      the marks alone, not on how the bytes were cut into segments. */
  method ReadN(sock: Socket, buf: array<U8>, n: nat) returns (r: ReadResult)
    requires n <= buf.Length
    modifies sock`script, buf
    ensures (r, Marks(sock.script)) == Pull(Marks(old(sock.script)), n)
    ensures buf[..] == Spliced(old(buf[..]), 0, r.bytes)
  {
    var got: nat, status := 0, Done;
    ghost var have, left, goal := [], Marks(sock.script), Pull(Marks(sock.script), n);
    AfterNothing(goal);
    while got < n
      invariant got <= n && left == Marks(sock.script)
      invariant |have| == got && buf[..] == Spliced(old(buf[..]), 0, have)
      invariant status == Done && After(have, Pull(left, n - got)) == goal
      decreases n - got, |sock.script|
    {
      var receipt, bytes := Recv(sock, buf, got, n - got);
      SpliceTwice(old(buf[..]), have, bytes);
      Advance(receipt, have, bytes, left, Marks(sock.script), n - got);
      have, left, got := have + bytes, Marks(sock.script), got + Count(receipt);
      if receipt.Eagain? || receipt.Error? {
        status := if receipt.Eagain? then TimedOut else Failed;
        break;
      }
      if receipt == Received(0) {
        break;
      }
    }
    assert have + [] == have == buf[..got];
    return ReadResult(status, buf[..got]);
  }

  lemma SpliceTwice(s: seq<U8>, a: seq<U8>, b: seq<U8>)
    requires |a| + |b| <= |s|
    ensures Spliced(Spliced(s, 0, a), |a|, b) == Spliced(s, 0, a + b)
  {
  }

  /** What a receipt does to a read that already has `front` and still wants `n` bytes. */
  lemma {:induction false} Advance(receipt: Receipt, front: seq<U8>, bytes: seq<U8>,
                                   before: seq<Mark>, after: seq<Mark>, n: nat)
    requires Explains(receipt, bytes, before, after) && |bytes| <= n && n > 0
    ensures match receipt
            case Received(k) => After(front, Pull(before, n)) == After(front + bytes, Pull(after, n - k))
            case Eintr => After(front, Pull(before, n)) == After(front + bytes, Pull(after, n))
            case Eagain => After(front, Pull(before, n)) == (ReadResult(TimedOut, front + bytes), after)
            case Error => After(front, Pull(before, n)) == (ReadResult(Failed, front + bytes), after)
  {
    assert front + [] == front;
    match receipt
    case Received(k) =>
      PullBytes(bytes, after, n);
      AfterAfter(front, bytes, Pull(after, n - k));
    case Eintr =>
    case _ => PullStops(after, n);
  }

  /** A timeout or an error ends a read that is still short. */
  lemma {:induction false} PullStops(rest: seq<Mark>, n: nat)
    requires n > 0
    ensures Pull([Tick] + rest, n) == (ReadResult(TimedOut, []), rest)
    ensures Pull([Fail] + rest, n) == (ReadResult(Failed, []), rest)
  {
    assert ([Tick] + rest)[1..] == rest && ([Fail] + rest)[1..] == rest;
  }

  /** A stream that ends, times out or fails inside a read: what was read so far is gone with it. */
  lemma {:induction false} PullShort(bytes: seq<U8>, rest: seq<Mark>, n: nat)
    requires |bytes| < n
    ensures Pull(Marked(bytes), n) == (ReadResult(Done, bytes), [])
    ensures Pull(Marked(bytes) + [Tick] + rest, n) == (ReadResult(TimedOut, bytes), rest)
    ensures Pull(Marked(bytes) + [Fail] + rest, n) == (ReadResult(Failed, bytes), rest)
  {
    PullStops(rest, n - |bytes|);
    PullBytes(bytes, [], n);
    PullBytes(bytes, [Tick] + rest, n);
    PullBytes(bytes, [Fail] + rest, n);
    assert Marked(bytes) + [] == Marked(bytes) && bytes + [] == bytes;
    assert Marked(bytes) + [Tick] + rest == Marked(bytes) + ([Tick] + rest);
    assert Marked(bytes) + [Fail] + rest == Marked(bytes) + ([Fail] + rest);
  }

  /** What one `send` meets: room for up to `room` bytes, EINTR, or an error. */
  datatype SendEvent = Room(room: nat) | Again | Gone

  /** How many bytes there is room for before the connection is lost. */
  function Capacity(room: seq<SendEvent>): nat {
    if room == [] || room[0].Gone? then 0
    else (if room[0].Room? then room[0].room else 0) + Capacity(room[1..])
  }

  /** `write_n`: all of `buf` is on the wire, in order and once, or as much of it as there was room for
      and an error is reported. An exhausted script is a lost connection. */
  method WriteN(sock: Socket, buf: seq<U8>, room: seq<SendEvent>) returns (r: int)
    modifies sock`wire
    ensures r == if Capacity(room) >= |buf| then |buf| else -1
    ensures sock.wire == old(sock.wire) + buf[..Min(|buf|, Capacity(room))]
  {
    var sent: nat := 0;
    var i := 0;
    assert buf[..0] == [];
    while sent < |buf|
      invariant sent <= |buf| && 0 <= i <= |room|
      invariant sock.wire == old(sock.wire) + buf[..sent]
      invariant sent < |buf| ==> sent + Capacity(room[i..]) == Capacity(room)
      invariant sent == |buf| ==> Capacity(room) >= |buf|
      decreases |room| - i
    {
      if i == |room| || room[i].Gone? {
        return -1;
      }
      if room[i].Room? {
        var k := if room[i].room <= |buf| - sent then room[i].room else |buf| - sent;
        sock.wire := sock.wire + buf[sent..sent + k];
        assert buf[..sent] + buf[sent..sent + k] == buf[..sent + k];
        sent := sent + k;
      }
      i := i + 1;
    }
    assert buf[..sent] == buf;
    return sent;
  }
}
