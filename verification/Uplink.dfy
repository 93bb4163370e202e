/** The firmware's two tasks (firmware/pulselink_fw.ino): one samples into a bounded queue, the other
    sends what is queued and backs off exponentially while there is no connection. */
module Uplink {
  import opened Bytes

  const QUEUE_LEN := 16
  const BACKOFF_MIN: U32 := 500
  const BACKOFF_MAX: U32 := 16000

  /** What both tasks share, and the uplink's own backoff. `linked` is whether the TCP client object
      still counts as connected. */
  datatype Fw = Fw(seqno: U32, queue: seq<U32>, produced: U32, dropped: U32, consumed: U32,
                   backoff: U32, connected: bool, linked: bool)

  // ---- backoff ----------------------------------------------------------------------

  function NextBackoff(ms: U32): U32 {
    if Low32(ms * 2) > BACKOFF_MAX then BACKOFF_MAX else Low32(ms * 2)
  }

  /** The backoff after `k` waits. */
  function Backoff(k: nat): U32 {
    if k == 0 then BACKOFF_MIN else NextBackoff(Backoff(k - 1))
  }

  /** Doubling from 500 ms, five times at most. */
  lemma {:induction false} BackoffExact(k: nat)
    ensures Backoff(k) == 500 * Pow2(Min(k, 5)) <= BACKOFF_MAX
  {
    assert Pow2(5) == 32;
    if k > 0 {
      BackoffExact(k - 1);
      PowBound(Min(k - 1, 5));
    }
  }

  lemma {:induction false} PowBound(k: nat)
    requires k <= 5
    ensures Pow2(k) == [1, 2, 4, 8, 16, 32][k]
  {
    if k > 0 {
      PowBound(k - 1);
    }
  }

  /** Twice as long, but not above 16 s. */
  function Doubled(ms: nat): nat {
    if ms <= 8000 then 2 * ms else 16000
  }

  function Waited(f: Fw): Fw {
    f.(connected := false, backoff := NextBackoff(f.backoff))
  }

  // ---- the steps of the two tasks ---------------------------------------------------

  /** Where the sampling task stands: ready, or with a queue result not counted yet. */
  datatype Producer = Ready | Accepted | Refused

  /** Where the uplink stands: at the top of its loop, past the connection check, holding a reading,
      or with a sent reading not counted yet. */
  datatype Consumer = Top | Streaming | Holding(number: nat) | Delivered

  /** Both tasks, and what has happened so far, with readings numbered from 1 without wrapping:
      readings taken, still queued, sent, lost to a failed send, refused by the full queue; how
      often each counter was incremented; handshakes, and waits since the last one. */
  datatype Sys = Sys(fw: Fw, p: Producer, c: Consumer, taken: nat, queue: seq<nat>, sent: seq<nat>,
                     failed: seq<nat>, refused: nat, made: nat, lost: nat, told: nat,
                     handshakes: nat, waits: nat)

  datatype Act = Sample | Count | LinkDrops | NoWifi | NoConnection | GoodHandshake | StillLinked | NothingQueued
               | Receive | SendOk | SendFails | CountSent

  predicate Enabled(s: Sys, a: Act) {
    match a
    case Sample => s.p == Ready
    case Count => s.p != Ready
    case LinkDrops => true
    case NoWifi => s.c == Top
    case NoConnection | GoodHandshake => s.c == Top && !s.fw.linked
    case StillLinked => s.c == Top && s.fw.linked
    case NothingQueued => s.c == Streaming && s.fw.queue == []
    case Receive => s.c == Streaming && s.fw.queue != [] && s.queue != []
    case SendOk | SendFails => s.c.Holding?
    case CountSent => s.c == Delivered
  }

  function Sampling(s: Sys): Sys {
    var n, f := s.taken + 1, s.fw.(seqno := Next32(s.fw.seqno));
    if |f.queue| < QUEUE_LEN then
      s.(fw := f.(queue := f.queue + [f.seqno]), p := Accepted, taken := n, queue := s.queue + [n])
    else s.(fw := f, p := Refused, taken := n, refused := s.refused + 1)
  }

  function Counting(s: Sys): Sys {
    if s.p == Accepted then s.(fw := s.fw.(produced := Next32(s.fw.produced)), p := Ready, made := s.made + 1)
    else s.(fw := s.fw.(dropped := Next32(s.fw.dropped)), p := Ready, lost := s.lost + 1)
  }

  function Connected(f: Fw): Fw {
    f.(connected := true, linked := true, backoff := BACKOFF_MIN)
  }

  function Step(s: Sys, a: Act): Sys
    requires Enabled(s, a)
  {
    match a
    case Sample => Sampling(s)
    case Count => Counting(s)
    case LinkDrops => s.(fw := s.fw.(linked := false))
    case NoWifi => s.(fw := Waited(s.fw), waits := s.waits + 1)
    case NoConnection => s.(fw := Waited(s.fw), waits := s.waits + 1)
    case GoodHandshake => s.(fw := Connected(s.fw), c := Streaming, handshakes := s.handshakes + 1, waits := 0)
    case StillLinked => s.(c := Streaming)
    case NothingQueued => s.(c := Top)
    case Receive => s.(fw := s.fw.(queue := s.fw.queue[1..]), queue := s.queue[1..], c := Holding(s.queue[0]))
    case SendOk => s.(c := Delivered, sent := s.sent + [s.c.number])
    case SendFails =>
      s.(fw := Waited(s.fw.(linked := false)), c := Top, failed := s.failed + [s.c.number], waits := s.waits + 1)
    case CountSent => s.(fw := s.fw.(consumed := Next32(s.fw.consumed)), c := Top, told := s.told + 1)
  }

  // ---- the invariant ----------------------------------------------------------------

  function Numbered(queue: seq<nat>): (w: seq<U32>)
    ensures |w| == |queue|
  {
    seq(|queue|, i requires 0 <= i < |queue| => Low32(queue[i]))
  }

  /** The readings taken out of neither the queue nor the uplink's hands yet. */
  function Line(s: Sys): seq<nat> {
    if s.c.Holding? then [s.c.number] + s.queue else s.queue
  }

  ghost predicate Rising(a: seq<nat>) {
    forall i, j :: 0 <= i < j < |a| ==> a[i] < a[j]
  }

  ghost predicate UpTo(a: seq<nat>, n: nat) {
    forall i :: 0 <= i < |a| ==> 0 < a[i] <= n
  }

  ghost predicate Apart(a: seq<nat>, b: seq<nat>) {
    forall x :: x in a ==> x !in b
  }

  /** Readings are sent, and lost, in the order they were taken, and none both. */
  ghost predicate Ordered(s: Sys) {
    && Apart(s.sent, s.failed)
    && Rising(s.sent + Line(s)) && Rising(s.failed + Line(s))
    && UpTo(s.sent + Line(s), s.taken) && UpTo(s.failed + Line(s), s.taken)
  }

  ghost predicate Counted(s: Sys) {
    && s.fw.seqno == Low32(s.taken)
    && s.fw.produced == Low32(s.made) && s.fw.dropped == Low32(s.lost) && s.fw.consumed == Low32(s.told)
    && s.taken == s.refused + |s.sent| + |s.failed| + |Line(s)|
    && s.taken == s.refused + s.made + (if s.p == Accepted then 1 else 0)
    && s.refused == s.lost + (if s.p == Refused then 1 else 0)
    && |s.sent| == s.told + (if s.c == Delivered then 1 else 0)
  }

  ghost predicate Link(s: Sys) {
    && s.fw.backoff == Backoff(s.waits)
    && (s.fw.connected <==> s.handshakes > 0 && s.waits == 0)
    && (s.fw.linked || s.c != Top || s.sent != [] ==> s.handshakes > 0)
  }

  ghost predicate Inv(s: Sys) {
    && s.fw.queue == Numbered(s.queue) && |s.queue| <= QUEUE_LEN
    && Ordered(s) && Counted(s) && Link(s)
  }

  lemma AppendRises(a: seq<nat>, n: nat)
    requires Rising(a) && UpTo(a, n)
    ensures Rising(a + [n + 1]) && UpTo(a + [n + 1], n + 1)
  {
  }

  lemma SampleKeepsInv(s: Sys)
    requires Inv(s) && Enabled(s, Sample)
    ensures Inv(Step(s, Sample))
  {
    var s' := Step(s, Sample);
    Counts32(s.taken);
    if |s.queue| < QUEUE_LEN {
      AppendRises(s.sent + Line(s), s.taken);
      AppendRises(s.failed + Line(s), s.taken);
      assert s'.sent + Line(s') == s.sent + Line(s) + [s'.taken];
      assert s'.failed + Line(s') == s.failed + Line(s) + [s'.taken];
      assert Numbered(s'.queue) == Numbered(s.queue) + [Low32(s'.taken)];
    }
  }

  lemma CountKeepsInv(s: Sys)
    requires Inv(s) && Enabled(s, Count)
    ensures Inv(Step(s, Count))
  {
    Counts32(s.made);
    Counts32(s.lost);
    assert Line(Step(s, Count)) == Line(s);
  }

  lemma ReceiveKeepsInv(s: Sys)
    requires Inv(s) && Enabled(s, Receive)
    ensures Inv(Step(s, Receive))
  {
    var s' := Step(s, Receive);
    assert Line(s') == Line(s);
    assert Numbered(s'.queue) == Numbered(s.queue)[1..];
  }

  lemma SendKeepsInv(s: Sys, a: Act)
    requires Inv(s) && Enabled(s, a) && (a == SendOk || a == SendFails)
    ensures Inv(Step(s, a))
  {
    var s' := Step(s, a);
    if a == SendOk {
      NotBefore(s.failed, s.c.number, s.queue);
      assert s'.sent + Line(s') == s.sent + Line(s);
      Shorter(s.failed, s.c.number, s.queue, s.taken);
    } else {
      NotBefore(s.sent, s.c.number, s.queue);
      assert s'.failed + Line(s') == s.failed + Line(s);
      Shorter(s.sent, s.c.number, s.queue, s.taken);
    }
  }

  lemma NotBefore(a: seq<nat>, x: nat, b: seq<nat>)
    requires Rising(a + ([x] + b))
    ensures x !in a
  {
    forall i | 0 <= i < |a| ensures a[i] != x {
      assert (a + ([x] + b))[i] < (a + ([x] + b))[|a|];
    }
  }

  lemma RisingApart(a: seq<nat>, b: seq<nat>)
    requires Rising(a + b)
    ensures Apart(a, b) && Rising(a)
  {
    forall i | 0 <= i < |a| ensures a[i] !in b {
      forall j | 0 <= j < |b| ensures a[i] != b[j] {
        assert (a + b)[i] < (a + b)[|a| + j];
      }
    }
    forall i, j | 0 <= i < j < |a| ensures a[i] < a[j] {
      assert (a + b)[i] < (a + b)[j];
    }
  }

  lemma Shorter(a: seq<nat>, x: nat, b: seq<nat>, n: nat)
    requires Rising(a + ([x] + b)) && UpTo(a + ([x] + b), n)
    ensures Rising(a + b) && UpTo(a + b, n)
  {
    var all := a + ([x] + b);
    forall i | 0 <= i < |a + b| ensures (a + b)[i] == all[if i < |a| then i else i + 1] {
    }
  }

  lemma LinkKeepsInv(s: Sys, a: Act)
    requires Inv(s) && Enabled(s, a)
    requires a in {LinkDrops, NoWifi, NoConnection, GoodHandshake, StillLinked, NothingQueued, CountSent}
    ensures Inv(Step(s, a))
  {
    Counts32(s.told);
    assert Line(Step(s, a)) == Line(s);
  }

  lemma StepKeepsInv(s: Sys, a: Act)
    requires Inv(s) && Enabled(s, a)
    ensures Inv(Step(s, a))
  {
    match a
    case Sample => SampleKeepsInv(s);
    case Count => CountKeepsInv(s);
    case Receive => ReceiveKeepsInv(s);
    case SendOk => SendKeepsInv(s, a);
    case SendFails => SendKeepsInv(s, a);
    case _ => LinkKeepsInv(s, a);
  }

  // ---- whole runs -------------------------------------------------------------------

  ghost predicate Reaches(s: Sys, acts: seq<Act>, s': Sys)
    decreases |acts|
  {
    if acts == [] then s == s' else Enabled(s, acts[0]) && Reaches(Step(s, acts[0]), acts[1..], s')
  }

  /** After power-up. */
  ghost predicate Booted(s: Sys) {
    && s.fw == Fw(0, [], 0, 0, 0, BACKOFF_MIN, false, false) && s.p == Ready && s.c == Top
    && |s.queue| == |s.sent| == |s.failed| == 0
    && s.taken == s.refused == s.made == s.lost == s.told == s.handshakes == s.waits == 0
  }

  lemma {:induction false} RunKeepsInv(s: Sys, acts: seq<Act>, s': Sys)
    requires Inv(s) && Reaches(s, acts, s')
    ensures Inv(s')
    decreases |acts|
  {
    if acts != [] {
      StepKeepsInv(s, acts[0]);
      RunKeepsInv(Step(s, acts[0]), acts[1..], s');
    }
  }

  /** In every run: the backoff is 500 ms doubled once per wait since the last good handshake, up to
      16 s; readings are sent in the order they were taken, none twice, and none that is sent is also
      lost or still waiting; the connection flag is up
      exactly when no wait has followed the last handshake. */
  lemma {:induction false} EveryRun(s0: Sys, acts: seq<Act>, s: Sys)
    requires Booted(s0) && Reaches(s0, acts, s)
    ensures s.fw.backoff == 500 * Pow2(Min(s.waits, 5)) <= BACKOFF_MAX
    ensures Rising(s.sent) && |s.fw.queue| <= QUEUE_LEN
    ensures s.fw.connected <==> s.handshakes > 0 && s.waits == 0
    ensures s.sent != [] ==> s.handshakes > 0
    ensures s.taken == s.refused + |s.sent| + |s.failed| + |Line(s)|
    ensures Apart(s.sent, s.failed) && Apart(s.sent, Line(s)) && Apart(s.failed, Line(s))
  {
    RunKeepsInv(s0, acts, s);
    BackoffExact(s.waits);
    RisingApart(s.sent, Line(s));
    RisingApart(s.failed, Line(s));
  }

  /** With both tasks at the top of their loops, the counters balance: what was produced was sent, is
      queued or was lost in a failed send, and every sequence number was produced or dropped. */
  lemma {:induction false} Balanced(s0: Sys, acts: seq<Act>, s: Sys)
    requires Booted(s0) && Reaches(s0, acts, s) && s.p == Ready && s.c == Top
    ensures s.fw.produced == Low32(|s.sent| + |s.fw.queue| + |s.failed|) && s.fw.consumed == Low32(|s.sent|)
    ensures s.fw.seqno == Low32(s.fw.produced + s.fw.dropped)
  {
    RunKeepsInv(s0, acts, s);
    LowSum(s.made, s.lost);
  }

  lemma LowSum(a: nat, b: nat)
    ensures Low32(a + b) == Low32(Low32(a) + Low32(b))
  {
  }

  /** Until the 32-bit sequence number wraps, the numbers on the wire strictly increase. */
  lemma {:induction false} WireNumbersRise(s0: Sys, acts: seq<Act>, s: Sys)
    requires Booted(s0) && Reaches(s0, acts, s) && s.taken < 0x1_0000_0000
    ensures var wire := Numbered(s.sent); forall i, j :: 0 <= i < j < |wire| ==> wire[i] < wire[j]
  {
    RunKeepsInv(s0, acts, s);
    Prefix(s.sent, Line(s), s.taken);
    WireRises(s.sent, s.taken);
  }

  lemma Prefix(a: seq<nat>, b: seq<nat>, n: nat)
    requires Rising(a + b) && UpTo(a + b, n)
    ensures Rising(a) && UpTo(a, n)
  {
    forall i | 0 <= i < |a| ensures a[i] == (a + b)[i] {
    }
  }

  lemma WireRises(a: seq<nat>, n: nat)
    requires Rising(a) && UpTo(a, n) && n < 0x1_0000_0000
    ensures forall i, j :: 0 <= i < j < |Numbered(a)| ==> Numbered(a)[i] < Numbered(a)[j]
  {
    forall i | 0 <= i < |a| ensures Numbered(a)[i] == a[i] {
    }
  }

  // ---- the tasks' own code ----------------------------------------------------------

  /** What the outside world answers during one turn of the uplink's loop: whether Wi-Fi is up, the
      client still connected, a connection attempt and a handshake succeed, a write completes. */
  datatype World = World(wifi: bool, holds: bool, connects: bool, shakes: bool, writes: bool)

  /** The steps to a connection, or to a wait. */
  function ConnectActs(f: Fw, w: World): seq<Act>
    decreases f.linked
  {
    if f.linked && !w.holds then [LinkDrops] + ConnectActs(f.(linked := false), w)
    else if !w.wifi then [NoWifi]
    else if f.linked then [StillLinked]
    else if w.connects && w.shakes then [GoodHandshake]
    else [NoConnection]
  }

  /** The steps with a connection. */
  function SendActs(f: Fw, w: World): seq<Act> {
    if f.queue == [] then [NothingQueued]
    else if w.writes then [Receive, SendOk, CountSent]
    else [Receive, SendFails]
  }

  predicate Streams(f: Fw, w: World) {
    w.wifi && ((f.linked && w.holds) || (w.connects && w.shakes))
  }

  /** The steps one turn of the uplink's loop takes. */
  function TurnActs(f: Fw, w: World): seq<Act> {
    ConnectActs(f, w) + if Streams(f, w) then SendActs(f, w) else []
  }

  lemma {:induction false} ReachesOn(s: Sys, acts: seq<Act>, m: Sys, more: seq<Act>, s': Sys)
    requires Reaches(s, acts, m) && Reaches(m, more, s')
    ensures Reaches(s, acts + more, s')
    decreases |acts|
  {
    if acts == [] {
      assert acts + more == more;
    } else {
      ReachesOn(Step(s, acts[0]), acts[1..], m, more, s');
      assert (acts + more)[1..] == acts[1..] + more;
    }
  }

  lemma {:induction false} OneStep(s: Sys, a: Act)
    requires Enabled(s, a)
    ensures Reaches(s, [a], Step(s, a))
  {
  }

  lemma {:induction false} TwoSteps(s: Sys, a: Act, b: Act)
    requires Enabled(s, a) && Enabled(Step(s, a), b)
    ensures Reaches(s, [a, b], Step(Step(s, a), b))
  {
    OneStep(s, a);
    OneStep(Step(s, a), b);
    ReachesOn(s, [a], Step(s, a), [b], Step(Step(s, a), b));
    assert [a] + [b] == [a, b];
  }

  lemma {:induction false} SendRun(s: Sys, held: Sys, m: Sys)
    requires Enabled(s, Receive) && held == Step(s, Receive) && m == Step(Step(held, SendOk), CountSent)
    ensures Reaches(s, [Receive, SendOk, CountSent], m)
    ensures Numbered(m.sent) == Numbered(s.sent) + [Low32(s.queue[0])]
  {
    TwoSteps(s, Receive, SendOk);
    OneStep(Step(held, SendOk), CountSent);
    ReachesOn(s, [Receive, SendOk], Step(held, SendOk), [CountSent], m);
    assert [Receive, SendOk] + [CountSent] == [Receive, SendOk, CountSent];
  }

  class Firmware {
    var seqno: U32
    var queue: seq<U32>
    var produced: U32
    var dropped: U32
    var consumed: U32
    var backoff: U32
    var connected: bool
    var linked: bool

    function Abs(): Fw
      reads this
    {
      Fw(seqno, queue, produced, dropped, consumed, backoff, connected, linked)
    }

    /** One turn of the sampling task: both of its steps. */
    method TakeSample(ghost s: Sys)
      requires s.fw == Abs() && s.p == Ready
      modifies this
      ensures Enabled(s, Sample) && Enabled(Step(s, Sample), Count)
      ensures Abs() == Step(Step(s, Sample), Count).fw
      ensures seqno == Next32(old(seqno))
      ensures old(|queue|) < 16 ==>
                queue == old(queue) + [seqno] && produced == Next32(old(produced)) && dropped == old(dropped)
      ensures old(|queue|) >= 16 ==>
                queue == old(queue) && produced == old(produced) && dropped == Next32(old(dropped))
      ensures unchanged(`consumed) && unchanged(`backoff) && unchanged(`connected) && unchanged(`linked)
    {
      seqno := Next32(seqno);
      if |queue| < QUEUE_LEN {
        queue := queue + [seqno];
        produced := Next32(produced);
      } else {
        dropped := Next32(dropped);
      }
    }

    /** `backoff_wait`: sleeps in half-second slices, feeding the watchdog before each, then
        doubles. */
    method BackoffWait() returns (fed: nat)
      requires backoff <= BACKOFF_MAX
      modifies this`backoff, this`connected
      ensures Abs() == Waited(old(Abs()))
      ensures !connected && backoff == Doubled(old(backoff))
      ensures 500 * fed >= old(backoff) > 500 * (fed - 1)
    {
      connected := false;
      var waited: U32 := 0;
      fed := 0;
      while waited < backoff
        invariant waited == 500 * fed && waited < backoff + 500
      {
        fed := fed + 1;
        waited := waited + 500;
      }
      backoff := if backoff * 2 > BACKOFF_MAX then BACKOFF_MAX else backoff * 2;
    }

    /** The connection part of the loop. */
    method Connect(w: World, ghost s: Sys) returns (up: bool, ghost m: Sys)
      requires s.fw == Abs() && s.c == Top && backoff <= BACKOFF_MAX
      modifies this
      ensures Reaches(s, ConnectActs(s.fw, w), m) && Abs() == m.fw && backoff <= BACKOFF_MAX
      ensures up <==> Streams(s.fw, w)
      ensures up <==> w.wifi && ((old(linked) && w.holds) || (w.connects && w.shakes))
      ensures up && old(linked) && w.holds ==> linked && unchanged(`backoff) && unchanged(`connected)
      ensures up && !(old(linked) && w.holds) ==> linked && backoff == 500 && connected
      ensures !up ==> (linked <==> old(linked) && w.holds) && backoff == Doubled(old(backoff)) && !connected
      ensures unchanged(`seqno) && unchanged(`queue)
      ensures unchanged(`produced) && unchanged(`dropped) && unchanged(`consumed)
      ensures m.queue == s.queue && m.sent == s.sent && m.fw.queue == s.fw.queue && m.c == if up then Streaming else Top
    {
      m := s;
      if linked && !w.holds {
        linked := false;
        m := Step(s, LinkDrops);
      }
      ghost var from := m;
      if !w.wifi {
        m := Step(from, NoWifi);
        var fed := BackoffWait();
        up := false;
      } else if linked {
        m := Step(from, StillLinked);
        up := true;
      } else if !w.connects || !w.shakes {
        m := Step(from, NoConnection);
        var fed := BackoffWait();
        up := false;
      } else {
        m := Step(from, GoodHandshake);
        backoff, connected, linked := BACKOFF_MIN, true, true;
        up := true;
      }
    }

    /** The sending part of the loop, with a connection: the number sent, if any. */
    method SendNext(w: World, ghost s: Sys) returns (wire: seq<U32>, ghost m: Sys)
      requires s.fw == Abs() && s.c == Streaming && s.fw.queue == Numbered(s.queue) && backoff <= BACKOFF_MAX
      modifies this
      ensures Reaches(s, SendActs(s.fw, w), m) && Abs() == m.fw && m.c == Top
      ensures Numbered(m.sent) == Numbered(s.sent) + wire
      ensures old(queue) == [] ==> wire == [] && Abs() == old(Abs())
      ensures old(queue) != [] ==> queue == old(queue)[1..]
      ensures old(queue) != [] && w.writes ==>
                && wire == [old(queue)[0]] && consumed == Next32(old(consumed))
                && unchanged(`linked) && unchanged(`backoff) && unchanged(`connected)
      ensures old(queue) != [] && !w.writes ==>
                wire == [] && unchanged(`consumed) && !linked && backoff == Doubled(old(backoff)) && !connected
      ensures unchanged(`seqno) && unchanged(`produced) && unchanged(`dropped)
    {
      wire := [];
      if |queue| == 0 {
        m := Step(s, NothingQueued);
        return;
      }
      var r := queue[0];
      queue := queue[1..];
      ghost var held := Step(s, Receive);
      if w.writes {
        wire := [r];
        consumed := Next32(consumed);
        m := Step(Step(held, SendOk), CountSent);
        SendRun(s, held, m);
      } else {
        linked := false;
        var fed := BackoffWait();
        m := Step(held, SendFails);
        TwoSteps(s, Receive, SendFails);
      }
    }

    /** One turn of the uplink's loop: the number sent, if any. */
    method Turn(w: World, ghost s: Sys) returns (wire: seq<U32>, ghost s': Sys)
      requires s.fw == Abs() && s.c == Top && s.fw.queue == Numbered(s.queue) && backoff <= BACKOFF_MAX
      modifies this
      ensures Reaches(s, TurnActs(s.fw, w), s') && Abs() == s'.fw && s'.c == Top
      ensures Numbered(s'.sent) == Numbered(s.sent) + wire
      ensures var up := w.wifi && ((old(linked) && w.holds) || (w.connects && w.shakes));
              && (up && w.writes && old(queue) != [] ==>
                    wire == [old(queue)[0]] && queue == old(queue)[1..] && consumed == Next32(old(consumed)) && linked)
              && (up && !w.writes && old(queue) != [] ==>
                    && wire == [] && queue == old(queue)[1..] && unchanged(`consumed) && !linked && !connected
                    && backoff == Doubled(if old(linked) && w.holds then old(backoff) else 500))
              && (!up || old(queue) == [] ==> wire == [] && unchanged(`queue) && unchanged(`consumed))
              && (up && old(queue) == [] ==> linked)
              && (!up ==> backoff == Doubled(old(backoff)) && !connected)
      ensures unchanged(`seqno) && unchanged(`produced) && unchanged(`dropped)
    {
      var up;
      ghost var m;
      up, m := Connect(w, s);
      if up {
        wire, s' := SendNext(w, m);
        ReachesOn(s, ConnectActs(s.fw, w), m, SendActs(m.fw, w), s');
      } else {
        wire, s' := [], m;
        assert ConnectActs(s.fw, w) + [] == ConnectActs(s.fw, w);
      }
    }
  }
}
