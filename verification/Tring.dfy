/** The drop-oldest record ring of kmod/tring.c and the locked sections of kmod/telemetry_drv.c that
    work on it. */
module Tring {
  import opened Bytes

  const CAP := 256
  const BATCH := 32

  /** What the ring stands for: the buffered records, oldest first, and its two counters. */
  datatype Queue<T> = Queue(items: seq<T>, produced: U64, dropped: U64)

  function Empty<T>(): Queue<T> {
    Queue([], 0, 0)
  }

  function Push<T>(q: Queue<T>, x: T): Queue<T> {
    if |q.items| >= CAP then Queue(q.items[1..] + [x], Next64(q.produced), Next64(q.dropped))
    else Queue(q.items + [x], Next64(q.produced), q.dropped)
  }

  /** Taking the `n` oldest records. */
  function Drop<T>(q: Queue<T>, n: nat): Queue<T>
    requires n <= |q.items|
  {
    q.(items := q.items[n..])
  }

  // ---- slots ------------------------------------------------------------------------

  /** The slot of record `k`, counted from the oldest. */
  function Slot(head: nat, count: nat, k: nat): nat
    requires head < CAP && k < count <= CAP
  {
    var s := head - count + k;
    if s < 0 then s + CAP else s
  }

  function NextSlot(head: nat): nat {
    if head + 1 == CAP then 0 else head + 1
  }

  /** Unsigned 32-bit `head - count + TRING_CAP`, reduced: the subtraction may wrap, and wraps
      back. */
  lemma TailSlot(head: nat, count: nat)
    requires head < CAP && 0 < count <= CAP
    ensures ((head - count) % 0x1_0000_0000 + 256) % 0x1_0000_0000 % 256 == Slot(head, count, 0)
  {
  }

  /** The slots of the buffered records are distinct, and the write slot is one of them only when
      the ring is full. */
  lemma SlotsDiffer(head: nat, count: nat, k: nat)
    requires head < CAP && k < count <= CAP
    ensures Slot(head, count, k) < CAP
    ensures Slot(head, count, k) == head <==> count == CAP && k == 0
  {
  }

  /** Moving the head past the slot just written. */
  lemma SlotsShift(head: nat, count: nat, k: nat)
    requires head < CAP && count <= CAP && k <= count
    ensures count < CAP ==> Slot(NextSlot(head), count + 1, k) == if k == count then head else Slot(head, count, k)
    ensures count == CAP && k < count ==>
              Slot(NextSlot(head), count, k) == if k == count - 1 then head else Slot(head, count, k + 1)
  {
  }

  lemma SlotAfterPop(head: nat, count: nat, k: nat)
    requires head < CAP && 0 < count <= CAP && k < count - 1
    ensures Slot(head, count - 1, k) == Slot(head, count, k + 1)
  {
  }

  /** The buffered records, oldest first. */
  ghost function Items<T>(buf: seq<T>, head: nat, count: nat): (items: seq<T>)
    requires |buf| == CAP && head < CAP && count <= CAP
    ensures |items| == count
  {
    seq(count, k requires 0 <= k < count => buf[Slot(head, count, k)])
  }

  lemma ItemsAfterPush<T>(buf: seq<T>, head: nat, count: nat, x: T)
    requires |buf| == CAP && head < CAP && count < CAP
    ensures Items(buf[head := x], NextSlot(head), count + 1) == Items(buf, head, count) + [x]
  {
    forall k: nat | k <= count
      ensures Items(buf[head := x], NextSlot(head), count + 1)[k] == (Items(buf, head, count) + [x])[k]
    {
      SlotsShift(head, count, k);
      if k < count {
        SlotsDiffer(head, count, k);
      }
    }
  }

  lemma ItemsAfterOverwrite<T>(buf: seq<T>, head: nat, x: T)
    requires |buf| == CAP && head < CAP
    ensures Items(buf[head := x], NextSlot(head), CAP) == Items(buf, head, CAP)[1..] + [x]
  {
    forall k: nat | k < CAP
      ensures Items(buf[head := x], NextSlot(head), CAP)[k] == (Items(buf, head, CAP)[1..] + [x])[k]
    {
      SlotsShift(head, CAP, k);
      if k + 1 < CAP {
        SlotsDiffer(head, CAP, k + 1);
      }
    }
  }

  lemma ItemsAfterPop<T>(buf: seq<T>, head: nat, count: nat)
    requires |buf| == CAP && head < CAP && 0 < count <= CAP
    ensures Items(buf, head, count - 1) == Items(buf, head, count)[1..]
  {
    forall k: nat | k < count - 1 ensures Items(buf, head, count - 1)[k] == Items(buf, head, count)[1..][k] {
      SlotAfterPop(head, count, k);
    }
  }

  class Ring<T(0)> {
    const buf: array<T>
    var head: nat
    var count: nat
    var produced: U64
    var dropped: U64

    ghost predicate Valid()
      reads this
    {
      buf.Length == CAP && head < CAP && count <= CAP
    }

    ghost function Abs(): Queue<T>
      requires Valid()
      reads this, buf
    {
      Queue(Items(buf[..], head, count), produced, dropped)
    }

    constructor ()
      ensures Valid() && Abs() == Empty()
    {
      buf := new T[CAP];
      head, count, produced, dropped := 0, 0, 0, 0;
    }

    /** `tring_init`; the buffer is left as it is. */
    method Init()
      requires Valid()
      modifies this
      ensures Valid() && Abs() == Empty()
    {
      head, count, produced, dropped := 0, 0, 0, 0;
    }

    /** `tring_push`: reports whether the oldest record was overwritten. */
    method PushRecord(x: T) returns (drop: bool)
      requires Valid()
      modifies this, buf
      ensures Valid() && Abs() == Push(old(Abs()), x)
      ensures drop <==> |old(Abs()).items| == CAP
    {
      drop := count == CAP;
      if drop {
        ItemsAfterOverwrite(buf[..], head, x);
        dropped := Next64(dropped);
      } else {
        ItemsAfterPush(buf[..], head, count, x);
      }
      buf[head] := x;
      head := (head + 1) % 256;
      if !drop {
        count := count + 1;
      }
      produced := Next64(produced);
    }

    /** `tring_pop`: the oldest record, if there is one. */
    method PopRecord() returns (ok: bool, x: T)
      requires Valid()
      modifies this
      ensures Valid()
      ensures ok <==> old(Abs()).items != []
      ensures ok ==> x == old(Abs()).items[0] && Abs() == Drop(old(Abs()), 1)
      ensures !ok ==> Abs() == old(Abs())
    {
      if count == 0 {
        x := *;
        return false, x;
      }
      TailSlot(head, count);
      SlotsDiffer(head, count, 0);
      var tail := ((head - count) % 0x1_0000_0000 + 256) % 0x1_0000_0000 % 256;
      x := buf[tail];
      assert x == Abs().items[0];
      ItemsAfterPop(buf[..], head, count);
      count := count - 1;
      return true, x;
    }

    /** The locked section of `tlm_read`: up to a batch of records, oldest first. */
    method ReadBatch(maxrec: nat) returns (batch: seq<T>)
      requires Valid()
      modifies this
      ensures Valid()
      ensures batch == old(Abs()).items[..Min(Min(maxrec, BATCH), |old(Abs()).items|)]
      ensures Abs() == Drop(old(Abs()), |batch|)
    {
      ghost var before := Abs();
      var want := if maxrec < BATCH then maxrec else BATCH;
      batch := [];
      var more := true;
      while |batch| < want && more
        invariant Valid() && |batch| <= want && |batch| <= |before.items|
        invariant batch == before.items[..|batch|] && Abs() == Drop(before, |batch|)
        invariant !more ==> |batch| == |before.items|
        decreases want - |batch|, more
      {
        var ok, x := PopRecord();
        if ok {
          batch := batch + [x];
        } else {
          more := false;
        }
      }
    }
  }
}
