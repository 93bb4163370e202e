/** Admission of connections: server/tcp_listener.c takes a slot of a counting semaphore for each
    worker it starts, and server/client_handler.c gives it back when the worker ends. */
module Listener {

  /** Where the listener stands with connection `c`: accepted, holding a slot for it, or about to
      close it after giving the slot back. */
  datatype Hand = Polling | Accepted(c: nat) | Admitted(c: nat) | Failing(c: nat)

  /** The semaphore, the listener, the workers that own their connection and a slot, those that have
      closed it but still own the slot, and the open connections. */
  datatype Sys = Sys(free: nat, hand: Hand, workers: set<nat>, leaving: set<nat>, open: set<nat>)

  datatype Act = Accept(c: nat) | TryWait | Spawn | SpawnFails | CloseFailed | Close(c: nat) | Post(c: nat)

  predicate Enabled(s: Sys, a: Act) {
    match a
    case Accept(c) => s.hand == Polling && c !in s.open && c !in s.leaving
    case TryWait => s.hand.Accepted?
    case Spawn | SpawnFails => s.hand.Admitted?
    case CloseFailed => s.hand.Failing?
    case Close(c) => c in s.workers
    case Post(c) => c in s.leaving
  }

  function Step(s: Sys, a: Act): Sys
    requires Enabled(s, a)
  {
    match a
    case Accept(c) => s.(hand := Accepted(c), open := s.open + {c})
    case TryWait =>
      if s.free > 0 then s.(free := s.free - 1, hand := Admitted(s.hand.c))
      else s.(hand := Polling, open := s.open - {s.hand.c})
    case Spawn => s.(hand := Polling, workers := s.workers + {s.hand.c})
    case SpawnFails => s.(free := s.free + 1, hand := Failing(s.hand.c))
    case CloseFailed => s.(hand := Polling, open := s.open - {s.hand.c})
    case Close(c) => s.(workers := s.workers - {c}, leaving := s.leaving + {c}, open := s.open - {c})
    case Post(c) => s.(free := s.free + 1, leaving := s.leaving - {c})
  }

  /** The connection the listener has not handed on. */
  function InHand(s: Sys): set<nat> {
    if s.hand == Polling then {} else {s.hand.c}
  }

  /** Every slot is free, with the listener or with one worker; every open connection belongs to the
      listener or to one worker. */
  ghost predicate Inv(s: Sys, slots: nat) {
    && s.free + (if s.hand.Admitted? then 1 else 0) + |s.workers| + |s.leaving| == slots
    && s.open == s.workers + InHand(s)
    && s.workers !! InHand(s) && s.workers !! s.leaving && s.leaving !! InHand(s)
  }

  lemma WorkerKeepsInv(s: Sys, c: nat, a: Act, slots: nat)
    requires Inv(s, slots) && Enabled(s, a) && (a == Close(c) || a == Post(c))
    ensures Inv(Step(s, a), slots)
  {
    if a == Close(c) {
      assert |s.workers - {c}| + 1 == |s.workers| && |s.leaving + {c}| == |s.leaving| + 1;
    } else {
      assert |s.leaving - {c}| + 1 == |s.leaving|;
    }
  }

  lemma SpawnKeepsInv(s: Sys, slots: nat)
    requires Inv(s, slots) && Enabled(s, Spawn)
    ensures Inv(Step(s, Spawn), slots)
  {
    assert |s.workers + {s.hand.c}| == |s.workers| + 1;
  }

  lemma AcceptKeepsInv(s: Sys, c: nat, slots: nat)
    requires Inv(s, slots) && Enabled(s, Accept(c))
    ensures Inv(Step(s, Accept(c)), slots)
  {
    assert s.open == s.workers;
  }

  lemma HandKeepsInv(s: Sys, a: Act, slots: nat)
    requires Inv(s, slots) && Enabled(s, a) && (a.TryWait? || a.SpawnFails? || a.CloseFailed?)
    ensures Inv(Step(s, a), slots)
  {
    assert InHand(s) == {s.hand.c};
    if Step(s, a).hand == Polling {
      assert s.open - {s.hand.c} == s.workers;
    }
  }

  lemma StepKeepsInv(s: Sys, a: Act, slots: nat)
    requires Inv(s, slots) && Enabled(s, a)
    ensures Inv(Step(s, a), slots)
  {
    match a
    case Close(c) => WorkerKeepsInv(s, c, a, slots);
    case Post(c) => WorkerKeepsInv(s, c, a, slots);
    case Accept(c) => AcceptKeepsInv(s, c, slots);
    case Spawn => SpawnKeepsInv(s, slots);
    case _ => HandKeepsInv(s, a, slots);
  }

  ghost predicate Reaches(s: Sys, acts: seq<Act>, s': Sys)
    decreases |acts|
  {
    if acts == [] then s == s' else Enabled(s, acts[0]) && Reaches(Step(s, acts[0]), acts[1..], s')
  }

  lemma {:induction false} RunKeepsInv(s: Sys, acts: seq<Act>, s': Sys, slots: nat)
    requires Inv(s, slots) && Reaches(s, acts, s')
    ensures Inv(s', slots)
    decreases |acts|
  {
    if acts != [] {
      StepKeepsInv(s, acts[0], slots);
      RunKeepsInv(Step(s, acts[0]), acts[1..], s', slots);
    }
  }

  /** In every run no slot is lost or made up, there are never more workers than slots nor more open
      connections than slots and one, and a connection is turned away exactly when workers hold
      every slot. */
  lemma {:induction false} EveryRun(slots: nat, acts: seq<Act>, s: Sys)
    requires Reaches(Sys(slots, Polling, {}, {}, {}), acts, s)
    ensures s.free + (if s.hand.Admitted? then 1 else 0) + |s.workers| + |s.leaving| == slots
    ensures |s.workers| <= slots && |s.open| <= slots + 1
    ensures s.hand.Accepted? ==> (s.hand.c !in Step(s, TryWait).open <==> |s.workers| + |s.leaving| == slots)
  {
    RunKeepsInv(Sys(slots, Polling, {}, {}, {}), acts, s, slots);
    assert |s.workers + InHand(s)| <= |s.workers| + 1 by {
      if s.hand == Polling {
        assert s.workers + InHand(s) == s.workers;
      }
    }
  }

  /** A connection that finds a slot gets a worker. */
  lemma {:induction false} Served(s: Sys, c: nat, s': Sys)
    requires Enabled(s, Accept(c)) && s.free > 0
    requires s' == Sys(s.free - 1, Polling, s.workers + {c}, s.leaving, s.open + {c})
    ensures Reaches(s, [Accept(c), TryWait, Spawn], s')
  {
    var acts := [Accept(c), TryWait, Spawn];
    var s1 := Step(s, Accept(c));
    assert acts[1..] == [TryWait, Spawn] && acts[1..][1..] == [Spawn];
    assert Reaches(Step(s1, TryWait), acts[1..][1..], s') by {
      assert acts[1..][1..][1..] == [];
    }
  }

  /** A connection that finds none is closed, and one whose worker cannot start is closed and its slot
      given back: either way all is as before. */
  lemma {:induction false} TurnedAway(s: Sys, c: nat)
    requires Enabled(s, Accept(c))
    ensures s.free == 0 ==> Reaches(s, [Accept(c), TryWait], s)
    ensures s.free > 0 ==> Reaches(s, [Accept(c), TryWait, SpawnFails, CloseFailed], s)
  {
    assert s.open + {c} - {c} == s.open;
    if s.free == 0 {
      var acts := [Accept(c), TryWait];
      assert acts[1..] == [TryWait] && acts[1..][1..] == [];
    } else {
      var acts := [Accept(c), TryWait, SpawnFails, CloseFailed];
      var s2 := Step(Step(s, Accept(c)), TryWait);
      assert acts[1..] == [TryWait, SpawnFails, CloseFailed] && acts[1..][1..] == [SpawnFails, CloseFailed];
      assert Reaches(s2, acts[1..][1..], s) by {
        assert acts[1..][1..][1..] == [CloseFailed] && acts[1..][1..][1..][1..] == [];
      }
    }
  }

  /** A worker that ends closes its connection and gives its slot back. */
  lemma {:induction false} Left(s: Sys, c: nat, s': Sys)
    requires c in s.workers && c !in s.leaving
    requires s' == Sys(s.free + 1, s.hand, s.workers - {c}, s.leaving, s.open - {c})
    ensures Reaches(s, [Close(c), Post(c)], s')
  {
    var acts := [Close(c), Post(c)];
    assert acts[1..] == [Post(c)] && acts[1..][1..] == [];
    assert s.leaving + {c} - {c} == s.leaving;
  }

  class Admission {
    var free: nat

    /** One accepted connection, undisturbed: it is handed to a worker with a slot, or closed with no
        slot gone. */
    method Admit(memory: bool, spawns: bool) returns (served: bool)
      modifies this
      ensures served <==> old(free) > 0 && memory && spawns
      ensures free + (if served then 1 else 0) == old(free)
    {
      if free == 0 {
        return false;
      }
      free := free - 1;
      if !memory {
        free := free + 1;
        return false;
      }
      if !spawns {
        free := free + 1;
        return false;
      }
      return true;
    }
  }
}
