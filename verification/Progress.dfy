/** Whatever happened before, the machine gets through its keys and back to sleep. */
module Progress {
  import opened Rings
  import opened Mice
  import opened Interrupts
  import opened Machine

  function Repeated(step: Step, n: nat): (steps: seq<Step>)
    ensures |steps| == n
  {
    seq(n, _ => step)
  }

  lemma RepeatedStep(s: State, step: Step, n: nat)
    requires Sane(s) && n > 0
    ensures Execute(true, s, Repeated(step, n)) == Execute(true, Do(true, s, step), Repeated(step, n - 1))
  {
    assert Repeated(step, n)[1..] == Repeated(step, n - 1);
  }

  // ---- The handler ends ----

  /** How many steps a handler has left at most. */
  function IsrRank(isr: Isr): nat {
    match isr
    case NoIsr => 0
    case Iret(_) => 1
    case Eoi(_, writes) => |writes| + 2
    case PushPublish(_, _, _) => 5
    case PushStore(_, _, _) => 6
    case PushTest(_, _) => 7
    case Enter(_) => 8
  }

  lemma IsrDescends(s: State, status: nat, data: nat)
    requires Sane(s) && s.isr != NoIsr
    ensures
      var t := Do(true, s, Interrupting(status, data));
      IsrRank(t.isr) < IsrRank(s.isr) && t.pc == s.pc && s.offered <= t.offered
  {
    hide Interrupt, Command, Ring.Waiting;
  }

  lemma {:induction false} HandlerFinishes(s: State, status: nat, data: nat, n: nat)
    requires Inv(s) && n >= IsrRank(s.isr)
    ensures
      var t := Execute(true, s, Repeated(Interrupting(status, data), n));
      Inv(t) && t.isr == NoIsr && t.pc == s.pc && s.offered <= t.offered
    decreases n
  {
    hide Do, Sane, InOrder, AccessesSafe, FlagsRight, ServiceRight, DropsRight;
    if n > 0 {
      var i := Interrupting(status, data);
      var t := Do(true, s, i);
      DoKeepsInv(s, i);
      RepeatedStep(s, i, n);
      if s.isr == NoIsr {
        NothingToHandle(s, status, data);
      } else {
        IsrDescends(s, status, data);
      }
      HandlerFinishes(t, status, data, n - 1);
    }
  }

  lemma NothingToHandle(s: State, status: nat, data: nat)
    requires Sane(s) && s.isr == NoIsr
    ensures Do(true, s, Interrupting(status, data)) == s
  {
  }

  // ---- The main loop goes to sleep ----

  /** How many steps the main loop takes to sleep when nothing interrupts it: four for each scancode. */
  function LoopRank(s: State): nat
    requires s.ring.Ok()
  {
    var toTest := 4 * s.ring.Waiting() + 5;
    match s.pc
    case Dead => 0
    case Halted => 0
    case Hlt => 1
    case StiBeforeHlt => 2
    case CheckRing => if s.ring.Waiting() == 0 then 3 else toTest + 2
    case Cli => if s.ring.Waiting() == 0 then 4 else toTest + 3
    case TestRing => toTest
    case BootSti => toTest + 1
    case StiAfter => toTest + 1
    case ReadSlot => toTest - 1
    case AdvanceTail(_) => toTest - 2
    case HandleKey(_) => toTest + 1
  }

  lemma LoopRankBounded(s: State)
    requires s.ring.Ok()
    ensures LoopRank(s) <= 516
  {
  }

  lemma LoopDescends(s: State)
    requires Inv(s) && s.isr == NoIsr && s.pc != Dead && s.pc != Halted
    ensures
      var t := Do(true, s, Loop(false));
      LoopRank(t) == LoopRank(s) - 1 && t.isr == NoIsr && t.pc != Dead && t.offered == s.offered
  {
    FullMeans127(s.ring);
    if s.pc.AdvanceTail? {
      AdvanceTakes(s.ring);
    }
    hide Ring.Contents, InOrder, ServiceRight, DropsRight;
  }

  lemma {:induction false} LoopSettles(s: State, n: nat)
    requires Inv(s) && s.isr == NoIsr && s.pc != Dead && n >= LoopRank(s)
    ensures
      var t := Execute(true, s, Repeated(Loop(false), n));
      t.pc == Halted && t.handled == Accepted(s.offered) && t.offered == s.offered
    decreases n
  {
    hide Do, Sane, AccessesSafe, ServiceRight, DropsRight;
    if n > 0 {
      var t := Do(true, s, Loop(false));
      DoKeepsInv(s, Loop(false));
      RepeatedStep(s, Loop(false), n);
      if s.pc == Halted {
        StillAsleep(s);
      } else {
        LoopDescends(s);
      }
      LoopSettles(t, n - 1);
    } else {
      RankZero(s);
    }
  }

  lemma StillAsleep(s: State)
    requires Sane(s) && s.isr == NoIsr && s.pc == Halted
    ensures Do(true, s, Loop(false)) == s && LoopRank(s) == 0
  {
  }

  lemma RankZero(s: State)
    requires Inv(s) && s.isr == NoIsr && s.pc != Dead && LoopRank(s) == 0
    ensures s.pc == Halted && s.handled == Accepted(s.offered)
  {
    assert s.handled + [] + [] + [] == s.handled;
  }

  /** The machine after the handler that runs, if any, has returned and the main loop has gone to sleep. */
  function Settled(s: State, status: nat, data: nat): State
    requires Sane(s)
  {
    Execute(true, Execute(true, s, Repeated(Interrupting(status, data), IsrRank(s.isr))), Repeated(Loop(false), 516))
  }

  /**
   From every reachable state that is not dead: once the handler returns, at most 516 steps of
   the main loop that nothing interrupts end asleep, every accepted scancode handled.
   */
  lemma AlwaysSettles(wheel: bool, steps: seq<Step>, status: nat, data: nat)
    ensures
      var s := Execute(true, Init(wheel), steps);
      var r := Settled(s, status, data);
      s.pc != Dead ==> r.pc == Halted && r.handled == Accepted(r.offered) && s.offered <= r.offered
  {
    InitInv(wheel);
    RunKeepsInv(Init(wheel), steps);
    var s := Execute(true, Init(wheel), steps);
    if s.pc != Dead {
      SettledOk(s, status, data);
    }
  }

  lemma SettledOk(s: State, status: nat, data: nat)
    requires Inv(s) && s.pc != Dead
    ensures
      var r := Settled(s, status, data);
      r.pc == Halted && r.handled == Accepted(r.offered) && s.offered <= r.offered
  {
    hide Execute, InOrder, AccessesSafe, FlagsRight, ServiceRight, DropsRight;
    var t := Execute(true, s, Repeated(Interrupting(status, data), IsrRank(s.isr)));
    HandlerFinishes(s, status, data, IsrRank(s.isr));
    LoopRankBounded(t);
    LoopSettles(t, 516);
  }

  // ---- A sleeping machine is woken ----

  /** Nothing waits and nothing is on its way. */
  predicate NoneQueued(s: State)
    requires s.ring.Ok()
  {
    s.ring.Contents() == [] && !s.isr.PushStore? && !s.isr.PushPublish?
  }

  lemma NoneQueuedStep(s: State, step: Step)
    requires Inv(s) && NoneQueued(s)
    ensures
      var t := Do(true, s, step);
      if |t.offered| == |s.offered| then t.offered == s.offered && NoneQueued(t)
      else exists o: Offer :: o.accepted && t.offered == s.offered + [o]
  {
    FullMeans127(s.ring);
    hide Ring.Contents, Interrupt, InOrder, ServiceRight, DropsRight, FlagsRight;
  }

  lemma OfferedStep(s: State, step: Step)
    requires Sane(s)
    ensures s.offered <= Do(true, s, step).offered
  {
  }

  lemma {:induction false} OfferedGrows(s: State, steps: seq<Step>)
    requires Sane(s)
    ensures s.offered <= Execute(true, s, steps).offered
    decreases |steps|
  {
    hide Do, Sane;
    if steps != [] {
      OfferedStep(s, steps[0]);
      OfferedGrows(Do(true, s, steps[0]), steps[1..]);
    }
  }

  /** The first scancode offered to an empty ring is accepted. */
  lemma {:induction false} FirstAccepted(s: State, steps: seq<Step>)
    requires Inv(s) && NoneQueued(s)
    ensures
      var t := Execute(true, s, steps);
      s.offered <= t.offered && (|t.offered| > |s.offered| ==> t.offered[|s.offered|].accepted)
    decreases |steps|
  {
    hide Do, Sane, InOrder, AccessesSafe, FlagsRight, ServiceRight, DropsRight, NoneQueued;
    if steps != [] {
      var n := Do(true, s, steps[0]);
      DoKeepsInv(s, steps[0]);
      NoneQueuedStep(s, steps[0]);
      OfferedGrows(n, steps[1..]);
      if |n.offered| == |s.offered| {
        FirstAccepted(n, steps[1..]);
      }
    }
  }

  lemma {:induction false} AcceptedGrows(a: seq<Offer>, b: seq<Offer>)
    requires a <= b
    ensures Accepted(a) <= Accepted(b)
    decreases |b|
  {
    if a != b {
      AcceptedGrows(a, b[..|b| - 1]);
    } else {
      assert a == b;
    }
  }

  /**
   However interrupts and steps go on from a sleeping machine: the first scancode that arrives is
   taken, and once the machine settles again it was the next one handled.
   */
  lemma SleepEnds(s: State, steps: seq<Step>, status: nat, data: nat)
    requires Inv(s) && s.pc.Halted?
    ensures
      var t := Execute(true, s, steps);
      |t.offered| > |s.offered| && t.pc != Dead ==>
        s.handled + [t.offered[|s.offered|].key] <= Settled(t, status, data).handled
  {
    hide Execute, Sane, InOrder, AccessesSafe, FlagsRight, ServiceRight, DropsRight, Settled, NoneQueued;
    var t := Execute(true, s, steps);
    AsleepHasNone(s);
    FirstAccepted(s, steps);
    RunKeepsInv(s, steps);
    if |t.offered| > |s.offered| && t.pc != Dead {
      SettledOk(t, status, data);
      var r := Settled(t, status, data);
      var o := t.offered[|s.offered|];
      AcceptedSnoc(s.offered, o);
      assert s.offered + [o] <= r.offered;
      AcceptedGrows(s.offered + [o], r.offered);
    }
  }

  lemma AsleepHasNone(s: State)
    requires Inv(s) && s.pc.Halted?
    ensures NoneQueued(s) && s.handled == Accepted(s.offered)
  {
    assert s.handled + [] + [] + [] == s.handled;
  }
}
