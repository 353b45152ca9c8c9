/** What the handlers read from the controller, and the scancodes they push for it. */
module Readings {
  import opened Text
  import opened Rings
  import opened Mice
  import opened Interrupts
  import opened Machine

  /** A handler's read: for which vector, and the status and the data byte it gets. */
  datatype Reading = Reading(vector: nat, status: nat, data: nat)

  /** A scancode pushed, and for which vector. */
  datatype Push = Push(vector: nat, key: nat)

  /** The reads of a run, in order: a handler reads once, when it is entered. */
  function Reads(s: State, steps: seq<Step>): seq<Reading>
    requires Sane(s)
    decreases |steps|
  {
    if steps == [] then [] else ReadOf(s, steps[0]) + Reads(Do(true, s, steps[0]), steps[1..])
  }

  function ReadOf(s: State, step: Step): seq<Reading> {
    if step.Interrupting? && s.isr.Enter? then [Reading(s.isr.vector, step.status, step.data)] else []
  }

  /** The scancodes the reads ask for: every keyboard byte, and the key of every mouse packet that ends. */
  function Pushes(m: Mouse, rs: seq<Reading>): seq<Push>
    requires m.Ok()
    decreases |rs|
  {
    if rs == [] then []
    else PushOf(m, rs[0]) + Pushes(MouseAfter(m, rs[0]), rs[1..])
  }

  function PushOf(m: Mouse, r: Reading): seq<Push>
    requires m.Ok()
  {
    if r.vector == KEYBOARD_VECTOR then [Push(r.vector, r.data)]
    else
      var key := Interrupt(m, Event(r.status, r.data)).1;
      if key.Some? then [Push(r.vector, key.value)] else []
  }

  function MouseAfter(m: Mouse, r: Reading): (n: Mouse)
    requires m.Ok()
    ensures n.Ok()
  {
    if r.vector == KEYBOARD_VECTOR then m else Interrupt(m, Event(r.status, r.data)).0
  }

  function PushedKeys(pushes: seq<Push>): (keys: seq<nat>)
    ensures |keys| == |pushes|
    ensures forall i | 0 <= i < |keys| :: keys[i] == pushes[i].key
  {
    seq(|pushes|, i requires 0 <= i < |pushes| => pushes[i].key)
  }

  function OfferedKeys(offered: seq<Offer>): (keys: seq<nat>)
    ensures |keys| == |offered|
    ensures forall i | 0 <= i < |keys| :: keys[i] == offered[i].key
  {
    seq(|offered|, i requires 0 <= i < |offered| => offered[i].key)
  }

  // ---- The offers are what the reads ask for ----

  /** The scancode a handler has read and not offered to the ring yet. */
  function InTest(isr: Isr): seq<nat> {
    if isr.PushTest? then [isr.key] else []
  }

  lemma StepReads(s: State, step: Step)
    requires Inv(s) && ReadOf(s, step) != []
    ensures
      var t, r := Do(true, s, step), ReadOf(s, step)[0];
      && OfferedKeys(t.offered) + InTest(t.isr)
         == OfferedKeys(s.offered) + InTest(s.isr) + PushedKeys(PushOf(s.mouse, r))
      && t.mouse == MouseAfter(s.mouse, r)
  {
    hide Interrupt;
  }

  lemma StepReadsNothing(s: State, step: Step)
    requires Inv(s) && ReadOf(s, step) == []
    ensures
      var t := Do(true, s, step);
      OfferedKeys(t.offered) + InTest(t.isr) == OfferedKeys(s.offered) + InTest(s.isr) && t.mouse == s.mouse
  {
    hide Ring.Waiting, Interrupt;
    var t := Do(true, s, step);
    if t.offered != s.offered {
      assert OfferedKeys(t.offered) == OfferedKeys(s.offered) + [s.isr.key];
    }
  }

  lemma {:induction false} RunOffers(s: State, steps: seq<Step>)
    requires Inv(s)
    ensures
      var t := Execute(true, s, steps);
      OfferedKeys(t.offered) + InTest(t.isr)
      == OfferedKeys(s.offered) + InTest(s.isr) + PushedKeys(Pushes(s.mouse, Reads(s, steps)))
    decreases |steps|
  {
    hide Do, Sane, OfferedKeys, InTest, MouseAfter, PushOf, ReadOf;
    hide InOrder, AccessesSafe, FlagsRight, ServiceRight, DropsRight;
    if steps == [] {
      NothingPushed(s);
    } else {
      var t, rest := Do(true, s, steps[0]), steps[1..];
      DoKeepsInv(s, steps[0]);
      RunOffers(t, rest);
      ReadAtMostOnce(s, steps[0]);
      var before := OfferedKeys(s.offered) + InTest(s.isr);
      if ReadOf(s, steps[0]) == [] {
        StepReadsNothing(s, steps[0]);
        assert [] + Reads(t, rest) == Reads(t, rest);
      } else {
        var r := ReadOf(s, steps[0])[0];
        StepReads(s, steps[0]);
        OneMore(s.mouse, r, Reads(t, rest));
        Associate(before, PushedKeys(PushOf(s.mouse, r)), PushedKeys(Pushes(t.mouse, Reads(t, rest))));
      }
    }
  }

  lemma ReadAtMostOnce(s: State, step: Step)
    ensures |ReadOf(s, step)| <= 1
    ensures Inv(s) ==> s.mouse.Ok() && Do(true, s, step).mouse.Ok()
  {
  }

  lemma NothingPushed(s: State)
    requires Sane(s)
    ensures Reads(s, []) == [] && PushedKeys(Pushes(s.mouse, [])) == []
    ensures OfferedKeys(s.offered) + InTest(s.isr) + [] == OfferedKeys(s.offered) + InTest(s.isr)
  {
  }

  lemma OneMore(m: Mouse, r: Reading, rest: seq<Reading>)
    requires m.Ok()
    ensures PushedKeys(Pushes(m, [r] + rest)) == PushedKeys(PushOf(m, r)) + PushedKeys(Pushes(MouseAfter(m, r), rest))
  {
    assert ([r] + rest)[1..] == rest;
  }

  // ---- By device ----

  function KeysFor(keyboard: bool, pushes: seq<Push>): seq<nat> {
    if pushes == [] then []
    else
      (if (pushes[0].vector == 0x21) == keyboard then [pushes[0].key] else [])
      + KeysFor(keyboard, pushes[1..])
  }

  function KeyboardData(rs: seq<Reading>): seq<nat> {
    if rs == [] then []
    else (if rs[0].vector == 0x21 then [rs[0].data] else []) + KeyboardData(rs[1..])
  }

  function MouseEvents(rs: seq<Reading>): seq<Event> {
    if rs == [] then []
    else
      (if rs[0].vector == 0x21 then [] else [Event(rs[0].status, rs[0].data)]) + MouseEvents(rs[1..])
  }

  lemma {:induction false} PushesByDevice(m: Mouse, rs: seq<Reading>)
    requires m.Ok()
    ensures KeysFor(true, Pushes(m, rs)) == KeyboardData(rs)
    ensures KeysFor(false, Pushes(m, rs)) == Run(m, MouseEvents(rs)).1
    decreases |rs|
  {
    hide Interrupt;
    if rs != [] {
      var n, rest := MouseAfter(m, rs[0]), rs[1..];
      PushesByDevice(n, rest);
      var p := PushOf(m, rs[0]);
      if p == [] {
        assert p + Pushes(n, rest) == Pushes(n, rest);
      } else {
        assert (p + Pushes(n, rest))[1..] == Pushes(n, rest);
      }
      if rs[0].vector != KEYBOARD_VECTOR {
        var e := Event(rs[0].status, rs[0].data);
        assert MouseEvents(rs)[0] == e && MouseEvents(rs)[1..] == MouseEvents(rest);
        assert Run(m, MouseEvents(rs)).1 == Keys(Interrupt(m, e).1) + Run(n, MouseEvents(rest)).1;
      } else {
        assert MouseEvents(rs) == MouseEvents(rest);
      }
    }
  }

  /**
   In every run, whenever no handler is under way: the scancodes offered to the ring are, in order,
   what the reads of the handlers ask for. Of these the ones for the keyboard are every byte it was
   read for, and the ones for the mouse are the keys of the packets in the stream of its bytes.
   */
  lemma OffersAreRead(wheel: bool, steps: seq<Step>)
    ensures
      var s, rs := Execute(true, Init(wheel), steps), Reads(Init(wheel), steps);
      var pushes := Pushes(Init(wheel).mouse, rs);
      && (s.isr == NoIsr ==> OfferedKeys(s.offered) == PushedKeys(pushes))
      && KeysFor(true, pushes) == KeyboardData(rs)
      && KeysFor(false, pushes) == StreamKeys(wheel, Bytes(MouseEvents(rs)))
  {
    var s, rs := Init(wheel), Reads(Init(wheel), steps);
    InitInv(wheel);
    RunOffers(s, steps);
    PushesByDevice(s.mouse, rs);
    RunReadsStream(s.mouse, MouseEvents(rs));
    hide Execute, Reads, Pushes, StreamKeys, Run;
    assert s.mouse.Pending() + Bytes(MouseEvents(rs)) == Bytes(MouseEvents(rs));
    var t := Execute(true, s, steps);
    assert OfferedKeys(t.offered) + [] == OfferedKeys(t.offered);
    assert OfferedKeys([]) + [] + PushedKeys(Pushes(s.mouse, rs)) == PushedKeys(Pushes(s.mouse, rs));
  }
}
