/**
 The main loop and the interrupt handlers as a machine that takes one memory access or one
 instruction at a time. TestRing, CheckRing and PushTest compare two indices in one step, but
 one of the two is written only by the side that does the comparing, so that each is a single
 access to what the other side may change.

 Interrupt gates clear the interrupt flag, so handlers do not nest; an interrupt may come
 between any two steps of the main loop that allow it.

 STI enables interrupts only after the next instruction when they were disabled before it
 (Intel SDM Vol. 2, STI and HLT; Vol. 3A, section 6.8.1). The parameter delay says whether
 the processor does so.
 */
module Machine {
  import opened Text
  import opened Rings
  import opened Mice
  import opened Interrupts

  /** Where the main loop is: the next thing it does. */
  datatype Pc =
    | BootSti
    | TestRing
    | ReadSlot
    | AdvanceTail(scancode: nat)
    | HandleKey(scancode: nat)
    | Cli
    | CheckRing
    | StiBeforeHlt
    | Hlt
    | Halted
    | StiAfter
    | Dead

  /** Where the interrupt handler is, if one runs. */
  datatype Isr =
    | NoIsr
    | Enter(vector: nat)
    | PushTest(vector: nat, key: nat)
    | PushStore(vector: nat, key: nat, next: nat)
    | PushPublish(vector: nat, key: nat, next: nat)
    | Eoi(vector: nat, writes: seq<PortWrite>)
    | Iret(vector: nat)

  /** A scancode a handler pushed: whether it was taken, and how many were waiting. */
  datatype Offer = Offer(key: nat, accepted: bool, waiting: nat)

  datatype State = State(
    ring: Ring, pc: Pc, enabled: bool, shadow: bool, isr: Isr, pics: Pics, mouse: Mouse,
    keyPending: bool, mousePending: bool, offered: seq<Offer>, handled: seq<nat>)

  datatype Step =
    | Loop(stops: bool)
    | Interrupting(status: nat, data: nat)
    | RaiseKey
    | RaiseMouse
    | Take(vector: nat)

  function Init(wheel: bool): State {
    State(EmptyRing(), BootSti, false, false, NoIsr, Idle(), Mouse(wheel, 0, [0, 0, 0, 0]), false, false, [], [])
  }

  /** Indices and bits are in range. */
  predicate Sane(s: State) {
    && s.ring.Ok() && s.mouse.Ok() && s.pics.Ok()
    && (s.isr.PushStore? || s.isr.PushPublish? ==> s.isr.next < KEY_BUFFER_SIZE)
  }

  // ---- The main loop ----

  function Sti(delay: bool, s: State): State {
    s.(enabled := true, shadow := delay && !s.enabled)
  }

  /** One step of the main loop; stops says whether the key handled halts the machine. */
  function MainStep(delay: bool, s: State, stops: bool): (r: State)
    requires s.ring.Ok()
    ensures r.ring == if s.pc.AdvanceTail? then s.ring.Advance() else s.ring
    ensures r.mouse == s.mouse && r.pics == s.pics && r.isr == s.isr && r.offered == s.offered
  {
    var t := s.(shadow := false);
    match s.pc
    case BootSti => Sti(delay, s).(pc := TestRing)
    case TestRing => t.(pc := if s.ring.head != s.ring.tail then ReadSlot else Cli)
    case ReadSlot => t.(pc := AdvanceTail(s.ring.slots[s.ring.tail]))
    case AdvanceTail(scancode) => t.(ring := s.ring.Advance(), pc := HandleKey(scancode))
    case HandleKey(scancode) =>
      t.(handled := s.handled + [scancode],
         enabled := s.enabled && !stops,
         pc := if stops then Dead else TestRing)
    case Cli => t.(enabled := false, pc := CheckRing)
    case CheckRing => t.(pc := if s.ring.head != s.ring.tail then StiAfter else StiBeforeHlt)
    case StiBeforeHlt => Sti(delay, s).(pc := Hlt)
    case Hlt => t.(pc := Halted)
    case Halted => s
    case StiAfter => Sti(delay, s).(pc := TestRing)
    case Dead => s
  }

  // ---- The interrupt handlers ----

  predicate Pending(s: State, vector: nat) {
    (vector == KEYBOARD_VECTOR && s.keyPending) || (vector == MOUSE_VECTOR && s.mousePending)
  }

  predicate CanTake(s: State, vector: nat)
    requires s.pics.Ok()
  {
    && Pending(s, vector) && s.enabled && !s.shadow && s.isr == NoIsr && s.pc != Dead
    && CanDeliver(s.pics, vector - PIC_OFFSET)
  }

  /** The gate clears the interrupt flag; a halted processor goes on after the HLT. */
  function TakeStep(s: State, vector: nat): State
    requires s.pics.Ok() && CanTake(s, vector)
  {
    s.(enabled := false,
       isr := Enter(vector),
       pics := Deliver(s.pics, vector - PIC_OFFSET),
       keyPending := s.keyPending && vector != KEYBOARD_VECTOR,
       mousePending := s.mousePending && vector != MOUSE_VECTOR,
       pc := if s.pc == Halted then StiAfter else s.pc)
  }

  function IsrStep(s: State, status: nat, data: nat): (r: State)
    requires Sane(s)
    ensures Sane(r)
  {
    match s.isr
    case NoIsr => s
    case Enter(vector) =>
      if vector == KEYBOARD_VECTOR then s.(isr := PushTest(vector, data))
      else
        var (mouse, key) := Interrupt(s.mouse, Event(status, data));
        s.(mouse := mouse,
           isr := if key.Some? then PushTest(vector, key.value) else Eoi(vector, Acknowledge(vector)))
    case PushTest(vector, key) =>
      var next := Next(s.ring.head);
      var full := next == s.ring.tail;
      s.(offered := s.offered + [Offer(key, !full, s.ring.Waiting())],
         isr := if full then Eoi(vector, Acknowledge(vector)) else PushStore(vector, key, next))
    case PushStore(vector, key, next) =>
      s.(ring := s.ring.Store(key), isr := PushPublish(vector, key, next))
    case PushPublish(vector, key, next) =>
      s.(ring := s.ring.Publish(next), isr := Eoi(vector, Acknowledge(vector)))
    case Eoi(vector, writes) =>
      if writes == [] then s.(isr := Iret(vector))
      else s.(pics := Command(s.pics, writes[0]), isr := Eoi(vector, writes[1..]))
    case Iret(vector) => s.(isr := NoIsr, enabled := true)
  }

  /** One step of the machine; a step that is not possible leaves it as it is. */
  function Do(delay: bool, s: State, step: Step): (r: State)
    requires Sane(s)
    ensures Sane(r)
  {
    match step
    case Loop(stops) => if s.isr == NoIsr then MainStep(delay, s, stops) else s
    case Interrupting(status, data) => IsrStep(s, status, data)
    case RaiseKey => s.(keyPending := true)
    case RaiseMouse => s.(mousePending := true)
    case Take(vector) => if CanTake(s, vector) then TakeStep(s, vector) else s
  }

  function Execute(delay: bool, s: State, steps: seq<Step>): (r: State)
    requires Sane(s)
    ensures Sane(r)
    decreases |steps|
  {
    if steps == [] then s else Execute(delay, Do(delay, s, steps[0]), steps[1..])
  }

  // ---- The invariant ----

  function Accepted(offered: seq<Offer>): seq<nat> {
    if offered == [] then []
    else
      var last := offered[|offered| - 1];
      Accepted(offered[..|offered| - 1]) + (if last.accepted then [last.key] else [])
  }

  /** The scancode taken out of the ring and not handled yet. */
  function InHand(pc: Pc): seq<nat> {
    if pc.HandleKey? then [pc.scancode] else []
  }

  /** The scancode accepted and not in the ring yet. */
  function OnTheWay(isr: Isr): seq<nat> {
    if isr.PushStore? || isr.PushPublish? then [isr.key] else []
  }

  /** Handled, in hand, waiting and on the way, in this order, are the accepted scancodes. */
  predicate InOrder(s: State)
    requires s.ring.Ok()
  {
    Accepted(s.offered) == s.handled + InHand(s.pc) + s.ring.Contents() + OnTheWay(s.isr)
  }

  /** What each access of the push and of the take relies on. */
  predicate AccessesSafe(s: State)
    requires s.ring.Ok()
  {
    && (s.pc.ReadSlot? || s.pc.AdvanceTail? ==> s.ring.head != s.ring.tail)
    && (s.pc.AdvanceTail? ==> s.pc.scancode == s.ring.slots[s.ring.tail])
    && (s.isr.PushStore? || s.isr.PushPublish? ==> s.isr.next == Next(s.ring.head) != s.ring.tail)
    && (s.isr.PushPublish? ==> s.isr.key == s.ring.slots[s.ring.head])
  }

  /** The interrupt flag at each point of the main loop, and the empty ring around HLT. */
  predicate FlagsRight(s: State)
    requires s.ring.Ok()
  {
    && (s.shadow ==> s.enabled)
    && (s.isr != NoIsr ==> !s.enabled && !s.shadow && !Masked(s.pc) && !s.pc.Hlt? && !s.pc.Halted?)
    && (Masked(s.pc) ==> !s.enabled)
    && (s.isr == NoIsr && !Masked(s.pc) && !s.pc.StiAfter? ==> s.enabled)
    && (s.pc.Hlt? ==> s.shadow)
    && (s.pc.Halted? ==> !s.shadow)
    && (s.pc.StiBeforeHlt? || s.pc.Hlt? || s.pc.Halted? ==> s.ring.Contents() == [])
  }

  /** Where the main loop runs with interrupts disabled. */
  predicate Masked(pc: Pc) {
    pc.BootSti? || pc.CheckRing? || pc.StiBeforeHlt? || pc.Dead?
  }

  /** What is in service is what the running handler has still to acknowledge. */
  predicate ServiceRight(s: State) {
    if s.isr.NoIsr? || s.isr.Iret? then s.pics == Idle()
    else if s.isr.Eoi? then Commands(s.pics, s.isr.writes) == Idle()
    else
      && (s.isr.vector == KEYBOARD_VECTOR || s.isr.vector == MOUSE_VECTOR)
      && s.pics == Deliver(Idle(), s.isr.vector - PIC_OFFSET)
  }

  /** A scancode is dropped exactly when 127 are waiting. */
  predicate DropsRight(s: State) {
    forall o | o in s.offered :: o.accepted <==> o.waiting < 127
  }

  predicate Inv(s: State) {
    && Sane(s)
    && InOrder(s)
    && AccessesSafe(s)
    && FlagsRight(s)
    && ServiceRight(s)
    && DropsRight(s)
  }

  // ---- Every step keeps the invariant ----

  lemma InitInv(wheel: bool)
    ensures Inv(Init(wheel))
  {
  }

  lemma AdvanceKeepsInv(s: State)
    requires Inv(s) && s.isr == NoIsr && s.pc.AdvanceTail?
    ensures Inv(MainStep(true, s, false))
  {
    AdvanceTakes(s.ring);
    hide Ring.Contents, Ring.Waiting;
    var h, c, t := s.handled, [s.pc.scancode], s.ring.Advance().Contents();
    assert h + [] + (c + t) + [] == h + c + t + [];
  }

  lemma LoopKeepsFlags(s: State, stops: bool)
    requires Inv(s) && s.isr == NoIsr && !s.pc.AdvanceTail?
    ensures FlagsRight(MainStep(true, s, stops))
  {
    FullMeans127(s.ring);
    hide Ring.Contents, Ring.Waiting;
  }

  lemma LoopKeepsSafe(s: State, stops: bool)
    requires Inv(s) && s.isr == NoIsr && !s.pc.AdvanceTail?
    ensures AccessesSafe(MainStep(true, s, stops))
  {
    hide Ring.Contents, Ring.Waiting;
  }

  lemma LoopKeepsOrder(s: State, stops: bool)
    requires Inv(s) && s.isr == NoIsr && !s.pc.AdvanceTail?
    ensures InOrder(MainStep(true, s, stops))
  {
    hide Ring.Contents, Ring.Waiting;
    var t := MainStep(true, s, stops);
    assert t.handled + InHand(t.pc) == s.handled + InHand(s.pc) by {
      assert s.handled + [] == s.handled;
    }
  }

  lemma LoopKeepsInv(s: State, stops: bool)
    requires Inv(s) && s.isr == NoIsr
    ensures Inv(MainStep(true, s, stops))
  {
    if s.pc.AdvanceTail? {
      AdvanceKeepsInv(s);
    } else {
      LoopKeepsFlags(s, stops);
      LoopKeepsSafe(s, stops);
      LoopKeepsOrder(s, stops);
      hide FlagsRight, AccessesSafe, InOrder, MainStep;
    }
  }

  lemma TakeKeepsInv(s: State, vector: nat)
    requires Inv(s) && CanTake(s, vector)
    ensures Inv(TakeStep(s, vector))
  {
  }

  lemma AcceptedSnoc(offered: seq<Offer>, o: Offer)
    ensures Accepted(offered + [o]) == Accepted(offered) + (if o.accepted then [o.key] else [])
  {
    assert (offered + [o])[..|offered|] == offered;
  }

  lemma TestKeepsInv(s: State)
    requires Inv(s) && s.isr.PushTest?
    ensures Inv(IsrStep(s, 0, 0))
  {
    FullMeans127(s.ring);
    AcceptedSnoc(s.offered, Offer(s.isr.key, Next(s.ring.head) != s.ring.tail, s.ring.Waiting()));
    AcknowledgeEnds(s.isr.vector - PIC_OFFSET);
    hide Ring.Contents, Ring.Waiting, Accepted, Commands, Acknowledge, Deliver;
  }

  lemma StoreKeepsInv(s: State)
    requires Inv(s) && s.isr.PushStore?
    ensures Inv(IsrStep(s, 0, 0))
  {
    StoreUnseen(s.ring, s.isr.key);
    hide Ring.Contents, Ring.Waiting, Accepted, Commands, Acknowledge, Deliver;
  }

  lemma PublishKeepsInv(s: State)
    requires Inv(s) && s.isr.PushPublish?
    ensures Inv(IsrStep(s, 0, 0))
  {
    PublishAppends(s.ring);
    AcknowledgeEnds(s.isr.vector - PIC_OFFSET);
    hide Ring.Contents, Ring.Waiting, Accepted, Commands, Acknowledge, Deliver;
    var h := s.handled + InHand(s.pc);
    assert h + s.ring.Contents() + [s.isr.key] == h + (s.ring.Contents() + [s.isr.key]) + [];
  }

  lemma EnterKeepsInv(s: State, status: nat, data: nat)
    requires Inv(s) && s.isr.Enter?
    ensures Inv(IsrStep(s, status, data))
  {
    var t := IsrStep(s, status, data);
    assert t == s.(mouse := t.mouse, isr := t.isr);
    assert t.isr.vector == s.isr.vector && (t.isr.PushTest? || t.isr == Eoi(s.isr.vector, Acknowledge(s.isr.vector)));
    AcknowledgeEnds(s.isr.vector - PIC_OFFSET);
    hide IsrStep, Ring.Contents, Ring.Waiting, Accepted, Commands, Acknowledge, Deliver, Interrupt;
  }

  lemma EoiKeepsInv(s: State)
    requires Inv(s) && (s.isr.Eoi? || s.isr.Iret?)
    ensures Inv(IsrStep(s, 0, 0))
  {
    hide Ring.Contents, Ring.Waiting, Accepted, Highest;
  }

  lemma IsrKeepsInv(s: State, status: nat, data: nat)
    requires Inv(s)
    ensures Inv(IsrStep(s, status, data))
  {
    match s.isr
    case NoIsr =>
    case Enter(_) => EnterKeepsInv(s, status, data);
    case PushTest(_, _) => TestKeepsInv(s);
    case PushStore(_, _, _) => StoreKeepsInv(s);
    case PushPublish(_, _, _) => PublishKeepsInv(s);
    case Eoi(_, _) => EoiKeepsInv(s);
    case Iret(_) => EoiKeepsInv(s);
  }

  lemma DoKeepsInv(s: State, step: Step)
    requires Inv(s)
    ensures Inv(Do(true, s, step))
  {
    match step
    case Loop(stops) =>
      if s.isr == NoIsr {
        LoopKeepsInv(s, stops);
      }
    case Interrupting(status, data) => IsrKeepsInv(s, status, data);
    case Take(vector) =>
      if CanTake(s, vector) {
        TakeKeepsInv(s, vector);
      }
    case _ =>
  }

  lemma {:induction false} RunKeepsInv(s: State, steps: seq<Step>)
    requires Inv(s)
    ensures Inv(Execute(true, s, steps))
    decreases |steps|
  {
    if steps != [] {
      DoKeepsInv(s, steps[0]);
      RunKeepsInv(Do(true, s, steps[0]), steps[1..]);
    }
  }

  // ---- What holds in every run ----

  /**
   However interrupts fall between the steps: the scancodes handled, with the one in hand
   and those waiting, are the accepted ones in order; one is dropped only when 127 wait.
   */
  lemma EveryKeyOnceInOrder(wheel: bool, steps: seq<Step>)
    ensures
      var s := Execute(true, Init(wheel), steps);
      && Accepted(s.offered) == s.handled + InHand(s.pc) + s.ring.Contents() + OnTheWay(s.isr)
      && s.handled <= Accepted(s.offered)
      && (forall o | o in s.offered :: o.accepted <==> o.waiting < 127)
  {
    InitInv(wheel);
    RunKeepsInv(Init(wheel), steps);
  }

  /**
   No lost wake-up: whenever the processor is halted the ring is empty, and any interrupt
   that is pending can be taken at once.
   */
  lemma NeverSleepsOnInput(wheel: bool, steps: seq<Step>, vector: nat)
    ensures
      var s := Execute(true, Init(wheel), steps);
      s.pc.Halted? ==>
        && s.ring.Contents() == [] && s.handled == Accepted(s.offered)
        && (Pending(s, vector) ==> CanTake(s, vector))
  {
    InitInv(wheel);
    RunKeepsInv(Init(wheel), steps);
  }

  /** Whenever interrupts are enabled nothing is in service and no handler runs. */
  lemma EnabledMeansIdle(wheel: bool, steps: seq<Step>)
    ensures
      var s := Execute(true, Init(wheel), steps);
      s.enabled ==> s.pics == Idle() && s.isr == NoIsr
  {
    InitInv(wheel);
    RunKeepsInv(Init(wheel), steps);
  }

  /** A slot is written only while it is free, and read only while it holds the oldest scancode. */
  lemma SlotsNeverClash(wheel: bool, steps: seq<Step>)
    ensures
      var s := Execute(true, Init(wheel), steps);
      && (s.isr.PushStore? ==> s.ring.Store(s.isr.key).Contents() == s.ring.Contents())
      && (s.pc.ReadSlot? || s.pc.AdvanceTail? ==>
            s.ring.Contents() != [] && s.ring.Contents()[0] == s.ring.slots[s.ring.tail])
      && (s.pc.AdvanceTail? ==> s.pc.scancode == s.ring.Contents()[0])
  {
    InitInv(wheel);
    RunKeepsInv(Init(wheel), steps);
    var r := Execute(true, Init(wheel), steps).ring;
    StoreUnseen(r, 0);
    if r.head != r.tail {
      AdvanceTakes(r);
    }
  }

  // ---- Waking up ----

  /** A keyboard interrupt from beginning to end. */
  function KeyInterrupt(key: nat): seq<Step> {
    var i := Interrupting(0, key);
    [Take(KEYBOARD_VECTOR), i, i, i, i, i, i, i]
  }

  function AfterKeyInterrupt(s: State, key: nat): State
    requires s.ring.Ok()
  {
    s.(ring := s.ring.Push(key),
       keyPending := false,
       offered := s.offered + [Offer(key, true, s.ring.Waiting())],
       pc := if s.pc == Halted then StiAfter else s.pc)
  }

  lemma ExecuteOne(delay: bool, s: State, step: Step, rest: seq<Step>)
    requires Sane(s)
    ensures Execute(delay, s, [step] + rest) == Execute(delay, Do(delay, s, step), rest)
  {
    assert ([step] + rest)[1..] == rest;
  }

  lemma {:induction false} ExecuteAppend(delay: bool, s: State, a: seq<Step>, b: seq<Step>)
    requires Sane(s)
    ensures Execute(delay, s, a + b) == Execute(delay, Execute(delay, s, a), b)
    decreases |a|
  {
    hide Do, Sane;
    if a == [] {
      assert a + b == b;
    } else {
      ExecuteAppend(delay, Do(delay, s, a[0]), a[1..], b);
      assert (a + b)[1..] == a[1..] + b;
    }
  }

  lemma ExecuteThree(delay: bool, s: State, a: Step, b: Step, c: Step)
    requires Sane(s)
    ensures Execute(delay, s, [a, b, c]) == Do(delay, Do(delay, Do(delay, s, a), b), c)
  {
    hide Do, Sane;
    var s1 := Do(delay, s, a);
    var s2 := Do(delay, s1, b);
    ExecuteOne(delay, s, a, [b, c]);
    ExecuteOne(delay, s1, b, [c]);
    ExecuteOne(delay, s2, c, []);
    assert [a] + [b, c] == [a, b, c] && [b] + [c] == [b, c] && [c] + [] == [c];
  }

  /** The push, as the handler does it one access at a time. */
  lemma HandlerPushes(delay: bool, s: State, key: nat)
    requires Sane(s) && s.isr == PushTest(KEYBOARD_VECTOR, key) && Next(s.ring.head) != s.ring.tail
    ensures
      var i := Interrupting(0, key);
      Execute(delay, s, [i, i, i]) ==
        s.(ring := s.ring.Push(key),
           offered := s.offered + [Offer(key, true, s.ring.Waiting())],
           isr := Eoi(KEYBOARD_VECTOR, Acknowledge(KEYBOARD_VECTOR)))
  {
    var i := Interrupting(0, key);
    ExecuteThree(delay, s, i, i, i);
  }

  /** The acknowledgement and the return. */
  lemma HandlerReturns(delay: bool, s: State, key: nat)
    requires Sane(s) && s.isr == Eoi(KEYBOARD_VECTOR, Acknowledge(KEYBOARD_VECTOR))
    requires s.pics == Deliver(Idle(), KEYBOARD_VECTOR - PIC_OFFSET)
    ensures
      var i := Interrupting(0, key);
      Execute(delay, s, [i, i, i]) == s.(pics := Idle(), isr := NoIsr, enabled := true)
  {
    var i := Interrupting(0, key);
    AcknowledgeEnds(KEYBOARD_VECTOR - PIC_OFFSET);
    var w := Acknowledge(KEYBOARD_VECTOR);
    assert w[1..] == [];
    assert Commands(s.pics, w) == Commands(Command(s.pics, w[0]), []);
    ExecuteThree(delay, s, i, i, i);
  }

  /** The rest of the interrupt after the scancode was read. */
  lemma HandlerRuns(delay: bool, s: State, key: nat)
    requires Sane(s) && s.isr == PushTest(KEYBOARD_VECTOR, key) && Next(s.ring.head) != s.ring.tail
    requires s.pics == Deliver(Idle(), KEYBOARD_VECTOR - PIC_OFFSET)
    ensures
      var i := Interrupting(0, key);
      Execute(delay, s, [i, i, i, i, i, i]) ==
        s.(ring := s.ring.Push(key),
           offered := s.offered + [Offer(key, true, s.ring.Waiting())],
           pics := Idle(), isr := NoIsr, enabled := true)
  {
    var i := Interrupting(0, key);
    HandlerPushes(delay, s, key);
    hide Do, Deliver, Acknowledge, Ring.Push;
    HandlerReturns(delay, Execute(delay, s, [i, i, i]), key);
    hide Execute;
    ExecuteAppend(delay, s, [i, i, i], [i, i, i]);
    assert [i, i, i] + [i, i, i] == [i, i, i, i, i, i];
  }

  lemma KeyInterruptEffect(delay: bool, s: State, key: nat)
    requires Sane(s) && s.pics == Idle() && s.keyPending && CanTake(s, KEYBOARD_VECTOR)
    requires Next(s.ring.head) != s.ring.tail
    ensures Execute(delay, s, KeyInterrupt(key)) == AfterKeyInterrupt(s, key)
  {
    var i := Interrupting(0, key);
    var s1 := TakeStep(s, KEYBOARD_VECTOR);
    var s2 := s1.(isr := PushTest(KEYBOARD_VECTOR, key));
    assert Do(delay, s, Take(KEYBOARD_VECTOR)) == s1 && Do(delay, s1, i) == s2;
    HandlerRuns(delay, s2, key);
    hide Execute, Do, Sane, Ring.Push, Deliver;
    ExecuteOne(delay, s, Take(KEYBOARD_VECTOR), [i, i, i, i, i, i, i]);
    ExecuteOne(delay, s1, i, [i, i, i, i, i, i]);
    assert [Take(KEYBOARD_VECTOR)] + [i, i, i, i, i, i, i] == KeyInterrupt(key);
    assert [i] + [i, i, i, i, i, i] == [i, i, i, i, i, i, i];
  }

  /** The run that loses a wake-up: the key comes between STI and HLT. */
  function FatalRun(key: nat): seq<Step> {
    [Loop(false), Loop(false), Loop(false), Loop(false), Loop(false), RaiseKey] + KeyInterrupt(key) + [Loop(false)]
  }

  /**
   The delay of STI is what the protocol rests on: on a processor without it, a run ends
   halted with a key in the ring and nothing pending that would wake it.
   */
  lemma WithoutDelayAKeyIsLost(wheel: bool, key: nat)
    ensures
      var s := Execute(false, Init(wheel), FatalRun(key));
      && s.pc.Halted? && s.isr == NoIsr && !s.keyPending && !s.mousePending
      && s.ring.Contents() == [key] && s.handled == []
  {
    var step := Loop(false);
    var s0 := Init(wheel);
    var ready := s0.(pc := Hlt, enabled := true, keyPending := true);
    var head := [step, step, step, step, step, RaiseKey];
    ReachesHlt(s0);
    KeyAtHlt(ready, key);
    ExecuteAppend(false, s0, head, KeyInterrupt(key) + [step]);
    Associate(head, KeyInterrupt(key), [step]);
    hide Execute, KeyInterrupt;
  }

  /** Without the delay the interrupt is taken before the HLT, and the HLT comes after it. */
  lemma HltComesAfterKey(s: State, key: nat)
    requires Sane(s) && s.pc.Hlt? && s.enabled && !s.shadow && s.isr == NoIsr && s.pics == Idle()
    requires s.keyPending && Next(s.ring.head) != s.ring.tail
    ensures Execute(false, s, KeyInterrupt(key) + [Loop(false)]) == AfterKeyInterrupt(s, key).(pc := Halted)
  {
    var step := Loop(false);
    var t := AfterKeyInterrupt(s, key);
    KeyInterruptEffect(false, s, key);
    assert Do(false, t, step) == t.(pc := Halted);
    hide Do, KeyInterrupt, CanTake;
    ExecuteAppend(false, s, KeyInterrupt(key), [step]);
    ExecuteOne(false, t, step, []);
    assert [step] + [] == [step];
  }

  lemma KeyAtHlt(s: State, key: nat)
    requires Sane(s) && s.pc.Hlt? && s.enabled && !s.shadow && s.isr == NoIsr && s.pics == Idle()
    requires s.keyPending && s.ring.Contents() == []
    ensures
      var r := Execute(false, s, KeyInterrupt(key) + [Loop(false)]);
      && r.pc.Halted? && r.isr == NoIsr && !r.keyPending && r.mousePending == s.mousePending
      && r.ring.Ok() && r.ring.Contents() == [key] && r.handled == s.handled
  {
    hide Execute, Do, KeyInterrupt, CanTake;
    FullMeans127(s.ring);
    PushAppends(s.ring, key);
    HltComesAfterKey(s, key);
  }

  lemma ReachesHlt(s: State)
    requires Sane(s) && s.isr == NoIsr && s.pc.BootSti? && !s.shadow && s.ring.head == s.ring.tail
    ensures
      var step := Loop(false);
      Execute(false, s, [step, step, step, step, step, RaiseKey]) == s.(pc := Hlt, enabled := true, keyPending := true)
  {
    var step := Loop(false);
    var s1 := s.(pc := TestRing, enabled := true);
    var s2 := s1.(pc := Cli);
    var s3 := s.(pc := CheckRing, enabled := false);
    var s4 := s3.(pc := StiBeforeHlt);
    var s5 := s.(pc := Hlt, enabled := true);
    assert Do(false, s, step) == s1 && Do(false, s1, step) == s2 && Do(false, s2, step) == s3;
    assert Do(false, s3, step) == s4 && Do(false, s4, step) == s5;
    assert Do(false, s5, RaiseKey) == s5.(keyPending := true);
    hide Do, Sane;
    ExecuteThree(false, s, step, step, step);
    ExecuteThree(false, s3, step, step, RaiseKey);
    ExecuteAppend(false, s, [step, step, step], [step, step, RaiseKey]);
    assert [step, step, step] + [step, step, RaiseKey] == [step, step, step, step, step, RaiseKey];
  }
}
