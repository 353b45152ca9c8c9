/** Interrupt dispatch, and what its acknowledgements do to the two interrupt controllers. */
module Interrupts {

  const PIC_OFFSET: nat := 0x20
  const PIC_IRQ_COUNT: nat := 16
  const SLAVE_OFFSET: nat := 0x28
  const PIC_MASTER_COMMAND: nat := 0x20
  const PIC_SLAVE_COMMAND: nat := 0xA0
  const PIC_EOI: nat := 0x20

  const KEYBOARD_VECTOR: nat := 0x21
  const MOUSE_VECTOR: nat := 0x2C

  datatype PortWrite = PortWrite(port: nat, value: nat)

  /** The end-of-interrupt commands of a vector: the slave first, when the IRQ came through it. */
  function Acknowledge(vector: nat): seq<PortWrite> {
    if vector < PIC_OFFSET || vector >= PIC_OFFSET + PIC_IRQ_COUNT then []
    else
      (if vector >= SLAVE_OFFSET then [PortWrite(PIC_SLAVE_COMMAND, PIC_EOI)] else [])
      + [PortWrite(PIC_MASTER_COMMAND, PIC_EOI)]
  }

  // ---- The controllers ----

  /** The in-service bits of each controller, line 0 having the highest priority. */
  datatype Pics = Pics(master: seq<bool>, slave: seq<bool>) {
    predicate Ok() {
      |master| == 8 && |slave| == 8
    }
  }

  function Quiet(): (lines: seq<bool>)
    ensures |lines| == 8 && forall i | 0 <= i < 8 :: !lines[i]
  {
    [false, false, false, false, false, false, false, false]
  }

  /** Nothing in service. */
  function Idle(): Pics {
    Pics(Quiet(), Quiet())
  }

  /** The first line in service, or 8. */
  function Highest(lines: seq<bool>, from: nat): (i: nat)
    requires from <= |lines|
    ensures from <= i <= |lines|
    ensures i < |lines| ==> lines[i]
    ensures forall j | from <= j < i :: !lines[j]
    decreases |lines| - from
  {
    if from == |lines| || lines[from] then from else Highest(lines, from + 1)
  }

  /** A non-specific end of interrupt clears the line of highest priority in service. */
  function EndOfInterrupt(lines: seq<bool>): (r: seq<bool>)
    ensures |r| == |lines|
  {
    var i := Highest(lines, 0);
    if i < |lines| then lines[i := false] else lines
  }

  function Command(p: Pics, w: PortWrite): (r: Pics)
    ensures p.Ok() ==> r.Ok()
  {
    if w.value != PIC_EOI then p
    else if w.port == PIC_MASTER_COMMAND then p.(master := EndOfInterrupt(p.master))
    else if w.port == PIC_SLAVE_COMMAND then p.(slave := EndOfInterrupt(p.slave))
    else p
  }

  function Commands(p: Pics, writes: seq<PortWrite>): Pics
    decreases |writes|
  {
    if writes == [] then p else Commands(Command(p, writes[0]), writes[1..])
  }

  /** An IRQ is passed on when nothing of the same or a higher priority is in service. */
  predicate CanDeliver(p: Pics, irq: nat)
    requires p.Ok()
  {
    && irq < 16
    && Highest(p.master, 0) > (if irq < 8 then irq else 2)
    && (irq >= 8 ==> Highest(p.slave, 0) > irq - 8)
  }

  /** IRQs 8 to 15 reach the processor through line 2 of the master. */
  function Deliver(p: Pics, irq: nat): Pics
    requires p.Ok() && irq < 16
  {
    if irq < 8 then p.(master := p.master[irq := true])
    else Pics(p.master[2 := true], p.slave[irq - 8 := true])
  }

  /** The acknowledgements of an IRQ are exactly what takes the controllers back to idle. */
  lemma AcknowledgeEnds(irq: nat)
    requires irq < 16
    ensures Commands(Deliver(Idle(), irq), Acknowledge(PIC_OFFSET + irq)) == Idle()
    ensures Acknowledge(PIC_OFFSET + irq) != [] && Deliver(Idle(), irq) != Idle()
  {
    var w := Acknowledge(PIC_OFFSET + irq);
    var p := Deliver(Idle(), irq);
    EndsOnly(if irq < 8 then irq else 2);
    if irq < 8 {
      assert p.master[irq];
      assert w[1..] == [];
      assert Commands(p, w) == Commands(Command(p, w[0]), []);
    } else {
      EndsOnly(irq - 8);
      assert p.master[2];
      assert w[1..][1..] == [];
      assert Command(p, w[0]) == p.(slave := Quiet());
      assert Commands(p, w) == Commands(Command(Command(p, w[0]), w[1]), []);
    }
  }

  lemma EndsOnly(line: nat)
    requires line < 8
    ensures EndOfInterrupt(Quiet()[line := true]) == Quiet()
  {
  }

  /** CPU exceptions and other vectors outside the remapped range are never acknowledged. */
  lemma ExceptionsUnacknowledged(vector: nat, p: Pics)
    requires vector < PIC_OFFSET || vector >= PIC_OFFSET + PIC_IRQ_COUNT
    ensures Commands(p, Acknowledge(vector)) == p && Acknowledge(vector) == []
  {
  }

  /**
   Dispatching any vector while an IRQ is in service leaves that IRQ in service exactly if the
   vector is not an IRQ itself: an exception inside a handler does not end its interrupt.
   */
  lemma OnlyIrqsAcknowledge(irq: nat, vector: nat)
    requires irq < 16
    ensures Commands(Deliver(Idle(), irq), Acknowledge(vector)) == Deliver(Idle(), irq)
      <==> vector < PIC_OFFSET || vector >= PIC_OFFSET + PIC_IRQ_COUNT
    ensures
      var w := Acknowledge(vector);
      vector < PIC_OFFSET || vector >= PIC_OFFSET + PIC_IRQ_COUNT ==>
        Commands(Deliver(Idle(), irq), w + Acknowledge(PIC_OFFSET + irq)) == Idle()
  {
    var p := Deliver(Idle(), irq);
    var line := if irq < 8 then irq else 2;
    if vector < PIC_OFFSET || vector >= PIC_OFFSET + PIC_IRQ_COUNT {
      AcknowledgeEnds(irq);
      ExceptionsUnacknowledged(vector, p);
      assert [] + Acknowledge(PIC_OFFSET + irq) == Acknowledge(PIC_OFFSET + irq);
    } else {
      MasterEnds(p, line, vector);
    }
  }

  /** Any acknowledgement ends what the master has in service. */
  lemma MasterEnds(p: Pics, line: nat, vector: nat)
    requires p.Ok() && line < 8 && p.master == Quiet()[line := true]
    requires PIC_OFFSET <= vector < PIC_OFFSET + PIC_IRQ_COUNT
    ensures Commands(p, Acknowledge(vector)).master == Quiet() != p.master
  {
    var w := Acknowledge(vector);
    EndsOnly(line);
    assert p.master[line];
    if vector < SLAVE_OFFSET {
      assert w[1..] == [];
      assert Commands(p, w) == Commands(Command(p, w[0]), []);
    } else {
      assert w[1..][1..] == [];
      assert Commands(p, w) == Commands(Command(Command(p, w[0]), w[1]), []);
    }
  }

  datatype Handler = KeyboardHandler | MouseHandler

  /** The handler table, and what was called and written to ports, in order. */
  datatype Act = Called(handler: Handler) | Wrote(write: PortWrite)

  function Acts(writes: seq<PortWrite>): (acts: seq<Act>)
    ensures |acts| == |writes|
  {
    seq(|writes|, i requires 0 <= i < |writes| => Wrote(writes[i]))
  }

  class Dispatcher {
    var handlers: map<nat, Handler>
    var acts: seq<Act>

    constructor ()
      ensures handlers == map[] && acts == []
    {
      handlers, acts := map[], [];
    }

    method Register(vector: nat, handler: Handler)
      modifies this`handlers
      ensures handlers == old(handlers)[vector := handler]
    {
      handlers := handlers[vector := handler];
    }

    /** The handler runs before the acknowledgement. */
    method Dispatch(vector: nat)
      modifies this`acts
      ensures acts == old(acts)
        + (if vector in handlers then [Called(handlers[vector])] else [])
        + Acts(Acknowledge(vector))
      ensures Acts(Acknowledge(vector)) ==
        (if 0x28 <= vector <= 0x2F then [Wrote(PortWrite(0xA0, 0x20))] else [])
        + (if 0x20 <= vector <= 0x2F then [Wrote(PortWrite(0x20, 0x20))] else [])
    {
      if vector in handlers {
        acts := acts + [Called(handlers[vector])];
      }
      if vector < PIC_OFFSET || vector >= PIC_OFFSET + PIC_IRQ_COUNT {
        return;
      }
      if vector >= SLAVE_OFFSET {
        acts := acts + [Wrote(PortWrite(PIC_SLAVE_COMMAND, PIC_EOI))];
      }
      acts := acts + [Wrote(PortWrite(PIC_MASTER_COMMAND, PIC_EOI))];
    }
  }
}
