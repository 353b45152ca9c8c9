/** The mouse interrupt handler: a framing automaton over the bytes of the PS/2 mouse. */
module Mice {
  import opened Options
  import opened Text

  const WHEEL_UP_SCANCODE: nat := 0x48
  const WHEEL_DOWN_SCANCODE: nat := 0x50

  /** The status and the data byte the handler reads from the controller. */
  datatype Event = Event(status: nat, data: nat)

  /** Output full, and coming from the mouse. */
  predicate CarriesByte(e: Event) {
    e.status % 2 == 1 && e.status / 32 % 2 == 1
  }

  /** The bit that is always set in the first byte of a packet. */
  predicate CanStart(b: nat) {
    b / 8 % 2 == 1
  }

  datatype Mouse = Mouse(wheel: bool, cycle: nat, packet: seq<nat>) {

    function Size(): nat {
      if wheel then 4 else 3
    }

    predicate Ok() {
      |packet| == 4 && cycle < Size() && (0 < cycle ==> CanStart(packet[0]))
    }

    /** The bytes received of the packet under way. */
    function Pending(): seq<nat>
      requires Ok()
    {
      packet[..cycle]
    }
  }

  function Int8(b: nat): int {
    if b % 256 < 128 then b % 256 else b % 256 - 256
  }

  /** The key a whole packet asks for. */
  function WheelKey(wheel: bool, packet: seq<nat>): Option<nat>
    requires wheel ==> |packet| == 4
  {
    if wheel && Int8(packet[3]) < 0 then Some(WHEEL_UP_SCANCODE)
    else if wheel && Int8(packet[3]) > 0 then Some(WHEEL_DOWN_SCANCODE)
    else None
  }

  /** One interrupt: the new state, and the key pushed, if any. */
  function Interrupt(m: Mouse, e: Event): (r: (Mouse, Option<nat>))
    requires m.Ok()
    ensures r.0.Ok() && r.0.wheel == m.wheel
  {
    if !CarriesByte(e) then (m, None)
    else
      var p := m.packet[m.cycle := e.data];
      if m.cycle == 0 && !CanStart(p[0]) then (m.(packet := p), None)
      else if m.cycle + 1 < m.Size() then (m.(packet := p, cycle := m.cycle + 1), None)
      else (m.(packet := p, cycle := 0), WheelKey(m.wheel, p))
  }

  function Keys(o: Option<nat>): seq<nat> {
    if o.None? then [] else [o.value]
  }

  function Run(m: Mouse, events: seq<Event>): (Mouse, seq<nat>)
    requires m.Ok()
    decreases |events|
  {
    if events == [] then (m, [])
    else
      var (n, key) := Interrupt(m, events[0]);
      var (r, keys) := Run(n, events[1..]);
      (r, Keys(key) + keys)
  }

  // ---- The stream the automaton recognizes ----

  function Bytes(events: seq<Event>): seq<nat> {
    if events == [] then []
    else ByteOf(events[0]) + Bytes(events[1..])
  }

  /**
   The keys of a byte stream: bytes that cannot start a packet are skipped until one can,
   which then starts a packet of the given size.
   */
  function StreamKeys(wheel: bool, bytes: seq<nat>): seq<nat>
    decreases |bytes|
  {
    var size := if wheel then 4 else 3;
    if bytes == [] then []
    else if !CanStart(bytes[0]) then StreamKeys(wheel, bytes[1..])
    else if |bytes| < size then []
    else Keys(WheelKey(wheel, bytes[..size])) + StreamKeys(wheel, bytes[size..])
  }

  /** What is left of the stream once its whole packets are gone: the start of one more. */
  function StreamRest(wheel: bool, bytes: seq<nat>): seq<nat>
    decreases |bytes|
  {
    var size := if wheel then 4 else 3;
    if bytes == [] then []
    else if !CanStart(bytes[0]) then StreamRest(wheel, bytes[1..])
    else if |bytes| < size then bytes
    else StreamRest(wheel, bytes[size..])
  }

  /** The bytes an interrupt brings. */
  function ByteOf(e: Event): seq<nat> {
    if CarriesByte(e) then [e.data] else []
  }

  /** One interrupt takes its byte, and the key that completes, off the front of the stream. */
  lemma StepReadsStream(m: Mouse, e: Event, rest: seq<nat>)
    requires m.Ok()
    ensures
      var (n, key) := Interrupt(m, e);
      var all := m.Pending() + ByteOf(e) + rest;
      && n.Ok() && n.wheel == m.wheel
      && StreamKeys(m.wheel, all) == Keys(key) + StreamKeys(m.wheel, n.Pending() + rest)
      && StreamRest(m.wheel, all) == StreamRest(m.wheel, n.Pending() + rest)
  {
    var (n, key) := Interrupt(m, e);
    var all := m.Pending() + ByteOf(e) + rest;
    if !CarriesByte(e) {
      assert all == n.Pending() + rest;
    } else if m.cycle == 0 && !CanStart(e.data) {
      assert all[1..] == n.Pending() + rest;
    } else if m.cycle + 1 < m.Size() {
      assert all == n.Pending() + rest;
    } else {
      assert all[..m.Size()] == n.packet[..m.Size()];
      assert m.wheel ==> n.packet[..4] == n.packet;
      assert all[m.Size()..] == n.Pending() + rest;
    }
  }

  lemma PendingIsRest(m: Mouse)
    requires m.Ok()
    ensures StreamKeys(m.wheel, m.Pending()) == [] && StreamRest(m.wheel, m.Pending()) == m.Pending()
  {
  }

  /** Whatever the interrupts, the handler pushes the keys of the byte stream and keeps its rest. */
  lemma {:induction false} RunReadsStream(m: Mouse, events: seq<Event>)
    requires m.Ok()
    ensures
      var (r, keys) := Run(m, events);
      && r.Ok() && r.wheel == m.wheel
      && keys == StreamKeys(m.wheel, m.Pending() + Bytes(events))
      && r.Pending() == StreamRest(m.wheel, m.Pending() + Bytes(events))
    decreases |events|
  {
    hide StreamKeys, StreamRest, Interrupt, Mouse.Pending, ByteOf, WheelKey, Keys;
    if events == [] {
      PendingIsRest(m);
      assert m.Pending() + Bytes(events) == m.Pending();
    } else {
      var tail := Bytes(events[1..]);
      StepReadsStream(m, events[0], tail);
      RunReadsStream(Interrupt(m, events[0]).0, events[1..]);
      Associate(m.Pending(), ByteOf(events[0]), tail);
    }
  }

  // ---- Well-formed streams ----

  predicate IsPacket(wheel: bool, p: seq<nat>) {
    |p| == (if wheel then 4 else 3) && CanStart(p[0])
  }

  function Concat(packets: seq<seq<nat>>): seq<nat> {
    if packets == [] then [] else packets[0] + Concat(packets[1..])
  }

  function PacketKeys(wheel: bool, packets: seq<seq<nat>>): seq<nat>
    requires forall p | p in packets :: IsPacket(wheel, p)
  {
    if packets == [] then []
    else
      assert IsPacket(wheel, packets[0]);
      Keys(WheelKey(wheel, packets[0])) + PacketKeys(wheel, packets[1..])
  }

  lemma {:induction false} StreamOfPackets(wheel: bool, junk: seq<nat>, packets: seq<seq<nat>>)
    requires forall b | b in junk :: !CanStart(b)
    requires forall p | p in packets :: IsPacket(wheel, p)
    ensures StreamKeys(wheel, junk + Concat(packets)) == PacketKeys(wheel, packets)
    ensures StreamRest(wheel, junk + Concat(packets)) == []
    decreases |junk|, |packets|
  {
    var all := junk + Concat(packets);
    if junk != [] {
      assert all[1..] == junk[1..] + Concat(packets);
      StreamOfPackets(wheel, junk[1..], packets);
    } else if packets != [] {
      var p := packets[0];
      assert IsPacket(wheel, p);
      assert all[..|p|] == p && all[|p|..] == [] + Concat(packets[1..]);
      StreamOfPackets(wheel, [], packets[1..]);
    }
  }

  /**
   Any bytes that cannot start a packet, then any packets, with interrupts that carry no
   mouse byte anywhere among them: the handler ends on a packet boundary, having pushed
   exactly one key for every non-zero wheel byte, in order.
   */
  lemma PacketsDecoded(m: Mouse, events: seq<Event>, junk: seq<nat>, packets: seq<seq<nat>>)
    requires m.Ok() && m.cycle == 0
    requires forall b | b in junk :: !CanStart(b)
    requires forall p | p in packets :: IsPacket(m.wheel, p)
    requires Bytes(events) == junk + Concat(packets)
    ensures Run(m, events).1 == PacketKeys(m.wheel, packets)
    ensures Run(m, events).0.Ok() && Run(m, events).0.cycle == 0
  {
    RunReadsStream(m, events);
    assert m.Pending() + Bytes(events) == junk + Concat(packets);
    StreamOfPackets(m.wheel, junk, packets);
  }

  // ---- In numbers ----

  /** Bit 3 of a byte is set exactly when the byte is some sixteens, eight, and less than eight. */
  lemma StartBit(sixteens: nat, low: nat)
    requires low < 8
    ensures CanStart(16 * sixteens + 8 + low) && !CanStart(16 * sixteens + low)
  {
  }

  /** A byte comes from the mouse exactly when bits 0 and 5 of the status are set, whatever the others. */
  lemma StatusBits(high: nat, bit5: nat, middle: nat, bit0: nat, data: nat)
    requires middle < 16 && bit5 < 2 && bit0 < 2
    ensures CarriesByte(Event(64 * high + 32 * bit5 + 2 * middle + bit0, data)) <==> bit5 == 1 && bit0 == 1
  {
    var n := 64 * high + 32 * bit5 + 2 * middle + bit0;
    assert n / 32 == 2 * high + bit5;
    assert n % 2 == bit0;
  }

  /** What packets of a mouse with a wheel ask for, in order: Up for a negative byte, Down for a positive one. */
  function WheelScancodes(packets: seq<seq<nat>>): seq<nat>
    requires forall p | p in packets :: |p| == 4
  {
    if packets == [] then []
    else
      var wheel := packets[0][3];
      (if 128 <= wheel < 256 then [0x48] else if 1 <= wheel < 128 then [0x50] else [])
      + WheelScancodes(packets[1..])
  }

  lemma {:induction false} PacketKeysAre(packets: seq<seq<nat>>)
    requires forall p | p in packets :: IsPacket(true, p) && p[3] < 256
    ensures (forall p | p in packets :: |p| == 4) && PacketKeys(true, packets) == WheelScancodes(packets)
    decreases |packets|
  {
    hide WheelKey, Keys, CanStart;
    if packets != [] {
      assert IsPacket(true, packets[0]) && packets[0][3] < 256;
      WheelKeyIs(packets[0]);
      PacketKeysAre(packets[1..]);
    }
  }

  lemma WheelKeyIs(p: seq<nat>)
    requires |p| == 4 && p[3] < 256
    ensures Keys(WheelKey(true, p)) == if 128 <= p[3] < 256 then [0x48] else if 1 <= p[3] < 128 then [0x50] else []
  {
  }

  lemma {:induction false} NoWheelNoKeys(packets: seq<seq<nat>>)
    requires forall p | p in packets :: IsPacket(false, p)
    ensures PacketKeys(false, packets) == []
    decreases |packets|
  {
    if packets != [] {
      assert IsPacket(false, packets[0]);
      NoWheelNoKeys(packets[1..]);
    }
  }

  /** With a wheel the handler pushes exactly 0x48 for each wheel byte from 128 on, 0x50 for 1 to 127, in order. */
  lemma WheelPacketsScroll(m: Mouse, events: seq<Event>, junk: seq<nat>, packets: seq<seq<nat>>)
    requires m.Ok() && m.cycle == 0 && m.wheel
    requires forall b | b in junk :: b / 8 % 2 == 0
    requires forall p | p in packets :: |p| == 4 && p[0] / 8 % 2 == 1 && p[3] < 256
    requires Bytes(events) == junk + Concat(packets)
    ensures Run(m, events).1 == WheelScancodes(packets)
  {
    assert forall p | p in packets :: IsPacket(true, p);
    PacketsDecoded(m, events, junk, packets);
    PacketKeysAre(packets);
  }

  /** Without one it pushes nothing. */
  lemma PlainPacketsDoNot(m: Mouse, events: seq<Event>, junk: seq<nat>, packets: seq<seq<nat>>)
    requires m.Ok() && m.cycle == 0 && !m.wheel
    requires forall b | b in junk :: b / 8 % 2 == 0
    requires forall p | p in packets :: |p| == 3 && p[0] / 8 % 2 == 1
    requires Bytes(events) == junk + Concat(packets)
    ensures Run(m, events).1 == []
  {
    assert forall p | p in packets :: IsPacket(false, p);
    PacketsDecoded(m, events, junk, packets);
    NoWheelNoKeys(packets);
  }

  class MouseDevice {
    var hasScrollWheel: bool
    var cycle: nat
    const packet: array<nat>

    constructor (wheel: bool)
      ensures Valid() && fresh(packet)
      ensures Abs().cycle == 0 && Abs().wheel == wheel
    {
      hasScrollWheel, cycle := wheel, 0;
      packet := new nat[4](_ => 0);
    }

    ghost predicate Valid()
      reads this, packet
    {
      Abs().Ok()
    }

    ghost function Abs(): Mouse
      reads this, packet
    {
      Mouse(hasScrollWheel, cycle, packet[..])
    }

    method InterruptHandler(status: nat, data: nat) returns (key: Option<nat>)
      requires Valid()
      modifies this`cycle, packet
      ensures Valid()
      ensures (Abs(), key) == Interrupt(old(Abs()), Event(status, data))
    {
      if status % 2 == 0 || status / 32 % 2 == 0 {
        return None;
      }
      packet[cycle] := data;
      if cycle == 0 && packet[0] / 8 % 2 == 0 {
        return None;
      }
      cycle := cycle + 1;
      if cycle < if hasScrollWheel then 4 else 3 {
        return None;
      }
      cycle := 0;
      key := None;
      if hasScrollWheel {
        var wheel := Int8(packet[3]);
        if wheel < 0 {
          key := Some(WHEEL_UP_SCANCODE);
        } else if wheel > 0 {
          key := Some(WHEEL_DOWN_SCANCODE);
        }
      }
    }
  }
}
