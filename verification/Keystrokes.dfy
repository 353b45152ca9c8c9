/** What each key does, by the number of its scancode, to the editors and to the kernel. */
module Keystrokes {
  import opened Text
  import opened Tapes
  import opened Document
  import opened Editing
  import opened Screens
  import opened Keyboard
  import opened Kernels
  import opened KernelRuns
  import opened EndToEnd
  import Mice

  /** The editor of the displayed screen becomes e, and nothing else changes. */
  function Edited(s: Simple, e: Editor): Simple
    requires s.Ok()
  {
    s.(editors := s.editors[s.index := e])
  }

  /** What the keys without a character are decoded to. */
  lemma SpecialKeys(keys: Keys, reading: bool)
    requires !keys.ctrl
    ensures Decode(keys, 0x0E, reading) == (keys, Do(Erase(1)))
    ensures Decode(keys, 0x53, reading) == (keys, Do(EraseForward(1)))
    ensures Decode(keys, 0x4B, reading) == (keys, Do(Go(Left)))
    ensures Decode(keys, 0x4D, reading) == (keys, Do(Go(Right)))
    ensures Decode(keys, 0x48, reading) == (keys, Do(Go(Up)))
    ensures Decode(keys, 0x50, reading) == (keys, Do(Go(Down)))
    ensures Decode(keys, 0x1C, reading) == (keys, Enter)
    ensures Decode(keys, 0x3A, reading) == (keys.(lock := !keys.lock), Nothing)
  {
    SpecialKeysHaveNoChar(keys, 0x0E);
    SpecialKeysHaveNoChar(keys, 0x53);
    SpecialKeysHaveNoChar(keys, 0x4B);
    SpecialKeysHaveNoChar(keys, 0x4D);
    SpecialKeysHaveNoChar(keys, 0x48);
    SpecialKeysHaveNoChar(keys, 0x50);
    SpecialKeysHaveNoChar(keys, 0x1C);
    SpecialKeysHaveNoChar(keys, 0x3A);
    hide CharOf;
  }

  /** The keys without a character that edit: Backspace, Delete, Left, Right; and the arrows that do not. */
  lemma EditingKeys(s: Simple)
    requires s.Ok() && !s.shell.stopped && !s.keys.ctrl
    ensures
      var e := s.editors[s.index];
      && SimpleHandle(s, 0x0E) ==
         Edited(s, if e.left == [] then e else Editor(e.left[..|e.left| - 1], e.right))
      && SimpleHandle(s, 0x53) ==
         Edited(s, if e.right == [] then e else Editor(e.left, e.right[1..]))
      && SimpleHandle(s, 0x4B) ==
         Edited(s, if e.left == [] then e else Editor(e.left[..|e.left| - 1], [e.left[|e.left| - 1]] + e.right))
      && SimpleHandle(s, 0x4D) ==
         Edited(s, if e.right == [] then e else Editor(e.left + [e.right[0]], e.right[1..]))
      && SimpleHandle(s, 0x48) == s
      && SimpleHandle(s, 0x50) == s
  {
    SpecialKeys(s.keys, s.shell.reading);
    hide Decode;
    var e := s.editors[s.index];
    assert s.editors[s.index := e] == s.editors;
    assert |e.left| == 1 ==> e.left[..|e.left| - 1] == [];
    assert |e.right| == 1 ==> e.right[1..] == [];
  }

  /** The same of the kernel, on whatever page the input stands. */
  lemma KernelEditingKeys(k: Kernel, out: string)
    requires Inv(k) && !k.shell.stopped && !k.keys.ctrl
    ensures
      var s := SimpleOf(k);
      var e := s.editors[s.index];
      && SimpleOf(Handle(k, 0x0E, out)) ==
         Edited(s, if e.left == [] then e else Editor(e.left[..|e.left| - 1], e.right))
      && SimpleOf(Handle(k, 0x53, out)) ==
         Edited(s, if e.right == [] then e else Editor(e.left, e.right[1..]))
      && SimpleOf(Handle(k, 0x4B, out)) ==
         Edited(s, if e.left == [] then e else Editor(e.left[..|e.left| - 1], [e.left[|e.left| - 1]] + e.right))
      && SimpleOf(Handle(k, 0x4D, out)) ==
         Edited(s, if e.right == [] then e else Editor(e.left + [e.right[0]], e.right[1..]))
  {
    hide Handle, SimpleHandle, SimpleOf, Rest;
    SimpleOfFlags(k);
    EditingKeys(SimpleOf(k));
    HandleSimulates(k, 0x0E, out);
    HandleSimulates(k, 0x53, out);
    HandleSimulates(k, 0x4B, out);
    HandleSimulates(k, 0x4D, out);
  }

  lemma SimpleOfFlags(k: Kernel)
    requires k.Shaped()
    ensures SimpleOf(k).keys == k.keys && SimpleOf(k).shell == k.shell && SimpleOf(k).index == k.term.index
  {
  }

  /** Up and Down move the view by one row where they can, and nothing else but the picture. */
  lemma ViewKeys(k: Kernel, out: string)
    requires Inv(k) && !k.shell.stopped && !k.keys.ctrl
    ensures
      var d := k.Current();
      var up, down := Handle(k, 0x48, out), Handle(k, 0x50, out);
      var deepest := Max(d.window.scroll, d.window.Row(d.Pos()) - 24);
      && up.Current().window == d.window.(scroll := Max(0, d.window.scroll - 1))
      && down.Current().window == d.window.(scroll := Min(d.window.scroll + 1, deepest))
      && up == k.With(d.(window := up.Current().window, drawn := up.Current().drawn, placed := up.Current().placed))
      && down ==
         k.With(d.(window := down.Current().window, drawn := down.Current().drawn, placed := down.Current().placed))
  {
    var d := k.Current();
    assert Resting(k.H, d, k.shell.reading);
    InputInWindow(d, d.Pos());
    SpecialKeys(k.keys, k.shell.reading);
    hide Decode, Rest, DocOk, ShellExecute;
  }

  /** The wheel as the user sees it: a negative byte shows a row further up, a positive one a row further down. */
  lemma WheelScrolls(m: Mice.Mouse, events: seq<Mice.Event>, packet: seq<nat>, k: Kernel, out: string)
    requires m.Ok() && m.cycle == 0 && m.wheel
    requires |packet| == 4 && packet[0] / 8 % 2 == 1 && packet[3] < 256 && Mice.Bytes(events) == packet
    requires Inv(k) && !k.shell.stopped && !k.keys.ctrl
    ensures
      var keys, d := Mice.Run(m, events).1, k.Current();
      && (packet[3] == 0 ==> keys == [])
      && (packet[3] != 0 ==> |keys| == 1)
      && (packet[3] >= 128 ==>
            Handle(k, keys[0], out).Current().window == d.window.(scroll := Max(0, d.window.scroll - 1)))
      && (1 <= packet[3] < 128 ==>
            var deepest := Max(d.window.scroll, d.window.Row(d.Pos()) - 24);
            Handle(k, keys[0], out).Current().window == d.window.(scroll := Min(d.window.scroll + 1, deepest)))
  {
    hide Handle, Mice.Run;
    ViewKeys(k, out);
    var packets := [packet];
    assert [] + Mice.Concat(packets) == packet;
    Mice.WheelPacketsScroll(m, events, [], packets);
    assert packets[1..] == [];
  }

  /** Enter hands the line to the shell and leaves the editor empty. */
  lemma EnterKey(s: Simple)
    requires s.Ok() && !s.shell.stopped && !s.keys.ctrl
    ensures
      var r, e := SimpleHandle(s, 0x1C), s.editors[s.index];
      && r.shell.log == s.shell.log + [if s.shell.reading then Answer(e.left + e.right) else Command(e.left + e.right)]
      && r.editors == s.editors[s.index := Editor([], [])] && r.index == s.index
  {
    SpecialKeys(s.keys, s.shell.reading);
    hide Decode;
    SimpleCommandLogs(s);
  }

  /** In the kernel it does what the shell makes of the text of the input. */
  lemma EnterRuns(k: Kernel, out: string)
    requires Inv(k) && !k.shell.stopped && !k.keys.ctrl
    ensures Handle(k, 0x1C, out) == ShellExecute(k, k.Current().text, out)
  {
    SpecialKeys(k.keys, k.shell.reading);
    assert Resting(k.H, k.Current(), k.shell.reading);
    hide Decode, Rest, ShellExecute;
  }

  lemma SimpleCommandLogs(s: Simple)
    ensures forall t: Simple, command: nat | t.Ok() && command < |COMMANDS| ::
      SimpleCommand(t, command).shell.log == t.shell.log
  {
    forall t: Simple, command: nat | t.Ok() && command < |COMMANDS|
      ensures SimpleCommand(t, command).shell.log == t.shell.log
    {
      SimpleCommandLog(t, command);
    }
  }

  lemma SimpleCommandLog(s: Simple, command: nat)
    requires s.Ok() && command < |COMMANDS|
    ensures SimpleCommand(s, command).shell.log == s.shell.log
    decreases if command == LAST then 1 else 0
  {
    if EffectOf(command) == Repeats && s.shell.last.Some? {
      SimpleCommandLog(s, s.shell.last.value);
    }
  }

  /** The press and release codes of Ctrl and the two Shift keys. */
  predicate ModifierCode(scancode: nat) {
    scancode in {0x2A, 0xAA, 0x36, 0xB6, 0x1D, 0x9D}
  }

  /** A key with a character types it at the cursor, unless 127 are there; Backspace then takes it back. */
  lemma TypingKeys(s: Simple, scancode: nat)
    requires s.Ok() && !s.shell.stopped && !s.keys.ctrl
    requires scancode < 0x80 && !ModifierCode(scancode) && CharOf(s.keys, scancode) != '\0'
    ensures
      var e, r := s.editors[s.index], SimpleHandle(s, scancode);
      if |e.left| + |e.right| >= 127 then r == s
      else r == Edited(s, Editor(e.left + [CharOf(s.keys, scancode)], e.right)) && SimpleHandle(r, 0x0E) == s
  {
    hide CharOf;
    var e, r := s.editors[s.index], SimpleHandle(s, scancode);
    assert s.editors[s.index := e] == s.editors;
    if |e.left| + |e.right| < 127 {
      var c := CharOf(s.keys, scancode);
      EditingKeys(r);
      assert r.editors[r.index] == Editor(e.left + [c], e.right);
      assert (e.left + [c])[..|e.left|] == e.left;
    }
  }

  /**
   Nothing happens at a release of any other key, at a key without a character or a function,
   nor with Ctrl held at one that types no digit.
   */
  lemma IdleKeys(k: Kernel, scancode: nat, out: string)
    requires Inv(k) && !ModifierCode(scancode)
    requires
      || scancode >= 0x80
      || (k.keys.ctrl && !IsDigit(CharOf(k.keys, scancode)))
      || (CharOf(k.keys, scancode) == '\0'
          && scancode !in {0x0E, 0x1C, 0x3A, 0x48, 0x4B, 0x4D, 0x50, 0x53})
    ensures Handle(k, scancode, out) == k
  {
    hide CharOf, Rest, ShellExecute;
  }

  /** Caps Lock toggles, with no other effect. */
  lemma CapsKey(k: Kernel, out: string)
    requires Inv(k) && !k.shell.stopped && !k.keys.ctrl
    ensures Handle(k, 0x3A, out) == k.(keys := k.keys.(lock := !k.keys.lock))
  {
    SpecialKeys(k.keys, k.shell.reading);
    hide Decode, Rest, ShellExecute;
  }

  /** With Ctrl held a key of the digit row displays its screen, 0 the tenth, where it types a digit. */
  lemma ScreenKeys(k: Kernel, digit: nat, out: string)
    requires Inv(k) && !k.shell.stopped && k.keys.ctrl && digit < 10
    ensures
      var r := Handle(k, 0x02 + digit, out);
      var shows := (k.keys.layout == Qwerty) == (k.keys.lock == (k.keys.leftShift || k.keys.rightShift));
      if k.shell.reading || !shows then r == k
      else r.term.index == digit && r.keys == k.keys && r.shell == k.shell
  {
    DigitKeysShowScreens(k.keys, digit, k.shell.reading);
    hide Decode, Rest;
  }

  /** The kernel as it boots: the first screen, an empty line, nothing held, nothing run. */
  lemma BootState(H: nat)
    requires 25 <= H <= 256
    ensures
      var k := BootKernel(H);
      && k.term.index == 0 && k.Current().before == "$ " && k.Current().text == []
      && (forall i | 0 < i < 10 :: k.term.docs[i].None?)
      && !k.keys.lock && !k.keys.ctrl && !k.keys.leftShift && !k.keys.rightShift && k.keys.layout == Qwerty
      && k.shell.last.None? && !k.shell.reading && !k.shell.stopped && k.shell.log == []
    ensures TERMINAL_HEIGHT == 35
  {
    FreshOk(H);
  }
}
