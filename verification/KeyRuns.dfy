/** The modifiers and the layout over every run of the kernel. */
module KeyRuns {
  import opened Options
  import opened Document
  import opened Editing
  import opened Keyboard
  import opened Kernels
  import opened KernelRuns
  import opened EndToEnd

  lemma RunCommandKeys(k: Kernel, command: nat, out: string)
    requires k.Shaped() && command < |COMMANDS|
    ensures
      var choice := Used(k.shell.last, command);
      RunCommand(k, command, out).keys == k.keys.(layout := if choice.Some? then choice.value else k.keys.layout)
    decreases if command == LAST then 1 else 0
  {
    hide Puts, Clear;
    if EffectOf(command) == Repeats && k.shell.last.Some? {
      RunCommandKeys(k, k.shell.last.value, out);
    }
  }

  /** The layout a command chooses by its name, with what "last" repeats. */
  function Used(last: Option<nat>, command: nat): Option<Layout>
    requires command < |COMMANDS| && (last.Some? ==> last.value < |COMMANDS|)
  {
    var c := if command != LAST then Some(command) else last;
    if c.Some? && COMMANDS[c.value] == "azerty" then Some(Azerty)
    else if c.Some? && COMMANDS[c.value] == "qwerty" then Some(Qwerty)
    else None
  }

  /** The layout a line given to the shell chooses, after the given ones. */
  function LineUses(log: seq<Line>, line: Line): Option<Layout> {
    if line.Command? && Lookup(line.text, 0).Some? then
      LastOfKnown(log);
      Used(LastOf(log), Lookup(line.text, 0).value)
    else None
  }

  lemma LastOfKnown(log: seq<Line>)
    ensures LastOf(log).Some? ==> LastOf(log).value < |COMMANDS|
  {
  }

  /** The layout chosen last. */
  function LayoutOf(log: seq<Line>): Layout {
    if log == [] then Qwerty
    else
      var before := log[..|log| - 1];
      var choice := LineUses(before, log[|log| - 1]);
      if choice.Some? then choice.value else LayoutOf(before)
  }

  lemma LayoutOfSnoc(log: seq<Line>, line: Line)
    ensures LayoutOf(log + [line]) ==
      if LineUses(log, line).Some? then LineUses(log, line).value else LayoutOf(log)
  {
    assert (log + [line])[..|log|] == log;
  }

  /** A line given to the shell changes nothing of the keyboard but the layout. */
  lemma ShellKeys(k: Kernel, line: string, out: string)
    requires k.Shaped() && !k.shell.reading
    requires k.shell.last == LastOf(k.shell.log)
    ensures
      var choice := LineUses(k.shell.log, Command(line));
      ShellExecute(k, line, out).keys == k.keys.(layout := if choice.Some? then choice.value else k.keys.layout)
  {
    if Lookup(line, 0).Some? {
      FoundIs(k, line, out);
      hide BeginOutput, EndOutput, Puts, Lookup, ShellExecute;
      RunCommandKeys(k.Logged(Command(line)).Begin(), Lookup(line, 0).value, out);
      hide RunCommand;
    }
  }

  /** What one key does to the keyboard state, whatever it makes the shell do. */
  lemma HandleKeys(k: Kernel, scancode: nat, out: string)
    requires Inv(k) && !k.shell.stopped
    ensures
      var r := Handle(k, scancode, out);
      r.keys.(layout := Qwerty) == Decode(k.keys, scancode, k.shell.reading).0.(layout := Qwerty)
  {
    hide Decode, ShellExecute, DocApply, Rest;
    var n := k.(keys := Decode(k.keys, scancode, k.shell.reading).0);
    ShellKeysOnly(n, n.Current().text, out);
  }

  lemma ShellKeysOnly(k: Kernel, line: string, out: string)
    requires k.Shaped()
    ensures ShellExecute(k, line, out).keys.(layout := Qwerty) == k.keys.(layout := Qwerty)
  {
    hide BeginOutput, EndOutput, Puts, AnswerText, NotFoundText, Lookup;
    if !k.shell.reading && Lookup(line, 0).Some? {
      RunCommandKeys(k.Logged(Command(line)).Begin(), Lookup(line, 0).value, out);
    }
    hide RunCommand;
  }

  lemma ScancodesSnoc(inputs: seq<Input>, x: Input)
    ensures Scancodes(inputs + [x]) == Scancodes(inputs) + [x.scancode]
  {
    if inputs != [] {
      ScancodesSnoc(inputs[1..], x);
      assert (inputs + [x])[1..] == inputs[1..] + [x];
    }
  }

  /**
   Ctrl and the two Shift keys are held exactly if their last code was the press, and Caps Lock
   has toggled once for each press without Ctrl.
   */
  predicate Follows(before: Keys, s: seq<nat>, after: Keys) {
    && (after.ctrl <==> Held(before.ctrl, 0x1D, 0x9D, s))
    && (after.leftShift <==> Held(before.leftShift, 0x2A, 0xAA, s))
    && (after.rightShift <==> Held(before.rightShift, 0x36, 0xB6, s))
    && (after.lock != before.lock <==> CapsOdd(before.ctrl, s))
  }

  lemma FollowsStep(before: Keys, s: seq<nat>, keys: Keys, scancode: nat, reading: bool, after: Keys)
    requires Follows(before, s, keys)
    requires after.(layout := Qwerty) == Decode(keys, scancode, reading).0.(layout := Qwerty)
    ensures Follows(before, s + [scancode], after)
  {
    OneKey(keys, scancode, reading);
    hide Decode;
    assert (s + [scancode])[..|s|] == s;
  }

  /** After any run of the kernel that did not stop the machine, whatever its commands did. */
  lemma {:induction false} ModifiersFollowKeys(k: Kernel, inputs: seq<Input>)
    requires Inv(k)
    ensures !Run(k, inputs).shell.stopped ==> Follows(k.keys, Scancodes(inputs), Run(k, inputs).keys)
    decreases |inputs|
  {
    hide Decode, Run, Rest, Scancodes, Follows;
    if inputs == [] {
      NoKeys(k);
    } else {
      var last := |inputs| - 1;
      var x, p := inputs[last], Run(k, inputs[..last]);
      ModifiersFollowKeys(k, inputs[..last]);
      assert inputs == inputs[..last] + [x];
      RunSnoc(k, inputs[..last], x);
      ScancodesSnoc(inputs[..last], x);
      if !p.shell.stopped {
        HandleKeys(p, x.scancode, x.out);
        FollowsStep(k.keys, Scancodes(inputs[..last]), p.keys, x.scancode, p.shell.reading, Run(k, inputs).keys);
      }
    }
  }

  lemma NoKeys(k: Kernel)
    requires Inv(k)
    ensures Scancodes([]) == [] && Run(k, []) == k && Follows(k.keys, [], k.keys)
  {
  }

  lemma HandleLayout(k: Kernel, scancode: nat, out: string)
    requires Inv(k) && k.shell.last == LastOf(k.shell.log) && k.keys.layout == LayoutOf(k.shell.log)
    ensures
      var r := Handle(k, scancode, out);
      !r.shell.stopped ==> r.keys.layout == LayoutOf(r.shell.log)
  {
    hide Decode, ShellExecute, DocApply, LastOf, LayoutOf, LineUses, Lookup;
    if !k.shell.stopped {
      OneKey(k.keys, scancode, k.shell.reading);
      var n := k.(keys := Decode(k.keys, scancode, k.shell.reading).0);
      var line := n.Current().text;
      assert Rest(n);
      hide Rest;
      if k.shell.reading {
        AnswerKeeps(n, line, out);
        LayoutOfSnoc(k.shell.log, Answer(line));
        AnswersUseNothing(k.shell.log, line);
      } else {
        CommandKeeps(n, line, out);
        ShellKeys(n, line, out);
        LayoutOfSnoc(k.shell.log, Command(line));
      }
    }
  }

  lemma AnswersUseNothing(log: seq<Line>, line: string)
    ensures LineUses(log, Answer(line)) == None
  {
  }

  /**
   In every run the layout is the one chosen by the latest of the lines that chose one, itself
   or as a "last" that repeated such a command.
   */
  lemma {:induction false} LayoutIsLatest(k: Kernel, inputs: seq<Input>)
    requires Inv(k)
    requires !k.shell.stopped ==> k.shell.last == LastOf(k.shell.log) && k.keys.layout == LayoutOf(k.shell.log)
    ensures
      var r := Run(k, inputs);
      !r.shell.stopped ==> r.keys.layout == LayoutOf(r.shell.log)
    decreases |inputs|
  {
    if inputs != [] {
      var x := inputs[0];
      HandleKeeps(k, x.scancode, x.out);
      if !k.shell.stopped {
        HandleRecords(k, x.scancode, x.out);
        HandleLayout(k, x.scancode, x.out);
      }
      LayoutIsLatest(Handle(k, x.scancode, x.out), inputs[1..]);
      hide LayoutOf, LastOf, Rest;
    }
  }
}
