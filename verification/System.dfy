/** The keyboard handler and the shell, over the terminal and the scancode ring. */
module System {
  import opened Text
  import opened Options
  import opened CStrings
  import opened Document
  import opened Editing
  import opened Terminals
  import opened Rings
  import opened Keyboard
  import opened Kernels
  import opened KernelRuns
  import opened ReadRuns
  import Printk

  class Console {
    const terminal: Terminal
    const ring: KeyBuffer

    // keyboard.c
    var isLock: bool
    var isCtrl: bool
    var isLeftShift: bool
    var isRightShift: bool
    var currentLayout: Layout

    // shell.c
    var lastCommand: Option<nat>
    var readPending: bool

    // Whether a command halted or rebooted the machine, and the lines the shell was given.
    var stopped: bool
    ghost var log: seq<Line>

    constructor (H: nat)
      requires 25 <= H <= 256
      ensures Valid()
      ensures State() == BootKernel(H) && ring.Abs().Contents() == []
    {
      terminal := new Terminal(H);
      ring := new KeyBuffer();
      isLock, isCtrl, isLeftShift, isRightShift := false, false, false, false;
      currentLayout := Qwerty;
      lastCommand, readPending, stopped, log := None, false, false, [];
    }

    ghost predicate Valid()
      reads this, terminal, terminal.screens, terminal.Buffers(), terminal.vga, terminal.vga.cells
      reads ring, ring.keyBuffer
    {
      terminal.Valid() && ring.Valid()
    }

    ghost function State(): Kernel
      reads this, terminal
    {
      Kernel(terminal.H, terminal.model,
             Keys(isLock, isCtrl, isLeftShift, isRightShift, currentLayout),
             Shell(lastCommand, readPending, stopped, log))
    }

    // ---- Commands ----

    /** printk, on the current screen. */
    method Print(format: string, args: seq<Printk.Arg>)
      requires terminal.Valid() && State().Shaped() && State().Current().text == []
      requires Printk.WellFormed(format) && Printk.ArgsMatch(format, args)
      modifies terminal, terminal.screens, terminal.Buffers(), terminal.vga, terminal.vga.cells
      ensures terminal.Valid()
      ensures State() == old(State()).Print(Printk.Format(format, args))
    {
      terminal.ModelOk();
      var out, count := Printk.Printk(format, args);
      terminal.PutsOutput(out);
    }

    /** Text without directives. */
    method PrintText(text: string)
      requires terminal.Valid() && State().Shaped() && State().Current().text == []
      requires '%' !in text && '\0' !in text
      modifies terminal, terminal.screens, terminal.Buffers(), terminal.vga, terminal.vga.cells
      ensures terminal.Valid()
      ensures State() == old(State()).Print(text)
    {
      Printk.PlainText(text, "", []);
      assert text + "" == text;
      Print(text, []);
    }

    method Halt()
      requires terminal.Valid() && State().Shaped() && State().Current().text == []
      modifies this, terminal, terminal.screens, terminal.Buffers(), terminal.vga, terminal.vga.cells
      ensures terminal.Valid()
      ensures State() == Kernels.RunCommand(old(State()), 6, "")
    {
      hide Puts;
      PrintText("System halted.\n");
      stopped := true;
    }

    /** The command functions; out is the output of those that print what is not modelled. */
    method RunCommand(command: nat, out: string)
      requires terminal.Valid() && State().Shaped() && State().Current().text == []
      requires command < |COMMANDS|
      modifies this, terminal, terminal.screens, terminal.Buffers(), terminal.vga, terminal.vga.cells
      ensures terminal.Valid()
      ensures State() == Kernels.RunCommand(old(State()), command, out)
      ensures readPending && !old(readPending) ==> (terminal.Pictured() <==> old(terminal.Pictured()))
      decreases if command == LAST then 1 else 0
    {
      terminal.ModelOk();
      match EffectOf(command)
      case Prints => terminal.PutsOutput(out);
      case Clears => terminal.Clear();
      case Repeats => Last(out);
      case Stops(message) =>
        if command == 6 {
          Halt();
        } else {
          stopped := true;
        }
      case Arms =>
        if !readPending {
          readPending := true;
        }
      case Uses(layout) => currentLayout := layout;
    }

    method Last(out: string)
      requires terminal.Valid() && State().Shaped() && State().Current().text == []
      modifies this, terminal, terminal.screens, terminal.Buffers(), terminal.vga, terminal.vga.cells
      ensures terminal.Valid()
      ensures State() == Kernels.RunCommand(old(State()), LAST, out)
      ensures readPending && !old(readPending) ==> (terminal.Pictured() <==> old(terminal.Pictured()))
      decreases 1, 0
    {
      hide Puts;
      if lastCommand.Some? {
        RunCommand(lastCommand.value, out);
      } else {
        PrintText("No last command executed.\n");
      }
    }

    // ---- The shell ----

    method PrintAnswer(line: string)
      requires '\0' !in line
      requires terminal.Valid() && State().Shaped() && State().Current().text == []
      modifies terminal, terminal.screens, terminal.Buffers(), terminal.vga, terminal.vga.cells
      ensures terminal.Valid()
      ensures State() == old(State()).Print(AnswerText(line))
    {
      AnswerFormat(line);
      hide Printk.Format, Printk.WellFormed, Printk.ArgsMatch, AnswerText, Puts;
      Print("read: \"%s\"", [Printk.StrArg(Some(line))]);
    }

    method PrintNotFound(line: string)
      requires '\0' !in line
      requires terminal.Valid() && State().Shaped() && State().Current().text == []
      modifies terminal, terminal.screens, terminal.Buffers(), terminal.vga, terminal.vga.cells
      ensures terminal.Valid()
      ensures State() == old(State()).Print(NotFoundText(line))
    {
      NotFoundFormat(line);
      hide Printk.Format, Printk.WellFormed, Printk.ArgsMatch, NotFoundText, Puts;
      Print("%s: command not found\n", [Printk.StrArg(Some(line))]);
    }

    /** Output begins for a line, which is recorded. */
    method BeginLine(ghost line: Line)
      requires terminal.Valid() && State().Shaped()
      modifies this`log, terminal, terminal.screens, terminal.Buffers(), terminal.vga, terminal.vga.cells
      ensures terminal.Valid()
      ensures State() == old(State()).Logged(line).Begin()
      ensures old(State()).Current().drawn && Shifts(old(State()).Current()) ==>
        (terminal.Pictured() <==> LooksSame(old(State()).Current()))
    {
      terminal.ModelOk();
      hide BeginOutput;
      log := log + [line];
      terminal.BeginOutput();
    }

    method EndLine(showPrompt: bool)
      requires terminal.Valid() && State().Shaped() && State().Current().text == []
      modifies terminal, terminal.screens, terminal.Buffers(), terminal.vga, terminal.vga.cells
      ensures terminal.Valid()
      ensures State() == old(State()).End(showPrompt)
      ensures !showPrompt && AtRowStart(old(State()).Current()) ==> (terminal.Pictured() <==> old(terminal.Pictured()))
    {
      terminal.ModelOk();
      hide EndOutput, AtRowStart, Terminal.Pictured;
      terminal.EndOutput(showPrompt);
    }

    /** A line that a read was waiting for. */
    method AnswerRead(line: string)
      requires '\0' !in line
      requires terminal.Valid() && Rest(State()) && !stopped
      modifies this, terminal, terminal.screens, terminal.Buffers(), terminal.vga, terminal.vga.cells
      requires readPending
      ensures terminal.Valid()
      ensures State() == Kernels.ShellExecute(old(State()), line, "")
    {
      hide Rest, Resting, Printing, BeginOutput, EndOutput, Puts, AnswerText, Terminal.Valid, Terminal.Separate;
      ghost var k := State();
      BeginFacts(k);
      BeginLine(Answer(line));
      PrintAnswer(line);
      EndLine(true);
      readPending := false;
    }

    /** A line that names no command. */
    method Reject(line: string)
      requires '\0' !in line
      requires terminal.Valid() && Rest(State()) && !stopped
      modifies this, terminal, terminal.screens, terminal.Buffers(), terminal.vga, terminal.vga.cells
      requires !readPending && Lookup(line, 0).None?
      ensures terminal.Valid()
      ensures State() == Kernels.ShellExecute(old(State()), line, "")
    {
      hide Rest, Resting, Printing, BeginOutput, EndOutput, Puts, NotFoundText, Lookup;
      hide Terminal.Valid, Terminal.Separate;
      ghost var k := State();
      BeginFacts(k);
      BeginLine(Command(line));
      if line != [] {
        PrintNotFound(line);
      }
      EndLine(true);
    }

    /** A command that was found, up to the end of its output. */
    method RunOutput(line: string, command: nat, out: string)
      requires terminal.Valid() && Rest(State()) && !stopped
      modifies this, terminal, terminal.screens, terminal.Buffers(), terminal.vga, terminal.vga.cells
      requires !readPending && Lookup(line, 0) == Some(command)
      ensures terminal.Valid()
      ensures State() == Ran(old(State()), line, out)
      ensures readPending && Shifts(old(State()).Current()) ==>
        (terminal.Pictured() <==> LooksSame(old(State()).Current()))
    {
      hide Rest, Resting, Printing, BeginOutput, Puts, Lookup, Kernels.RunCommand, Terminal.Pictured, Shifts, LooksSame;
      BeginFacts(State());
      BeginLine(Command(line));
      RunCommand(command, out);
    }

    /** A line that names a command. */
    method RunFound(line: string, command: nat, out: string)
      requires terminal.Valid() && Rest(State()) && !stopped
      modifies this, terminal, terminal.screens, terminal.Buffers(), terminal.vga, terminal.vga.cells
      requires !readPending && Lookup(line, 0) == Some(command)
      ensures terminal.Valid()
      ensures State() == Kernels.ShellExecute(old(State()), line, out)
      ensures !stopped && readPending && Shifts(old(State()).Current()) ==>
        (terminal.Pictured() <==> LooksSame(old(State()).Current()))
    {
      hide Rest, Printing, BeginOutput, EndOutput, Lookup, Ran, Kernels.ShellExecute;
      hide Terminal.Pictured, Shifts, LooksSame, AtRowStart;
      RanFacts(State(), line, out);
      RunOutput(line, command, out);
      if stopped {
        return;
      }
      if command != LAST {
        lastCommand := Some(command);
      }
      EndLine(!readPending);
    }

    /** The number of the command of that name, by comparing it with each in turn. */
    method FindCommand(line: string) returns (command: Option<nat>)
      requires '\0' !in line
      ensures command == Lookup(line, 0)
    {
      for i := 0 to |COMMANDS|
        invariant Lookup(line, 0) == Lookup(line, i)
      {
        NamesTerminated(i);
        CStringUnique(line + ['\0'], |line|);
        CStringUnique(COMMANDS[i] + ['\0'], |COMMANDS[i]|);
        var difference := Strcmp(line + ['\0'], COMMANDS[i] + ['\0']);
        if difference == 0 {
          return Some(i);
        }
      }
      command := None;
    }

    method ShellExecute(line: string, out: string) returns (found: bool)
      requires terminal.Valid() && Rest(State()) && !stopped
      requires '\0' !in line
      modifies this, terminal, terminal.screens, terminal.Buffers(), terminal.vga, terminal.vga.cells
      ensures terminal.Valid()
      ensures State() == Kernels.ShellExecute(old(State()), line, out)
      ensures found == (old(readPending) || Lookup(line, 0).Some?)
      ensures !old(readPending) && !stopped && readPending && Shifts(old(State()).Current()) ==>
        (terminal.Pictured() <==> LooksSame(old(State()).Current()))
    {
      hide Rest, Lookup, BeginOutput, EndOutput, Puts, Kernels.RunCommand;
      hide Terminal.Valid, Terminal.Pictured, Shifts, LooksSame;
      if readPending {
        AnswerRead(line);
        return true;
      }
      var command := FindCommand(line);
      if command.Some? {
        RunFound(line, command.value, out);
        return true;
      }
      Reject(line);
      return false;
    }

    // ---- The keyboard ----

    /** Copies the input out of the current screen; the 256 bytes always suffice. */
    method ReadInput() returns (ok: bool, line: string)
      requires terminal.Valid() && Rest(State())
      ensures ok && line == State().Current().text && '\0' !in line
    {
      terminal.ModelOk();
      ghost var text := State().Current().text;
      assert Resting(State().H, State().Current(), readPending);
      hide Resting, Rest, Terminal.Valid;
      var buffer := new char[256](_ => '\0');
      ok := terminal.GetInput(buffer, 256);
      CStringUnique(buffer[..], |text|);
      assert buffer[..][..|text|] == text;
      line := CString(buffer[..]);
    }

    /**
     Enter: the input is handed to the shell. A line that arms a read leaves a display that shows
     the screen exactly if no rows shifted unseen.
     */
    method Execute(out: string)
      requires terminal.Valid() && Rest(State()) && !stopped
      modifies this, terminal, terminal.screens, terminal.Buffers(), terminal.vga, terminal.vga.cells
      ensures terminal.Valid()
      ensures State() == Kernels.ShellExecute(old(State()), old(State()).Current().text, out)
      ensures !old(readPending) && !stopped && readPending ==>
        (terminal.Pictured() <==> !Shifts(old(State()).Current()))
    {
      hide Rest, Terminal.Valid, Terminal.Pictured, Shifts, LooksSame, Kernels.ShellExecute;
      if !readPending {
        LineArms(State(), out);
      }
      var ok, line := ReadInput();
      if ok {
        var found := ShellExecute(line, out);
      }
      terminal.DrawnIsPictured();
    }

    /** An edit of the input of the current screen. */
    method ApplyEdit(edit: Edit)
      requires terminal.Valid() && Rest(State()) && Typable(edit)
      modifies terminal, terminal.screens, terminal.Buffers(), terminal.vga, terminal.vga.cells
      ensures terminal.Valid()
      ensures State() == old(State()).With(DocApply(old(State()).Current(), edit))
      ensures !edit.Type? && StandsStill(old(State()).Current(), State().Current()) ==>
        (terminal.Pictured() <==> old(terminal.Pictured()))
    {
      terminal.ModelOk();
      assert Resting(State().H, State().Current(), readPending);
      hide Resting, Rest, Insert, Backspace, Delete, Document.Move, Terminal.Separate, Terminal.Pictured, StandsStill;
      match edit
      case Type(c) => terminal.PutcInput(c);
      case Erase(count) => terminal.DelInput(count);
      case EraseForward(count) => terminal.DelInputForward(count);
      case Go(direction) => terminal.Move(direction);
    }

    /** Updates the flag of a modifier key; tells whether the scancode was one. */
    method HandleModifier(scancode: nat) returns (done: bool)
      modifies this`isLeftShift, this`isRightShift, this`isCtrl
      ensures done == IsModifier(scancode)
      ensures done ==> State() == old(State()).(keys := Decode(old(State()).keys, scancode, false).0)
      ensures !done ==> State() == old(State())
    {
      done := true;
      if scancode == KEY_LEFT_SHIFT_PRESS {
        isLeftShift := true;
      } else if scancode == KEY_LEFT_SHIFT_RELEASE {
        isLeftShift := false;
      } else if scancode == KEY_RIGHT_SHIFT_PRESS {
        isRightShift := true;
      } else if scancode == KEY_RIGHT_SHIFT_RELEASE {
        isRightShift := false;
      } else if scancode == KEY_CTRL_PRESSED {
        isCtrl := true;
      } else if scancode == KEY_CTRL_RELEASED {
        isCtrl := false;
      } else {
        done := false;
      }
    }

    /** The keys without a character. */
    method HandleSpecial(scancode: nat, out: string)
      requires Valid() && Rest(State()) && !stopped
      modifies this, terminal, terminal.screens, terminal.Buffers(), terminal.vga, terminal.vga.cells
      ensures Valid()
      ensures State() == HandleSpecialKey(old(State()), scancode, out)
      ensures old(readPending) && readPending && !State().Current().drawn ==>
        (terminal.Pictured() <==> old(terminal.Pictured()))
    {
      hide Rest, Terminal.Valid, Terminal.Pictured, StandsStill, DocApply, Kernels.ShellExecute;
      if readPending {
        ReadingKeys(State(), out);
      }
      if scancode == KEY_ENTER {
        CursorInside(State());
        EditingAtRest(State());
        Execute(out);
      } else if scancode == KEY_BACKSPACE {
        ApplyEdit(Erase(1));
      } else if scancode == KEY_DELETE {
        ApplyEdit(EraseForward(1));
      } else if scancode == KEY_CAPS {
        isLock := !isLock;
      } else if scancode == KEY_UP {
        ApplyEdit(Go(Up));
      } else if scancode == KEY_DOWN {
        ApplyEdit(Go(Down));
      } else if scancode == KEY_LEFT {
        ApplyEdit(Go(Left));
      } else if scancode == KEY_RIGHT {
        ApplyEdit(Go(Right));
      }
    }

    method HandleScancode(scancode: nat, out: string)
      requires Valid() && Inv(State()) && !stopped
      modifies this, terminal, terminal.screens, terminal.Buffers(), terminal.vga, terminal.vga.cells
      ensures Valid()
      ensures State() == Handle(old(State()), scancode, out)
      ensures old(readPending) && readPending && !State().Current().drawn ==>
        (terminal.Pictured() <==> old(terminal.Pictured()))
    {
      hide Rest, Terminal.Valid, Terminal.Pictured, StandsStill, Plain, Upper, DocApply, Kernels.ShellExecute;
      var done := HandleModifier(scancode);
      if done || scancode >= SCANCODE_MAP_SIZE {
        return;
      }
      var c := Plain(currentLayout, scancode);
      if isLock != (isLeftShift || isRightShift) {
        if Upper(currentLayout, scancode) != '\0' {
          c := Upper(currentLayout, scancode);
        } else {
          c := ToUpper(c);
        }
      }
      if isCtrl {
        if !readPending && IsDigit(c) {
          SwitchScreen((c as int - '1' as int + 10) % 10);
        }
        return;
      }
      if c != '\0' {
        CharsPrint(currentLayout, scancode);
        if readPending {
          StillBehind(State(), Type(c));
        }
        ApplyEdit(Type(c));
        return;
      }
      EditingAtRest(State());
      HandleSpecial(scancode, out);
    }

    method SwitchScreen(i: nat)
      requires terminal.Valid() && Rest(State())
      modifies terminal, terminal.screens, terminal.Buffers(), terminal.vga, terminal.vga.cells
      ensures terminal.Valid()
      ensures State() == old(State()).(term := old(State()).term.Switch(terminal.H, i))
    {
      terminal.SwitchScreen(i);
    }

    /** Interrupts push scancodes, each unless 127 are waiting. */
    method Receive(burst: seq<nat>)
      requires ring.Valid()
      modifies ring`keyBufferHead, ring.keyBuffer
      ensures ring.Valid()
      ensures ring.Abs().Contents() == Received(old(ring.Abs()).Contents(), burst)
    {
      hide Ring.Contents, Ring.Push;
      for i := 0 to |burst|
        invariant ring.Valid()
        invariant Received(ring.Abs().Contents(), burst[i..]) == Received(old(ring.Abs()).Contents(), burst)
      {
        assert burst[i..][1..] == burst[i + 1..];
        ring.PushScancode(burst[i]);
      }
    }

    /** Lets a burst arrive and tests the ring. */
    method Poll(burst: seq<nat>) returns (some: bool)
      requires Valid()
      modifies ring`keyBufferHead, ring.keyBuffer
      ensures Valid() && State() == old(State())
      ensures ring.Abs().Contents() == Received(old(ring.Abs()).Contents(), burst)
      ensures some <==> ring.Abs().Contents() != []
    {
      hide Terminal.Valid, Ring.Contents, Ring.Ok, Received;
      assert ring.keyBuffer as object !in terminal.Buffers() && ring.keyBuffer as object != terminal.vga.cells;
      Receive(burst);
      some := ring.HasInput();
    }

    /** Takes the oldest scancode and handles it. */
    method HandleNext(out: string)
      requires Valid() && Inv(State()) && !stopped && ring.Abs().Contents() != []
      modifies this, terminal, terminal.screens, terminal.Buffers(), terminal.vga, terminal.vga.cells
      modifies ring`keyBufferTail
      ensures Valid() && Inv(State())
      ensures State() == Handle(old(State()), old(ring.Abs()).Contents()[0], out)
      ensures old(readPending) && readPending && !State().Current().drawn ==>
        (terminal.Pictured() <==> old(terminal.Pictured()))
      ensures ring.Abs().Contents() == old(ring.Abs()).Contents()[1..]
    {
      hide Terminal.Valid, Terminal.Pictured, Inv, Rest, Handle, Ring.Contents, Ring.Ok;
      var scancode := ring.TakeScancode();
      HandleKeeps(State(), scancode, out);
      HandleScancode(scancode, out);
    }

    /** One round of the loop: the oldest scancode, then, unless it stopped the machine, the next test of the ring. */
    method HandleRound(arrivals: seq<seq<nat>>, n: nat, outputs: nat -> string) returns (some: bool)
      requires Valid() && Inv(State()) && !stopped && ring.Abs().Contents() != []
      modifies this, terminal, terminal.screens, terminal.Buffers(), terminal.vga, terminal.vga.cells
      modifies ring, ring.keyBuffer
      ensures Valid() && Inv(State())
      ensures State() == Handle(old(State()), old(ring.Abs()).Contents()[0], outputs(n))
      ensures old(readPending) && readPending && !State().Current().drawn ==>
        (terminal.Pictured() <==> old(terminal.Pictured()))
      ensures Run(old(State()), Inputs(Taken(old(ring.Abs()).Contents(), From(arrivals, n + 1)), outputs, n)) ==
        if stopped then State()
        else Run(State(), Inputs(Taken(ring.Abs().Contents(), From(arrivals, n + 2)), outputs, n + 1))
      ensures if stopped then !some else some <==> ring.Abs().Contents() != []
      ensures !stopped && n + 1 >= |arrivals| ==> |ring.Abs().Contents()| < |old(ring.Abs()).Contents()|
    {
      hide Terminal.Valid, Terminal.Pictured, Inv, Rest, Handle, Run, Ring.Contents, Ring.Ok;
      hide Received, Taken, Drained, Inputs;
      ghost var later := From(arrivals, n + 1);
      RunTakes(State(), ring.Abs().Contents(), later, outputs, n);
      HandleNext(outputs(n));
      if stopped {
        RunStopped(State(), Inputs(Drained(ring.Abs().Contents(), later), outputs, n + 1));
        return false;
      }
      DrainedStarts(ring.Abs().Contents(), later);
      NoneReceived(ring.Abs().Contents());
      some := Poll(Burst(arrivals, n + 1));
    }

    /**
     Handles scancodes, oldest first, until none waits or the machine stops. Interrupts go on
     meanwhile: arrivals gives what they push before the first test of the ring and after each
     scancode taken; outputs, what the command run by the n-th prints, where that is not fixed.
     While the line of a read is not entered, a display that does not show the screen goes on
     not to exactly until a key redraws it.
     */
    method HandleInput(arrivals: seq<seq<nat>>, outputs: nat -> string)
      requires Valid() && Inv(State()) && !stopped
      modifies this, terminal, terminal.screens, terminal.Buffers(), terminal.vga, terminal.vga.cells
      modifies ring, ring.keyBuffer
      ensures Valid() && Inv(State())
      ensures State() == Run(old(State()), Inputs(Drained(old(ring.Abs()).Contents(), arrivals), outputs, 0))
      ensures !stopped ==> ring.Abs().Contents() == []
      ensures old(readPending) && !old(terminal.Pictured()) && |State().shell.log| == |old(State()).shell.log| ==>
        (terminal.Pictured() <==>
         DrawnIn(old(State()), Inputs(Drained(old(ring.Abs()).Contents(), arrivals), outputs, 0)))
    {
      hide Terminal.Valid, Terminal.Pictured, DrawnIn, Kept, Inv, Rest, Handle, Run, Ring.Contents, Ring.Ok;
      hide Received, Taken, Drained, Inputs, From;
      ghost var before, pictured := State(), terminal.Pictured();
      ghost var inputs := Inputs(Drained(ring.Abs().Contents(), arrivals), outputs, 0);
      KeptStarts(before);
      terminal.DrawnIsPictured();
      DrainedStarts(ring.Abs().Contents(), arrivals);
      var n := 0;
      var some := Poll(Burst(arrivals, 0));
      while some
        invariant Valid() && Inv(State()) && (stopped ==> !some && State() == Run(before, inputs))
        invariant !stopped ==>
          && (some <==> ring.Abs().Contents() != [])
          && Run(State(), Inputs(Taken(ring.Abs().Contents(), From(arrivals, n + 1)), outputs, n))
             == Run(before, inputs)
        invariant Kept(before, State(), terminal.Pictured() == pictured)
        decreases !stopped, if n < |arrivals| then |arrivals| - n else 0, |ring.Abs().Contents()|
      {
        ghost var k, scancode, same := State(), ring.Abs().Contents()[0], terminal.Pictured() == pictured;
        some := HandleRound(arrivals, n, outputs);
        KeptStep(before, k, scancode, outputs(n), same, terminal.Pictured() == pictured);
        n := n + 1;
      }
      if !stopped {
        RunEnds(State(), From(arrivals, n + 1), outputs, n);
      }
      KeptStopped(before, State(), terminal.Pictured() == pictured);
      terminal.DrawnIsPictured();
      KeptEnds(before, inputs, pictured, terminal.Pictured());
    }
  }

  /** The n-th burst, if there is one, and those from the n-th on. */
  function Burst(arrivals: seq<seq<nat>>, n: nat): seq<nat> {
    if n < |arrivals| then arrivals[n] else []
  }

  function From(arrivals: seq<seq<nat>>, n: nat): seq<seq<nat>> {
    if n < |arrivals| then arrivals[n..] else []
  }

  lemma DrainedStarts(waiting: seq<nat>, arrivals: seq<seq<nat>>)
    ensures Drained(waiting, arrivals) == Taken(Received(waiting, Burst(arrivals, 0)), From(arrivals, 1))
  {
    assert arrivals != [] ==> From(arrivals, 1) == arrivals[1..];
  }

  /** Taking the first scancode that waits is the first step of the run. */
  lemma RunTakes(k: Kernel, waiting: seq<nat>, later: seq<seq<nat>>, outputs: nat -> string, n: nat)
    requires Inv(k) && waiting != []
    ensures Inv(Handle(k, waiting[0], outputs(n)))
    ensures Run(k, Inputs(Taken(waiting, later), outputs, n))
         == Run(Handle(k, waiting[0], outputs(n)), Inputs(Drained(waiting[1..], later), outputs, n + 1))
  {
    hide Inv, Handle, Run;
    var rest := Drained(waiting[1..], later);
    assert ([waiting[0]] + rest)[1..] == rest;
    RunFirst(k, Input(waiting[0], outputs(n)), Inputs(rest, outputs, n + 1));
  }

  lemma RunEnds(k: Kernel, later: seq<seq<nat>>, outputs: nat -> string, n: nat)
    requires Inv(k)
    ensures Run(k, Inputs(Taken([], later), outputs, n)) == k
  {
  }

  /** What waits after a burst of scancodes. */
  function Received(waiting: seq<nat>, burst: seq<nat>): seq<nat>
    decreases |burst|
  {
    if burst == [] then waiting
    else Received(if |waiting| == 127 then waiting else waiting + [burst[0]], burst[1..])
  }

  lemma NoneReceived(waiting: seq<nat>)
    ensures Received(waiting, []) == waiting
  {
  }

  /** The scancodes taken, in order, from a ring that is tested again after each, with what arrives then. */
  function Taken(waiting: seq<nat>, later: seq<seq<nat>>): seq<nat>
    decreases |later|, |waiting|, 0
  {
    if waiting == [] then [] else [waiting[0]] + Drained(waiting[1..], later)
  }

  function Drained(waiting: seq<nat>, arrivals: seq<seq<nat>>): seq<nat>
    decreases |arrivals|, |waiting|, 1
  {
    if arrivals == [] then Taken(waiting, []) else Taken(Received(waiting, arrivals[0]), arrivals[1..])
  }

  /** The scancodes with the outputs from the n-th on. */
  function Inputs(scancodes: seq<nat>, outputs: nat -> string, n: nat): (inputs: seq<Input>)
    ensures |inputs| == |scancodes|
    ensures forall i | 0 <= i < |inputs| :: inputs[i] == Input(scancodes[i], outputs(n + i))
  {
    if scancodes == [] then [] else [Input(scancodes[0], outputs(n))] + Inputs(scancodes[1..], outputs, n + 1)
  }

  lemma RunFirst(k: Kernel, x: Input, rest: seq<Input>)
    requires Inv(k)
    ensures Inv(Handle(k, x.scancode, x.out))
    ensures Run(k, [x] + rest) == Run(Handle(k, x.scancode, x.out), rest)
  {
    HandleKeeps(k, x.scancode, x.out);
    assert ([x] + rest)[1..] == rest;
  }

  lemma {:induction false} RunStopped(k: Kernel, inputs: seq<Input>)
    requires Inv(k) && k.shell.stopped
    ensures Run(k, inputs) == k
    decreases |inputs|
  {
    if inputs != [] {
      RunStopped(k, inputs[1..]);
    }
  }

  predicate IsModifier(scancode: nat) {
    scancode in {KEY_LEFT_SHIFT_PRESS, KEY_LEFT_SHIFT_RELEASE, KEY_RIGHT_SHIFT_PRESS, KEY_RIGHT_SHIFT_RELEASE,
                 KEY_CTRL_PRESSED, KEY_CTRL_RELEASED}
  }

  function HandleSpecialKey(k: Kernel, scancode: nat, out: string): Kernel
    requires k.Shaped() && k.Current().cursor <= |k.Current().text|
  {
    if scancode == KEY_CAPS then k.(keys := k.keys.(lock := !k.keys.lock))
    else
      match Special(scancode)
      case Do(edit) => k.With(DocApply(k.Current(), edit))
      case Enter => Kernels.ShellExecute(k, k.Current().text, out)
      case _ => k
  }

  /**
   While the line of a read is not entered, the screen is drawn or the display as it was; same
   says whether it is.
   */
  predicate Kept(before: Kernel, now: Kernel, same: bool) {
    && now.Shaped() && |before.shell.log| <= |now.shell.log|
    && (before.shell.reading && |now.shell.log| == |before.shell.log| ==>
          now.shell.reading && !now.shell.stopped && (now.Current().drawn || same))
  }

  lemma KeptStarts(k: Kernel)
    requires Inv(k) && !k.shell.stopped
    ensures Kept(k, k, true) && k.Shaped()
  {
  }

  lemma KeptStep(before: Kernel, k: Kernel, scancode: nat, out: string, same: bool, after: bool)
    requires Inv(k) && !k.shell.stopped && Kept(before, k, same)
    requires
      var r := Handle(k, scancode, out);
      k.shell.reading && r.shell.reading && !r.Current().drawn ==> after == same
    ensures Kept(before, Handle(k, scancode, out), after)
  {
    ReadStep(k, scancode, out);
    hide Handle, Rest;
  }

  lemma KeptStopped(before: Kernel, now: Kernel, same: bool)
    requires Kept(before, now, same)
    ensures now.Shaped()
    ensures before.shell.reading && |now.shell.log| == |before.shell.log| ==> !now.shell.stopped
  {
  }

  lemma KeptEnds(before: Kernel, inputs: seq<Input>, pictured: bool, shown: bool)
    requires Inv(before) && !before.shell.stopped && Kept(before, Run(before, inputs), shown == pictured)
    requires (before.Current().drawn ==> pictured) && (Run(before, inputs).Current().drawn ==> shown)
    ensures
      before.shell.reading && !pictured && |Run(before, inputs).shell.log| == |before.shell.log| ==>
        (shown <==> DrawnIn(before, inputs))
  {
    if before.shell.reading {
      ReadPicture(before, inputs);
    }
    hide Run, DrawnIn, Rest;
  }

  /** While a read waits: Enter ends it, and an edit that does not draw changes no cell. */
  lemma ReadingKeys(k: Kernel, out: string)
    requires Rest(k) && k.shell.reading && !k.shell.stopped
    ensures k.Current().cursor <= |k.Current().text|
    ensures !Kernels.ShellExecute(k, k.Current().text, out).shell.reading
    ensures forall edit: Edit | !edit.Type? ::
      var e := DocApply(k.Current(), edit);
      !e.drawn ==> StandsStill(k.Current(), e)
  {
    CursorInside(k);
    AnswerKeeps(k, k.Current().text, out);
    forall edit: Edit | !edit.Type?
      ensures !DocApply(k.Current(), edit).drawn ==> StandsStill(k.Current(), DocApply(k.Current(), edit))
    {
      StillBehind(k, edit);
    }
  }

  lemma EditingAtRest(k: Kernel)
    requires Rest(k)
    ensures k.Current().editing
  {
    assert Resting(k.H, k.Current(), k.shell.reading);
  }

  lemma NamesTerminated(i: nat)
    requires i < |COMMANDS|
    ensures '\0' !in COMMANDS[i]
  {
  }

  lemma RanFacts(k: Kernel, line: string, out: string)
    requires Rest(k) && !k.shell.stopped && !k.shell.reading && Lookup(line, 0).Some?
    ensures
      var c := Ran(k, line, out);
      && c.Current().text == [] && (c.shell.reading ==> AtRowStart(c.Current()))
      && Kernels.ShellExecute(k, line, out) ==
         if c.shell.stopped then c else c.Recorded(Lookup(line, 0).value).End(!c.shell.reading)
  {
    RanOk(k, line, out);
    FoundIs(k, line, out);
  }

  /** What the shell needs to know of a screen whose output has begun. */
  lemma BeginFacts(k: Kernel)
    requires Rest(k)
    ensures k.Shaped() && k.Current().editing && DocOk(k.Current()) && k.Current().window.H == k.H && 25 <= k.H <= 256
    ensures Printing(k.H, BeginOutput(k.Current())) && BeginOutput(k.Current()).placed
    ensures BeginOutput(k.Current()).text == [] && AtRowStart(BeginOutput(k.Current()))
    ensures !k.shell.reading ==> k.Current().drawn
    ensures forall s: string :: Puts(BeginOutput(k.Current()), s).text == []
  {
    assert Resting(k.H, k.Current(), k.shell.reading);
    BeginOutputOk(k.Current());
    BeginRest(k.H, k.Current());
    forall s: string
      ensures Puts(BeginOutput(k.Current()), s).text == []
    {
      PutsOk(k.H, BeginOutput(k.Current()), s);
    }
  }

  lemma AnswerFormat(line: string)
    requires '\0' !in line
    ensures
      var f := "read: \"%s\"";
      var a := [Printk.StrArg(Some(line))];
      Printk.WellFormed(f) && Printk.ArgsMatch(f, a) && Printk.Format(f, a) == AnswerText(line)
  {
    hide Printk.Format, Printk.WellFormed, Printk.ArgsMatch;
    var f := "read: \"%s\"";
    var a := [Printk.StrArg(Some(line))];
    PlainAlone("\"");
    Printk.StringDirective(line, "\"", []);
    assert a + [] == a;
    Printk.PlainText("read: \"", "%s" + "\"", a);
    assert "read: \"" + ("%s" + "\"") == f;
    assert "read: \"" + (line + "\"") == AnswerText(line);
  }

  lemma PlainAlone(p: string)
    requires '%' !in p && '\0' !in p
    ensures Printk.WellFormed(p) && Printk.ArgsMatch(p, []) && Printk.Format(p, []) == p
  {
    Printk.PlainText(p, "", []);
    assert p + "" == p;
  }

  lemma NotFoundFormat(line: string)
    requires '\0' !in line
    ensures
      var f := "%s: command not found\n";
      var a := [Printk.StrArg(Some(line))];
      Printk.WellFormed(f) && Printk.ArgsMatch(f, a) && Printk.Format(f, a) == NotFoundText(line)
  {
    hide Printk.Format, Printk.WellFormed, Printk.ArgsMatch;
    var f := "%s: command not found\n";
    var a := [Printk.StrArg(Some(line))];
    var t := ": command not found\n";
    NotFoundPlain();
    Printk.StringDirective(line, t, []);
    assert a + [] == a;
    assert "%s" + t == f;
  }

  lemma NotFoundPlain()
    ensures
      var t := ": command not found\n";
      Printk.WellFormed(t) && Printk.ArgsMatch(t, []) && Printk.Format(t, []) == t
  {
    hide Printk.Format, Printk.WellFormed, Printk.ArgsMatch;
    PlainAlone(": command not found\n");
  }
}
