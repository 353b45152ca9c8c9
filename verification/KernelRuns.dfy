/** What every run of handled scancodes keeps, and what it amounts to. */
module KernelRuns {
  import opened Options
  import opened Document
  import opened Editing
  import opened Screens
  import opened Keyboard
  import opened Kernels

  // ---- One key keeps the state at rest ----

  /** A screen in the middle of a command. */
  predicate Printing(H: nat, d: Doc) {
    DocOk(d) && d.text == [] && d.window.H == H
  }

  lemma {:induction false} PutsOk(H: nat, d: Doc, s: string)
    requires Printing(H, d)
    ensures Printing(H, Puts(d, s)) && (d.placed ==> Puts(d, s).placed)
    decreases s
  {
    if s != [] {
      PutOk(d, s[0]);
      PutFrame(d, s[0]);
      PutsOk(H, Put(d, s[0]), s[1..]);
    }
  }

  lemma PutFrame(d: Doc, c: char)
    ensures Put(d, c).window.H == d.window.H && Put(d, c).placed
  {
  }

  lemma BeginRest(H: nat, d: Doc)
    requires DocOk(d) && d.window.H == H
    ensures Printing(H, BeginOutput(d)) && BeginOutput(d).placed
  {
    BeginOutputOk(d);
  }

  /** Output begins on a display that is right exactly if no rows shifted unseen. */
  lemma BeginPicture(d: Doc)
    requires DocOk(d) && d.drawn
    ensures
      var b := BeginOutput(d);
      && (b.drawn <==> !Shifts(d))
      && (b.drawn || Behind(b))
  {
  }

  lemma EndRest(H: nat, d: Doc, showPrompt: bool)
    requires Printing(H, d) && (showPrompt || d.placed)
    ensures
      var e := EndOutput(d, showPrompt);
      && Resting(H, e, !showPrompt) && e.text == [] && e.cursor == 0
      && e.placed && (showPrompt ==> e.drawn)
      && (!showPrompt && d.Start() % 80 == 0 ==> e == Field(d))
  {
    EndOutputOk(d, showPrompt);
    var e := if d.Start() % 80 != 0 then Newline(d) else d;
    NewlineOk(d);
    if showPrompt {
      PromptOk(e);
      PromptShows(e);
    }
    hide Newline, Prompt, DocOk;
  }

  lemma PromptShows(d: Doc)
    requires d.Start() % 80 == 0
    ensures
      var e := Prompt(d);
      && e.window.H == d.window.H && e.drawn && e.placed
      && e.before == d.before + "$ " && e.Start() % 80 == 2 && e.before[e.Start() - 2..] == "$ "
  {
    PutFrame(d, '$');
    PutFrame(Put(d, '$'), ' ');
  }

  /** Everything but the current screen, the layout and the shell flags stays as it is. */
  predicate OnlyCurrent(k: Kernel, r: Kernel)
    requires k.Shaped() && r.Shaped()
  {
    && r.H == k.H && r.term == k.term.With(r.Current())
    && r.shell.log == k.shell.log
  }

  lemma RunCommandOk(k: Kernel, command: nat, out: string)
    requires k.Shaped() && command < |COMMANDS| && 25 <= k.H <= 256
    requires Printing(k.H, k.Current()) && k.Current().placed
    requires !k.shell.reading && !k.shell.stopped
    ensures
      var r := RunCommand(k, command, out);
      && OnlyCurrent(k, r)
      && Printing(r.H, r.Current())
      && (r.shell.reading ==> r.Current() == k.Current())
      && r.shell.last == k.shell.last
    decreases if command == LAST then 1 else 0
  {
    match EffectOf(command)
    case Prints => PutsOk(k.H, k.Current(), out);
    case Clears =>
    case Repeats =>
      if k.shell.last.Some? {
        RunCommandOk(k, k.shell.last.value, out);
      } else {
        PutsOk(k.H, k.Current(), "No last command executed.\n");
      }
    case Stops(message) => PutsOk(k.H, k.Current(), message);
    case Arms =>
    case Uses(layout) =>
  }

  /** A rest state whose current screen is replaced by another screen at rest. */
  lemma RestWith(k: Kernel, r: Kernel)
    requires Rest(k) && r.Shaped() && r.H == k.H && r.term == k.term.With(r.Current())
    requires Resting(r.H, r.Current(), r.shell.reading)
    requires r.Current().placed && (r.Current().drawn || (r.shell.reading && Behind(r.Current())))
    ensures Rest(r)
  {
  }

  lemma AnswerKeeps(k: Kernel, line: string, out: string)
    requires Rest(k) && !k.shell.stopped && k.shell.reading
    ensures
      var r := ShellExecute(k, line, out);
      Rest(r) && !r.shell.reading && !r.shell.stopped && r.shell.last == k.shell.last
      && r.Current().text == [] && r.Current().cursor == 0 && r.term == k.term.With(r.Current())
      && r.shell.log == k.shell.log + [Answer(line)] && r.keys == k.keys
  {
    var d := k.Current();
    assert Resting(k.H, d, k.shell.reading);
    BeginRest(k.H, d);
    PutsOk(k.H, BeginOutput(d), AnswerText(line));
    EndRest(k.H, Puts(BeginOutput(d), AnswerText(line)), true);
    hide Resting, Printing, BeginOutput, Puts, EndOutput, AnswerText;
    RestWith(k, ShellExecute(k, line, out));
  }

  lemma CommandKeeps(k: Kernel, line: string, out: string)
    requires Rest(k) && !k.shell.stopped && !k.shell.reading
    ensures
      var r := ShellExecute(k, line, out);
      && Inv(r)
      && r.Current().text == [] && r.Current().cursor == 0 && r.term == k.term.With(r.Current())
      && r.shell.log == k.shell.log + [Command(line)]
  {
    if Lookup(line, 0).Some? {
      FoundKeeps(k, line, out);
    } else {
      NotFoundKeeps(k, line, out);
    }
  }

  lemma NotFoundKeeps(k: Kernel, line: string, out: string)
    requires Rest(k) && !k.shell.stopped && !k.shell.reading && Lookup(line, 0).None?
    ensures
      var r := ShellExecute(k, line, out);
      && Rest(r)
      && r.Current().text == [] && r.Current().cursor == 0 && r.term == k.term.With(r.Current())
      && r.shell.log == k.shell.log + [Command(line)]
  {
    assert Resting(k.H, k.Current(), k.shell.reading);
    BeginRest(k.H, k.Current());
    var b := k.Logged(Command(line)).Begin();
    PutsOk(k.H, b.Current(), NotFoundText(line));
    var c := if line == [] then b else b.Print(NotFoundText(line));
    assert ShellExecute(k, line, out) == c.End(true);
    hide Rest, Resting, Printing, BeginOutput, Puts, EndOutput, NotFoundText, ShellExecute, Lookup;
    EndKeeps(k, c);
  }

  /** A command that was found, up to the end of its output. */
  function Ran(k: Kernel, line: string, out: string): (c: Kernel)
    requires k.Shaped() && Lookup(line, 0).Some?
    ensures c.Shaped()
  {
    RunCommand(k.Logged(Command(line)).Begin(), Lookup(line, 0).value, out)
  }

  lemma RanOk(k: Kernel, line: string, out: string)
    requires Rest(k) && !k.shell.stopped && !k.shell.reading && Lookup(line, 0).Some?
    ensures
      var c := Ran(k, line, out);
      && c.H == k.H && c.term == k.term.With(c.Current())
      && c.Current().text == [] && c.Current().cursor == 0
      && c.shell.log == k.shell.log + [Command(line)] && c.shell.last == k.shell.last
      && Printing(k.H, c.Current())
      && (c.shell.reading ==> c.Current() == BeginOutput(k.Current()))
      && BeginOutput(k.Current()).placed && BeginOutput(k.Current()).Start() % 80 == 0
  {
    assert Resting(k.H, k.Current(), k.shell.reading);
    BeginRest(k.H, k.Current());
    BeginOutputOk(k.Current());
    hide Resting, BeginOutput, RunCommand, Lookup;
    RunCommandOk(k.Logged(Command(line)).Begin(), Lookup(line, 0).value, out);
  }

  /** The end of output leaves the kernel at rest; without a prompt the display is as the start of output left it. */
  lemma EndKeeps(k: Kernel, c: Kernel)
    requires Rest(k) && c.Shaped() && c.H == k.H && c.term == k.term.With(c.Current())
    requires Printing(k.H, c.Current())
    requires c.shell.reading ==>
      && c.Current().placed && c.Current().Start() % 80 == 0
      && (c.Current().drawn || Behind(c.Current()))
    ensures
      var r := c.End(!c.shell.reading);
      && Rest(r)
      && r.Current().text == [] && r.Current().cursor == 0 && r.term == k.term.With(r.Current())
  {
    EndRest(k.H, c.Current(), !c.shell.reading);
    hide Resting, Printing, EndOutput, DocOk;
    RestWith(k, c.End(!c.shell.reading));
  }

  lemma FoundIs(k: Kernel, line: string, out: string)
    requires k.Shaped() && !k.shell.reading && Lookup(line, 0).Some?
    ensures
      var c := Ran(k, line, out);
      ShellExecute(k, line, out) ==
        if c.shell.stopped then c else c.Recorded(Lookup(line, 0).value).End(!c.shell.reading)
  {
  }

  lemma FoundKeeps(k: Kernel, line: string, out: string)
    requires Rest(k) && !k.shell.stopped && !k.shell.reading && Lookup(line, 0).Some?
    ensures
      var r := ShellExecute(k, line, out);
      && Inv(r)
      && r.Current().text == [] && r.Current().cursor == 0 && r.term == k.term.With(r.Current())
      && r.shell.log == k.shell.log + [Command(line)]
  {
    var c := Ran(k, line, out);
    RanOk(k, line, out);
    FoundIs(k, line, out);
    BeginRight(k);
    hide Rest, Resting, Printing, Behind, DocOk, Shifts, BeginOutput, ShellExecute, Ran, Lookup;
    if !c.shell.stopped {
      EndKeeps(k, c.Recorded(Lookup(line, 0).value));
    }
  }

  lemma BeginRight(k: Kernel)
    requires Rest(k) && !k.shell.reading
    ensures BeginOutput(k.Current()).drawn || Behind(BeginOutput(k.Current()))
  {
    assert Resting(k.H, k.Current(), k.shell.reading);
    BeginPicture(k.Current());
  }

  lemma ShellKeeps(k: Kernel, line: string, out: string)
    requires Rest(k) && !k.shell.stopped
    ensures
      var r := ShellExecute(k, line, out);
      && Inv(r)
      && r.Current().text == [] && r.Current().cursor == 0 && r.term == k.term.With(r.Current())
  {
    if k.shell.reading {
      AnswerKeeps(k, line, out);
    } else {
      CommandKeeps(k, line, out);
    }
  }

  lemma SwitchKeeps(k: Kernel, screen: nat)
    requires Rest(k) && !k.shell.reading && screen < SCREEN_COUNT
    ensures Rest(k.(term := k.term.Switch(k.H, screen)))
  {
    FreshOk(k.H);
    var r := k.(term := k.term.Switch(k.H, screen));
    var d := r.term.docs[screen].value;
    assert Resting(k.H, d, false) by {
      hide Fresh, DocOk;
      if k.term.docs[screen].Some? {
        assert Resting(k.H, k.term.docs[screen].value, false);
      }
    }
    hide Resting;
  }

  /** An edit that redraws a display that fell behind: typing, and scrolling up where there is something above. */
  predicate Redraws(d: Doc, edit: Edit) {
    edit.Type? || (edit == Go(Up) && d.window.scroll > 0)
  }

  /** Until such an edit the display stays behind. */
  lemma EditBehind(d: Doc, edit: Edit)
    requires Editable(d) && Behind(d) && !d.drawn
    ensures
      var e := DocApply(d, edit);
      (e.drawn <==> Redraws(d, edit)) && (!e.drawn ==> Behind(e) && e.window == d.window)
  {
  }

  lemma EditRests(H: nat, d: Doc, edit: Edit, armed: bool)
    requires Resting(H, d, armed) && Typable(edit) && (edit.Type? ==> edit.c != '\0')
    requires d.placed && (d.drawn || (armed && Behind(d)))
    ensures
      var e := DocApply(d, edit);
      Resting(H, e, armed) && e.placed && (e.drawn || (armed && Behind(e)))
  {
    ApplyRefines(d, edit);
    if !d.drawn {
      EditBehind(d, edit);
    }
    hide Behind, DocOk, Prompted;
  }

  lemma EditKeeps(k: Kernel, edit: Edit)
    requires Rest(k) && Typable(edit) && (edit.Type? ==> edit.c != '\0')
    ensures Rest(k.With(DocApply(k.Current(), edit)))
  {
    var d := k.Current();
    assert Resting(k.H, d, k.shell.reading);
    EditRests(k.H, d, edit, k.shell.reading);
    hide Resting, Behind, DocApply;
    RestWith(k, k.With(DocApply(d, edit)));
  }

  lemma HandleKeeps(k: Kernel, scancode: nat, out: string)
    requires Inv(k)
    ensures Inv(Handle(k, scancode, out))
  {
    if !k.shell.stopped {
      var (keys, action) := Decode(k.keys, scancode, k.shell.reading);
      var n := k.(keys := keys);
      DecodeSound(k.keys, scancode, k.shell.reading);
      assert Rest(n);
      assert Resting(k.H, n.Current(), k.shell.reading);
      hide Decode, Rest, DocApply, ShellExecute;
      match action
      case Nothing => CursorInside(n);
      case Show(screen) =>
        SwitchKeeps(n, screen);
        CursorInside(n.(term := n.term.Switch(n.H, screen)));
      case Do(edit) =>
        EditKeeps(n, edit);
        CursorInside(n.With(DocApply(n.Current(), edit)));
      case Enter => ShellKeeps(n, n.Current().text, out);
    }
  }

  lemma CursorInside(k: Kernel)
    requires Rest(k)
    ensures k.Current().cursor <= |k.Current().text|
  {
    assert Resting(k.H, k.Current(), k.shell.reading);
  }

  lemma BootKeeps(H: nat)
    requires 25 <= H <= 256
    ensures Inv(BootKernel(H)) && Rest(BootKernel(H))
  {
    FreshOk(H);
  }

  // ---- Runs ----

  /** A handled scancode, with what a command run by it prints where that is not fixed. */
  datatype Input = Input(scancode: nat, out: string)

  function Run(k: Kernel, inputs: seq<Input>): (r: Kernel)
    requires Inv(k)
    ensures Inv(r)
    decreases |inputs|
  {
    if inputs == [] then k
    else
      HandleKeeps(k, inputs[0].scancode, inputs[0].out);
      Run(Handle(k, inputs[0].scancode, inputs[0].out), inputs[1..])
  }

  lemma {:induction false} RunAppend(k: Kernel, a: seq<Input>, b: seq<Input>)
    requires Inv(k)
    ensures Run(k, a + b) == Run(Run(k, a), b)
    decreases |a|
  {
    hide Handle, Rest;
    if a == [] {
      assert a + b == b;
    } else {
      HandleKeeps(k, a[0].scancode, a[0].out);
      RunAppend(Handle(k, a[0].scancode, a[0].out), a[1..], b);
      assert (a + b)[1..] == a[1..] + b;
    }
  }

  lemma RunOne(k: Kernel, x: Input)
    requires Inv(k)
    ensures Run(k, [x]) == Handle(k, x.scancode, x.out)
  {
    HandleKeeps(k, x.scancode, x.out);
    assert [x][1..] == [];
  }

  /** What one more key does at the end of a run. */
  lemma RunSnoc(k: Kernel, inputs: seq<Input>, x: Input)
    requires Inv(k)
    ensures Run(k, inputs + [x]) == Handle(Run(k, inputs), x.scancode, x.out)
  {
    RunAppend(k, inputs, [x]);
    RunOne(Run(k, inputs), x);
  }

  /**
   Between any two keys of any run: "$ " stands right before the input of every screen that
   was shown, except where a read waits for its line, whose input starts in column 0; the
   current screen is never in output mode; and the display shows it, unless it fell behind
   when a read was armed (ReadRuns says when it does, and until when).
   */
  lemma EveryRunRests(H: nat, inputs: seq<Input>)
    requires 25 <= H <= 256
    ensures Inv(BootKernel(H))
    ensures
      var k := Run(BootKernel(H), inputs);
      !k.shell.stopped ==>
        && k.Current().editing && k.Current().placed
        && (k.Current().drawn || (k.shell.reading && Behind(k.Current())))
        && forall i | 0 <= i < SCREEN_COUNT && k.term.docs[i].Some? ::
             var d := k.term.docs[i].value;
             && Editable(d)
             && (if k.shell.reading && i == k.term.index then d.Start() % 80 == 0 else Prompted(d))
  {
    BootKeeps(H);
    var k := Run(BootKernel(H), inputs);
    if !k.shell.stopped {
      assert Resting(k.H, k.Current(), k.shell.reading);
    }
  }

  /**
   At every rest state of every run the rows of the input are in the buffer and not above
   the view, so that the row sent to the display is never negative.
   */
  lemma EveryRunInWindow(H: nat, inputs: seq<Input>, p: nat)
    requires 25 <= H <= 256
    ensures Inv(BootKernel(H))
    ensures
      var k := Run(BootKernel(H), inputs);
      var d := k.Current();
      !k.shell.stopped && d.Start() <= p <= d.End() ==>
        d.window.scroll <= d.window.Row(p) < d.window.H && d.window.scroll + 25 <= d.window.H
  {
    EveryRunRests(H, inputs);
    var k := Run(BootKernel(H), inputs);
    if !k.shell.stopped && k.Current().Start() <= p <= k.Current().End() {
      assert Editable(k.term.docs[k.term.index].value);
      InputInWindow(k.Current(), p);
    }
  }

  /** A key changes no screen but the current one, and the one it shows by setting it up. */
  lemma ScreensIndependent(k: Kernel, scancode: nat, out: string, i: nat)
    requires Inv(k) && i < SCREEN_COUNT
    ensures
      var r := Handle(k, scancode, out);
      i != k.term.index && i != r.term.index ==> r.term.docs[i] == k.term.docs[i]
    ensures
      var r := Handle(k, scancode, out);
      i == r.term.index != k.term.index ==>
        && r.term.docs[k.term.index] == k.term.docs[k.term.index]
        && r.term.docs[i] == Some(Redraw(if k.term.docs[i].Some? then k.term.docs[i].value else Fresh(k.H)))
  {
    if !k.shell.stopped {
      var (keys, action) := Decode(k.keys, scancode, k.shell.reading);
      if action.Enter? && k.Current().editing {
        ShellKeeps(k.(keys := keys), k.Current().text, out);
      }
      hide Decode, ShellExecute, DocApply, Rest, Fresh;
    }
  }

  /** Whether the screen is the one displayed at some point of the run. */
  predicate Visited(k: Kernel, inputs: seq<Input>, i: nat)
    requires Inv(k)
    decreases |inputs|
  {
    i == k.term.index ||
    (inputs != [] &&
     (HandleKeeps(k, inputs[0].scancode, inputs[0].out);
      Visited(Handle(k, inputs[0].scancode, inputs[0].out), inputs[1..], i)))
  }

  /**
   In every run a screen is set up if and only if it was displayed, and stays so. So each is
   set up once, on its first display: a screen shown that is set up keeps what it had.
   */
  lemma {:induction false} SetUpOnce(k: Kernel, inputs: seq<Input>, i: nat)
    requires Inv(k) && i < SCREEN_COUNT
    ensures Run(k, inputs).term.docs[i].Some? <==> k.term.docs[i].Some? || Visited(k, inputs, i)
    decreases |inputs|
  {
    hide Handle, Rest;
    if inputs != [] {
      var x := inputs[0];
      HandleKeeps(k, x.scancode, x.out);
      SetUpByOne(k, x.scancode, x.out, i);
      SetUpOnce(Handle(k, x.scancode, x.out), inputs[1..], i);
    }
  }

  lemma SetUpByOne(k: Kernel, scancode: nat, out: string, i: nat)
    requires Inv(k) && i < SCREEN_COUNT
    ensures
      var r := Handle(k, scancode, out);
      r.term.docs[i].Some? <==> k.term.docs[i].Some? || i == r.term.index
  {
    hide Handle, Rest;
    ScreensIndependent(k, scancode, out, i);
    ScreensIndependent(k, scancode, out, Handle(k, scancode, out).term.index);
  }

  // ---- The pending read ----

  lemma HandleWhileReading(k: Kernel, scancode: nat, out: string)
    requires Inv(k) && k.shell.reading && !k.shell.stopped
    ensures
      var r := Handle(k, scancode, out);
      && r.term.index == k.term.index && !r.shell.stopped && r.shell.last == k.shell.last
      && (if r.shell.reading then r.shell.log == k.shell.log
          else r.shell.log == k.shell.log + [Answer(k.Current().text)])
  {
    DecodeSound(k.keys, scancode, true);
    var keys := Decode(k.keys, scancode, true).0;
    assert Resting(k.H, k.Current(), true);
    AnswerKeeps(k.(keys := keys), k.Current().text, out);
    hide Decode, ShellExecute, DocApply, Rest;
  }

  /**
   From the arming of a read until a line is entered the displayed screen does not change,
   nothing runs, and that line is taken as data.
   */
  lemma {:induction false} ReadTakesTheNextLine(k: Kernel, inputs: seq<Input>)
    requires Inv(k) && k.shell.reading && !k.shell.stopped
    ensures
      var r := Run(k, inputs);
      if |r.shell.log| == |k.shell.log|
      then r.shell.reading && !r.shell.stopped && r.term.index == k.term.index && r.shell.log == k.shell.log
      else |r.shell.log| > |k.shell.log| && r.shell.log[|k.shell.log|].Answer?
    decreases |inputs|
  {
    if inputs != [] {
      var n := Handle(k, inputs[0].scancode, inputs[0].out);
      HandleKeeps(k, inputs[0].scancode, inputs[0].out);
      HandleWhileReading(k, inputs[0].scancode, inputs[0].out);
      if n.shell.reading {
        ReadTakesTheNextLine(n, inputs[1..]);
      } else {
        LogGrows(n, inputs[1..]);
      }
    }
  }

  lemma HandleLogs(k: Kernel, scancode: nat, out: string)
    requires Inv(k)
    ensures k.shell.log <= Handle(k, scancode, out).shell.log
  {
    if !k.shell.stopped && !k.shell.reading && k.Current().editing {
      var keys := Decode(k.keys, scancode, false).0;
      CommandKeeps(k.(keys := keys), k.Current().text, out);
    } else if !k.shell.stopped && k.shell.reading {
      HandleWhileReading(k, scancode, out);
    }
    hide Decode, ShellExecute, DocApply, Rest;
  }

  lemma {:induction false} LogGrows(k: Kernel, inputs: seq<Input>)
    requires Inv(k)
    ensures k.shell.log <= Run(k, inputs).shell.log
    decreases |inputs|
  {
    if inputs != [] {
      HandleKeeps(k, inputs[0].scancode, inputs[0].out);
      HandleLogs(k, inputs[0].scancode, inputs[0].out);
      LogGrows(Handle(k, inputs[0].scancode, inputs[0].out), inputs[1..]);
    }
  }

  // ---- The last command ----

  /** The last command that was found, was not "last", and was not the answer to a read. */
  function LastOf(log: seq<Line>): Option<nat> {
    if log == [] then None
    else
      var line := log[|log| - 1];
      var command := if line.Command? then Lookup(line.text, 0) else None;
      if command.Some? && command.value != LAST then command else LastOf(log[..|log| - 1])
  }

  lemma LastOfSnoc(log: seq<Line>, line: Line)
    ensures LastOf(log + [line]) ==
      var command := if line.Command? then Lookup(line.text, 0) else None;
      if command.Some? && command.value != LAST then command else LastOf(log)
  {
    assert (log + [line])[..|log|] == log;
  }

  /** The shell of a command line, once it is done. */
  lemma CommandRecords(k: Kernel, line: string, out: string)
    requires Rest(k) && !k.shell.stopped && !k.shell.reading
    ensures
      var r := ShellExecute(k, line, out);
      var command := Lookup(line, 0);
      !r.shell.stopped ==>
        r.shell.last == if command.Some? && command.value != LAST then command else k.shell.last
  {
    var d := k.Current();
    assert Resting(k.H, d, k.shell.reading);
    BeginRest(k.H, d);
    var command := Lookup(line, 0);
    var b := k.Logged(Command(line)).Begin();
    hide Resting, BeginOutput, Puts, EndOutput, NotFoundText, RunCommand, Lookup;
    if command.Some? {
      RunCommandOk(b, command.value, out);
    }
  }

  lemma HandleRecords(k: Kernel, scancode: nat, out: string)
    requires Inv(k) && k.shell.last == LastOf(k.shell.log)
    ensures
      var r := Handle(k, scancode, out);
      !r.shell.stopped ==> r.shell.last == LastOf(r.shell.log)
  {
    hide Decode, ShellExecute, DocApply, LastOf, Lookup;
    if !k.shell.stopped {
      if k.shell.reading {
        HandleWhileReading(k, scancode, out);
        LastOfSnoc(k.shell.log, Answer(k.Current().text));
      } else {
        var n := k.(keys := Decode(k.keys, scancode, false).0);
        assert Rest(n);
        hide Rest;
        LineRecords(n, k.Current().text, out);
      }
    }
  }

  lemma LineRecords(k: Kernel, line: string, out: string)
    requires Rest(k) && !k.shell.stopped && !k.shell.reading && k.shell.last == LastOf(k.shell.log)
    ensures
      var r := ShellExecute(k, line, out);
      !r.shell.stopped ==> r.shell.last == LastOf(r.shell.log)
  {
    hide ShellExecute, Rest, LastOf, Lookup;
    CommandKeeps(k, line, out);
    CommandRecords(k, line, out);
    LastOfSnoc(k.shell.log, Command(line));
  }

  /**
   In every run, what "last" will repeat is the latest command that was found and was not
   "last" itself: unknown commands and lines taken by a read leave it alone.
   */
  lemma {:induction false} LastIsLatest(k: Kernel, inputs: seq<Input>)
    requires Inv(k) && (!k.shell.stopped ==> k.shell.last == LastOf(k.shell.log))
    ensures
      var r := Run(k, inputs);
      !r.shell.stopped ==> r.shell.last == LastOf(r.shell.log)
    decreases |inputs|
  {
    if inputs != [] {
      HandleKeeps(k, inputs[0].scancode, inputs[0].out);
      if !k.shell.stopped {
        HandleRecords(k, inputs[0].scancode, inputs[0].out);
      }
      LastIsLatest(Handle(k, inputs[0].scancode, inputs[0].out), inputs[1..]);
    }
  }

  /** The log only records: nothing else depends on it. */
  predicate SameButLog(a: Kernel, b: Kernel) {
    a.(shell := a.shell.(log := [])) == b.(shell := b.shell.(log := []))
  }

  lemma LogUnread(a: Kernel, b: Kernel, command: nat, out: string)
    requires a.Shaped() && b.Shaped() && SameButLog(a, b) && command < |COMMANDS|
    ensures SameButLog(RunCommand(a, command, out), RunCommand(b, command, out))
    ensures RunCommand(a, command, out).shell.last == a.shell.last
    decreases if command == LAST then 1 else 0
  {
    hide Puts, Clear;
    if EffectOf(command) == Repeats && a.shell.last.Some? {
      LogUnread(a, b, a.shell.last.value, out);
    }
  }

  /** No two commands have the same name. */
  lemma NamesFindThemselves(command: nat)
    requires command < |COMMANDS|
    ensures Lookup(COMMANDS[command], 0) == Some(command)
  {
    var r := Lookup(COMMANDS[command], 0);
    assert r.Some? && COMMANDS[r.value] == COMMANDS[command];
    NamesDiffer(r.value, command);
  }

  lemma NamesDiffer(i: nat, j: nat)
    requires i <= j < |COMMANDS| && COMMANDS[i] == COMMANDS[j]
    ensures i == j
  {
    assert COMMANDS[i][0] == COMMANDS[j][0] && |COMMANDS[i]| == |COMMANDS[j]|;
    assert COMMANDS[i][1] == COMMANDS[j][1] && COMMANDS[i][2] == COMMANDS[j][2];
  }

  /**
   Entering "last" does all that entering the name of the last command does: the same output,
   the same screens, the same prompt or the same read armed, the same command recorded, and
   the machine stopped or not. Only the log tells them apart.
   */
  lemma LastRepeats(k: Kernel, out: string)
    requires k.Shaped() && k.shell.last.Some? && !k.shell.reading
    ensures SameButLog(ShellExecute(k, "last", out), ShellExecute(k, COMMANDS[k.shell.last.value], out))
  {
    var v := k.shell.last.value;
    NamesFindThemselves(LAST);
    NamesFindThemselves(v);
    RanSame(k, out);
    FoundIs(k, "last", out);
    FoundIs(k, COMMANDS[v], out);
    hide Lookup, EndOutput, Ran, ShellExecute;
  }

  lemma RanSame(k: Kernel, out: string)
    requires k.Shaped() && k.shell.last.Some? && !k.shell.reading
    requires Lookup("last", 0) == Some(LAST) && Lookup(COMMANDS[k.shell.last.value], 0) == k.shell.last
    ensures
      var a, b := Ran(k, "last", out), Ran(k, COMMANDS[k.shell.last.value], out);
      SameButLog(a, b) && a.shell.last == b.shell.last == k.shell.last
  {
    hide Lookup, BeginOutput;
    var v := k.shell.last.value;
    var a := k.Logged(Command("last")).Begin();
    var b := k.Logged(Command(COMMANDS[v])).Begin();
    LastRuns(a, out);
    LogUnread(a, b, v, out);
    LogUnread(b, a, v, out);
    hide RunCommand;
  }

  lemma LastRuns(k: Kernel, out: string)
    requires k.Shaped() && k.shell.last.Some?
    ensures RunCommand(k, LAST, out) == RunCommand(k, k.shell.last.value, out)
  {
  }
}
