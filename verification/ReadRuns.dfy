/** The display while a read waits: when it falls behind the screen, and until when. */
module ReadRuns {
  import opened Text
  import opened Tapes
  import opened Options
  import opened Document
  import opened Editing
  import opened Screens
  import opened Keyboard
  import opened Kernels
  import opened KernelRuns

  // ---- Arming ----

  /** No command has a long name. */
  lemma NamesShort(name: string)
    requires Lookup(name, 0).Some?
    ensures 0 < |name| <= 10
  {
  }

  /**
   A line that arms a read, itself or through "last", leaves the display right exactly if its
   row was not the last one of a buffer scrolled to its end.
   */
  lemma ArmedPicture(k: Kernel, line: string, out: string)
    requires Rest(k) && !k.shell.stopped && !k.shell.reading
    ensures
      var d, r := k.Current(), ShellExecute(k, line, out);
      !r.shell.stopped && r.shell.reading ==>
        && Lookup(line, 0).Some?
        && (r.Current().drawn <==> !Shifts(d))
  {
    assert Resting(k.H, k.Current(), k.shell.reading);
    BeginPicture(k.Current());
    if Lookup(line, 0).Some? {
      var c := Ran(k, line, out);
      RanOk(k, line, out);
      FoundIs(k, line, out);
      hide BeginOutput, EndOutput, ShellExecute, Ran, Shifts, Rest, Lookup;
      if !c.shell.stopped && c.shell.reading {
        EndRest(k.H, c.Current(), false);
      }
    }
  }

  /**
   When it is not, the display is wrong for certain: its bottom row still shows the prompt of
   the line that armed the read, and the row that is there now is blank.
   */
  lemma UnseenIsWrong(d: Doc)
    requires DocOk(d) && Prompted(d) && |d.text| <= 10
    requires Shifts(d)
    ensures !LooksSame(d)
  {
    var w := AtEnd(d);
    var top := w.dropped + w.scroll;
    assert d.Start() == d.End() / 80 * 80 + 2 && d.End() / 80 == top + 24;
    assert d.Page()[d.Start() - 2] == d.before[d.Start() - 2..][0] == '$';
    assert Stale(d.Page(), top, d.End() % 80, 24 * 80) == '$';
    assert At(d.Page(), (top + 1) * 80 + 24 * 80) == ' ';
  }

  /** The same of the key that arms a read; what the cells of the display hold is in Screen.BeginOutput. */
  lemma EnterArms(k: Kernel, scancode: nat, out: string)
    requires Inv(k) && !k.shell.stopped && !k.shell.reading
    ensures
      var d, r := k.Current(), Handle(k, scancode, out);
      !r.shell.stopped && r.shell.reading ==>
        if Shifts(d) then !r.Current().drawn && !LooksSame(d) else r.Current().drawn
  {
    hide Decode, LooksSame, Shifts, ShellExecute, DocApply;
    var n := k.(keys := Decode(k.keys, scancode, false).0);
    assert Rest(n);
    hide Rest;
    LineArms(n, out);
  }

  lemma LineArms(k: Kernel, out: string)
    requires Rest(k) && !k.shell.stopped && !k.shell.reading
    ensures
      var d, r := k.Current(), ShellExecute(k, k.Current().text, out);
      !r.shell.stopped && r.shell.reading ==>
        if Shifts(d) then !r.Current().drawn && !LooksSame(d) else r.Current().drawn
  {
    var d, r := k.Current(), ShellExecute(k, k.Current().text, out);
    assert Resting(k.H, d, false);
    ArmedPicture(k, d.text, out);
    hide Rest, LooksSame, Shifts, ShellExecute, Lookup, RunCommand;
    if !r.shell.stopped && r.shell.reading && Shifts(d) {
      NamesShort(d.text);
      UnseenIsWrong(d);
    }
  }

  // ---- Waiting ----

  /** A key that redraws the display while a read waits. */
  predicate Drawing(k: Kernel, scancode: nat)
    requires k.Shaped()
  {
    var action := Decode(k.keys, scancode, true).1;
    action.Do? && Redraws(k.Current(), action.edit)
  }

  /** Whether one of the keys does. */
  predicate DrawnIn(k: Kernel, inputs: seq<Input>)
    requires Inv(k)
    decreases |inputs|
  {
    inputs != [] &&
    (HandleKeeps(k, inputs[0].scancode, inputs[0].out);
     Drawing(k, inputs[0].scancode) || DrawnIn(Handle(k, inputs[0].scancode, inputs[0].out), inputs[1..]))
  }

  lemma WaitingPicture(k: Kernel, scancode: nat, out: string)
    requires Inv(k) && !k.shell.stopped && k.shell.reading
    ensures
      var r := Handle(k, scancode, out);
      r.shell.reading ==> (r.Current().drawn <==> k.Current().drawn || Drawing(k, scancode))
  {
    var d, action := k.Current(), Decode(k.keys, scancode, true).1;
    assert Resting(k.H, d, true);
    DecodeSound(k.keys, scancode, true);
    if action.Enter? {
      AnswerKeeps(k.(keys := Decode(k.keys, scancode, true).0), d.text, out);
    } else if action.Do? {
      ApplyRefines(d, action.edit);
      if !d.drawn {
        EditBehind(d, action.edit);
      }
    }
    hide Decode, ShellExecute, DocApply, Behind, Editable;
  }

  /** An edit that leaves a display behind has changed no cell of it. */
  lemma StillBehind(k: Kernel, edit: Edit)
    requires Rest(k) && k.shell.reading && Typable(edit)
    ensures
      var d, e := k.Current(), DocApply(k.Current(), edit);
      !e.drawn ==> StandsStill(d, e) && !edit.Type?
  {
    var d := k.Current();
    assert Resting(k.H, d, true);
    ApplyRefines(d, edit);
    if !d.drawn {
      EditBehind(d, edit);
    }
    hide DocApply;
  }

  /** While the line of a read is not entered, a picture once drawn stays so. */
  lemma ReadStep(k: Kernel, scancode: nat, out: string)
    requires Inv(k) && !k.shell.stopped
    ensures
      var r := Handle(k, scancode, out);
      && |k.shell.log| <= |r.shell.log|
      && (k.shell.reading && |r.shell.log| == |k.shell.log| ==>
            r.shell.reading && !r.shell.stopped && (k.Current().drawn ==> r.Current().drawn))
  {
    HandleLogs(k, scancode, out);
    if k.shell.reading {
      HandleWhileReading(k, scancode, out);
      WaitingPicture(k, scancode, out);
    }
    hide Handle, Rest;
  }

  /**
   In every run, until the line of the read is entered, the screen is drawn exactly if it was at
   the start or a key that redraws it came since: one that types a character, or an Up that
   scrolls.
   */
  lemma {:induction false} ReadPicture(k: Kernel, inputs: seq<Input>)
    requires Inv(k) && !k.shell.stopped && k.shell.reading
    ensures
      var r := Run(k, inputs);
      |r.shell.log| == |k.shell.log| ==> (r.Current().drawn <==> k.Current().drawn || DrawnIn(k, inputs))
    decreases |inputs|
  {
    if inputs != [] {
      var x := inputs[0];
      var n := Handle(k, x.scancode, x.out);
      HandleKeeps(k, x.scancode, x.out);
      HandleWhileReading(k, x.scancode, x.out);
      WaitingPicture(k, x.scancode, x.out);
      if n.shell.reading {
        ReadPicture(n, inputs[1..]);
      } else {
        LogGrows(n, inputs[1..]);
      }
    }
  }

  // ---- A run that ends on a wrong picture ----

  /** The first screen with the cursor after the given text, in row r of a page of 35 rows or fewer. */
  predicate AtRow(k: Kernel, r: nat, text: string) {
    && Rest(k) && !k.shell.stopped && !k.shell.reading
    && k.H == 35 && k.keys == PLAIN
    && k.Current().text == text && k.Current().cursor == |text|
    && k.Current().Start() == r * 80 + 2
    && k.Current().window == Window(35, 0, Max(0, r - 24))
  }

  lemma BootAtRow()
    ensures AtRow(BootKernel(35), 0, [])
  {
    BootKeeps(35);
    FreshOk(35);
    FreshWindow(35);
    hide Fresh, Resting, DocOk;
  }

  lemma FreshWindow(H: nat)
    requires 25 <= H
    ensures Fresh(H).window == Window(H, 0, 0)
  {
  }

  lemma EnterDoc(d: Doc, r: nat)
    requires DocOk(d) && d.text == [] && d.Start() == r * 80 + 2 && r < 34
    requires d.window == Window(35, 0, Max(0, r - 24))
    ensures
      var e := EndOutput(BeginOutput(d), true);
      e.Start() == (r + 1) * 80 + 2 && e.window == Window(35, 0, Max(0, r - 23))
  {
    NewRow(d, r);
    PromptRow(BeginOutput(d), r + 1);
    hide BeginOutput, DocOk, Prompt;
  }

  lemma NewRow(d: Doc, r: nat)
    requires d.text == [] && d.Start() == r * 80 + 2 && r < 34
    requires d.window == Window(35, 0, Max(0, r - 24))
    ensures
      var b := BeginOutput(d);
      b.Start() == (r + 1) * 80 && b.window == Window(35, 0, Max(0, r - 23)) && b.text == []
  {
    assert NextRow(d.Start()) == (r + 1) * 80;
  }

  lemma PromptRow(b: Doc, r: nat)
    requires b.Start() == r * 80 && r < 35 && b.window == Window(35, 0, Max(0, r - 24))
    ensures Prompt(b).Start() == r * 80 + 2 && Prompt(b).window == b.window
  {
    assert Put(b, '$').window == b.window;
  }

  lemma EnterStep(k: Kernel, r: nat)
    requires AtRow(k, r, []) && r < 34
    ensures AtRow(Handle(k, KEY_ENTER, []), r + 1, [])
  {
    SpecialKeysHaveNoChar(k.keys, KEY_ENTER);
    if Lookup([], 0).Some? {
      NamesShort([]);
    }
    assert Resting(k.H, k.Current(), false);
    EnterDoc(k.Current(), r);
    hide DocOk, Resting, BeginOutput, EndOutput, Lookup, Rest, CharOf;
    NotFoundKeeps(k, [], []);
  }

  lemma {:induction false} EnterSteps(k: Kernel, r: nat, n: nat)
    requires AtRow(k, r, []) && r + n <= 34
    ensures Inv(k) && AtRow(Run(k, Enters(n)), r + n, [])
    decreases n
  {
    hide AtRow, Handle, Rest;
    AtRowInv(k, r, []);
    if n > 0 {
      EnterStep(k, r);
      HandleKeeps(k, KEY_ENTER, []);
      EnterSteps(Handle(k, KEY_ENTER, []), r + 1, n - 1);
      assert Enters(n)[1..] == Enters(n - 1);
    }
  }

  lemma AtRowInv(k: Kernel, r: nat, text: string)
    requires AtRow(k, r, text)
    ensures Inv(k)
  {
    CursorInside(k);
  }

  lemma TypeStep(k: Kernel, r: nat, text: string, scancode: nat, c: char)
    requires AtRow(k, r, text) && r <= 34 && |text| < 70
    requires Decode(k.keys, scancode, false) == (k.keys, Do(Type(c))) && c != '\n' && c != '\0'
    ensures AtRow(Handle(k, scancode, []), r, text + [c])
  {
    assert Resting(k.H, k.Current(), false);
    EditKeeps(k, Type(c));
    assert k.Current().text + [c] == text[..|text|] + [c] + text[|text|..];
    hide Rest, Resting, Decode;
  }

  function Enters(n: nat): seq<Input> {
    seq(n, _ => Input(KEY_ENTER, []))
  }

  const PLAIN: Keys := Keys(false, false, false, false, Qwerty)

  const TYPE_READ: seq<Input> := [Input(0x13, []), Input(0x12, []), Input(0x1E, []), Input(0x20, [])]

  lemma ReadKeys()
    ensures
      && Decode(PLAIN, 0x13, false) == (PLAIN, Do(Type('r')))
      && Decode(PLAIN, 0x12, false) == (PLAIN, Do(Type('e')))
      && Decode(PLAIN, 0x1E, false) == (PLAIN, Do(Type('a')))
      && Decode(PLAIN, 0x20, false) == (PLAIN, Do(Type('d')))
  {
    assert "qwertyuiop[]"[3] == 'r' && "qwertyuiop[]"[2] == 'e';
    assert "asdfghjkl;'`"[0] == 'a' && "asdfghjkl;'`"[2] == 'd';
  }

  /** One character more at the end of a run. */
  lemma TypeMore(k: Kernel, inputs: seq<Input>, text: string, scancode: nat, c: char)
    requires Inv(k) && AtRow(Run(k, inputs), 34, text) && |text| < 70
    requires Decode(PLAIN, scancode, false) == (PLAIN, Do(Type(c))) && c != '\n' && c != '\0'
    ensures AtRow(Run(k, inputs + [Input(scancode, [])]), 34, text + [c])
  {
    RunSnoc(k, inputs, Input(scancode, []));
    TypeStep(Run(k, inputs), 34, text, scancode, c);
    hide Decode, Run, Handle, Rest;
  }

  lemma TypeRead(k: Kernel, inputs: seq<Input>)
    requires Inv(k) && AtRow(Run(k, inputs), 34, [])
    ensures AtRow(Run(k, inputs + TYPE_READ), 34, "read")
  {
    hide AtRow, Run, Inv;
    ReadKeys();
    hide Decode;
    assert [] + ['r'] == "r" && "r" + ['e'] == "re" && "re" + ['a'] == "rea" && "rea" + ['d'] == "read";
    TypeMore(k, inputs, [], 0x13, 'r');
    var i1 := inputs + [Input(0x13, [])];
    TypeMore(k, i1, "r", 0x12, 'e');
    var i2 := i1 + [Input(0x12, [])];
    TypeMore(k, i2, "re", 0x1E, 'a');
    var i3 := i2 + [Input(0x1E, [])];
    TypeMore(k, i3, "rea", 0x20, 'd');
    assert i3 + [Input(0x20, [])] == inputs + TYPE_READ;
  }

  lemma ReadIsACommand()
    ensures Lookup("read", 0) == Some(7)
  {
  }

  lemma ReadArms(k: Kernel)
    requires AtRow(k, 34, "read")
    ensures Shifts(k.Current()) && Inv(k)
    ensures Handle(k, KEY_ENTER, []).shell.reading && !Handle(k, KEY_ENTER, []).shell.stopped
  {
    SpecialKeysHaveNoChar(k.keys, KEY_ENTER);
    ReadIsACommand();
    assert Resting(k.H, k.Current(), false);
    FoundIs(k, "read", []);
    CursorInside(k);
    hide Rest, Resting, ShellExecute, BeginOutput, EndOutput, Lookup, CharOf;
  }

  /**
   It happens: on the 35 rows of the source, Enter pressed until the prompt is on the last row,
   then "read" entered, leaves a display that is wrong. It stays so until a key redraws it
   (Console.HandleInput).
   */
  lemma PictureCanBeWrong()
    ensures Inv(BootKernel(35))
    ensures
      var k := Run(BootKernel(35), Enters(34) + TYPE_READ);
      var r := Run(BootKernel(35), Enters(34) + TYPE_READ + Enters(1));
      && k.Current().drawn && k.Current().text == "read"
      && r.shell.reading && !r.shell.stopped
      && !r.Current().drawn && !LooksSame(k.Current())
  {
    hide Rest, Handle, LooksSame, Shifts, Run, Inv, AtRow, BootKernel;
    var boot, inputs := BootKernel(35), Enters(34) + TYPE_READ;
    BootAtRow();
    EnterSteps(boot, 0, 34);
    TypeRead(boot, Enters(34));
    ReadArms(Run(boot, inputs));
    AtRowRead(Run(boot, inputs));
    EnterArms(Run(boot, inputs), KEY_ENTER, []);
    RunSnoc(boot, inputs, Input(KEY_ENTER, []));
    assert Enters(1) == [Input(KEY_ENTER, [])];
  }

  lemma AtRowRead(k: Kernel)
    requires AtRow(k, 34, "read")
    ensures Inv(k) && !k.shell.stopped && !k.shell.reading && k.Current().drawn && k.Current().text == "read"
  {
    CursorInside(k);
  }
}
