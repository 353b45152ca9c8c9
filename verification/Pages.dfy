/** What a line given to the shell leaves on the page, and what each command does, by its name. */
module Pages {
  import opened Text
  import opened Tapes
  import opened Options
  import opened Document
  import opened Screens
  import opened Keyboard
  import opened Kernels
  import opened KernelRuns

  /** A page after the text was printed: a newline fills the row it ends. */
  function Printed(page: string, s: string): string
    decreases |s|
  {
    if s == [] then page
    else
      var last := |s| - 1;
      if s[last] == '\n' then FillRow(Printed(page, s[..last])) else Printed(page, s[..last]) + [s[last]]
  }

  /** Output ends at the end of a row. */
  function FullRows(page: string): string {
    if |page| % 80 == 0 then page else FillRow(page)
  }

  /** Text without newlines simply follows. */
  lemma {:induction false} PrintedPlain(page: string, s: string)
    requires '\n' !in s
    ensures Printed(page, s) == page + s
    decreases |s|
  {
    if s != [] {
      var last := |s| - 1;
      PrintedPlain(page, s[..last]);
      assert s == s[..last] + [s[last]];
    }
  }

  /** A newline after some text fills the row. */
  lemma PrintedLine(page: string, s: string)
    ensures Printed(page, s + "\n") == FillRow(Printed(page, s)) == FullRows(Printed(page, s + "\n"))
  {
    var t := s + "\n";
    assert t[..|s|] == s && t[|s|] == '\n';
    RowFull(Printed(page, s));
    hide Printed, FillRow;
    assert Printed(page, t) == FillRow(Printed(page, s)) by { LastPrinted(page, t); }
  }

  lemma LastPrinted(page: string, t: string)
    requires t != [] && t[|t| - 1] == '\n'
    ensures Printed(page, t) == FillRow(Printed(page, t[..|t| - 1]))
  {
  }

  lemma RowFull(page: string)
    ensures |FillRow(page)| % 80 == 0 && FullRows(FillRow(page)) == FillRow(page)
  {
  }

  lemma {:induction false} PrintedFirst(page: string, c: char, s: string)
    ensures Printed(page, [c] + s) == Printed(Printed(page, [c]), s)
    decreases |s|
  {
    var t := [c] + s;
    if s == [] {
      assert t == [c];
    } else {
      var last := |s| - 1;
      assert t[..|t| - 1] == [c] + s[..last];
      PrintedFirst(page, c, s[..last]);
    }
  }

  /** Printing a string, character by character, leaves that page. */
  lemma {:induction false} PutsPage(d: Doc, s: string)
    requires d.text == []
    ensures Puts(d, s).before == Printed(d.before, s) && Puts(d, s).text == []
    decreases |s|
  {
    hide Window.Reach, ShiftsUnseen;
    if s != [] {
      PutPage(d, s[0]);
      PutsPage(Put(d, s[0]), s[1..]);
      PrintedFirst(d.before, s[0], s[1..]);
      assert [s[0]] + s[1..] == s;
    }
  }

  lemma PutPage(d: Doc, c: char)
    requires d.text == []
    ensures Put(d, c).before == Printed(d.before, [c]) && Put(d, c).text == []
  {
    assert [c][..0] == [];
    assert Printed(d.before, []) == d.before;
  }

  lemma BeginPage(d: Doc)
    ensures BeginOutput(d).before == FillRow(d.Page()) && BeginOutput(d).text == []
  {
  }

  lemma EndPage(d: Doc, showPrompt: bool)
    ensures EndOutput(d, showPrompt).before == FullRows(d.before) + if showPrompt then "$ " else ""
  {
  }

  // ---- Lines that are not commands ----

  /** The line a read waited for is echoed in quotes. */
  lemma AnswerPage(k: Kernel, line: string, out: string)
    requires k.Shaped() && k.shell.reading
    ensures
      ShellExecute(k, line, out).Current().before ==
      FullRows(Printed(FillRow(k.Current().Page()), "read: \"" + line + "\"")) + "$ "
  {
    var d := k.Current();
    BeginPage(d);
    PutsPage(BeginOutput(d), AnswerText(line));
    EndPage(Puts(BeginOutput(d), AnswerText(line)), true);
    hide BeginOutput, EndOutput, Puts, Printed, FullRows;
  }

  /** A line that is no command's name is reported. */
  lemma UnknownPage(k: Kernel, line: string, out: string)
    requires k.Shaped() && !k.shell.reading && line !in COMMANDS && line != []
    ensures
      ShellExecute(k, line, out).Current().before ==
      FillRow(Printed(FillRow(k.Current().Page()), line + ": command not found")) + "$ "
  {
    var d := k.Current();
    var text := line + ": command not found";
    assert NotFoundText(line) == text + "\n";
    NoSuchCommand(line);
    BeginPage(d);
    PutsPage(BeginOutput(d), NotFoundText(line));
    EndPage(Puts(BeginOutput(d), NotFoundText(line)), true);
    PrintedLine(BeginOutput(d).before, text);
    hide BeginOutput, EndOutput, Puts, Printed, FullRows, FillRow, NotFoundText, Lookup;
  }

  /** An empty line only gives a new prompt. */
  lemma EmptyPage(k: Kernel, out: string)
    requires k.Shaped() && !k.shell.reading
    ensures ShellExecute(k, [], out).Current().before == FillRow(k.Current().Page()) + "$ "
  {
    var d := k.Current();
    NoSuchCommand([]);
    BeginPage(d);
    RowFull(d.Page());
    EndPage(BeginOutput(d), true);
    hide BeginOutput, EndOutput, FullRows, FillRow, Lookup;
  }

  lemma NoSuchCommand(line: string)
    ensures line !in COMMANDS ==> Lookup(line, 0).None?
    ensures [] !in COMMANDS
  {
  }

  // ---- Commands, by name ----

  /** What a line that names a command has done once its output ends. */
  lemma NamedPage(k: Kernel, command: nat, out: string)
    requires k.Shaped() && !k.shell.reading && command < |COMMANDS|
    ensures Lookup(COMMANDS[command], 0) == Some(command)
    ensures
      var r, c := ShellExecute(k, COMMANDS[command], out), Ran(k, COMMANDS[command], out);
      && r.Current().before ==
         (if c.shell.stopped then c.Current().before
          else FullRows(c.Current().before) + if c.shell.reading then "" else "$ ")
      && r.shell.stopped == c.shell.stopped && r.shell.reading == c.shell.reading && r.keys == c.keys
      && c == RunCommand(k.Logged(Command(COMMANDS[command])).Begin(), command, out)
  {
    NamesFindThemselves(command);
    FoundIs(k, COMMANDS[command], out);
    var c := Ran(k, COMMANDS[command], out);
    EndPage(c.Current(), !c.shell.reading);
    hide BeginOutput, EndOutput, FullRows, RunCommand, Lookup, ShellExecute;
  }

  /** Where a command's output starts. */
  lemma OutputStarts(k: Kernel, line: Line)
    requires k.Shaped()
    ensures
      var b := k.Logged(line).Begin();
      && b.Current().before == FillRow(k.Current().Page()) && b.Current().text == []
      && b.keys == k.keys && b.H == k.H && b.shell == k.shell.(log := b.shell.log)
  {
    BeginPage(k.Current());
    hide BeginOutput;
  }

  /** What printing does to a kernel in the middle of a command. */
  lemma PrintPage(b: Kernel, s: string)
    requires b.Shaped() && b.Current().text == []
    ensures
      var r := b.Print(s);
      r.Current().before == Printed(b.Current().before, s) && r.keys == b.keys && r.shell == b.shell
  {
    PutsPage(b.Current(), s);
    hide Puts, Printed;
  }

  /** "help", "pmultiboot" and "pstack" leave what they print, on rows of its own, and a prompt. */
  lemma FreeOutputPage(k: Kernel, line: string, out: string)
    requires k.Shaped() && !k.shell.reading && !k.shell.stopped
    requires line == "help" || line == "pmultiboot" || line == "pstack"
    ensures
      var r := ShellExecute(k, line, out);
      && r.Current().before == FullRows(Printed(FillRow(k.Current().Page()), out)) + "$ "
      && !r.shell.stopped && !r.shell.reading && r.keys == k.keys
  {
    var command := if line == "help" then 0 else if line == "pmultiboot" then 3 else 4;
    assert COMMANDS[0] == "help" && COMMANDS[3] == "pmultiboot" && COMMANDS[4] == "pstack";
    NamedPage(k, command, out);
    OutputStarts(k, Command(line));
    PrintPage(k.Logged(Command(line)).Begin(), out);
    hide FullRows, FillRow, Printed, BeginOutput, Puts, Lookup, ShellExecute;
  }

  /** "clear" leaves a page that holds the prompt alone, at the top of the buffer. */
  lemma ClearPage(k: Kernel, out: string)
    requires k.Shaped() && 25 <= k.H && !k.shell.reading && !k.shell.stopped
    ensures
      var r := ShellExecute(k, "clear", out);
      && r.Current().before == "$ " && r.Current().text == [] && r.Current().window == Window(k.H, 0, 0)
      && !r.shell.stopped && !r.shell.reading && r.keys == k.keys
  {
    assert COMMANDS[1] == "clear";
    NamedPage(k, 1, out);
    OutputStarts(k, Command("clear"));
    FoundIs(k, "clear", out);
    ClearedEnd(k.H);
    hide BeginOutput, EndOutput, Lookup, ShellExecute;
  }

  lemma ClearedEnd(H: nat)
    requires 25 <= H
    ensures EndOutput(Clear(H), true).before == "$ " && EndOutput(Clear(H), true).text == []
    ensures EndOutput(Clear(H), true).window == Window(H, 0, 0) && FullRows(Clear(H).before) + "$ " == "$ "
  {
    EndPage(Clear(H), true);
    assert FullRows([]) + "$ " == "$ ";
  }

  /** "azerty" and "qwerty" each choose the layout of that name, and print nothing. */
  lemma LayoutLine(k: Kernel, line: string, out: string)
    requires k.Shaped() && !k.shell.reading && !k.shell.stopped && (line == "azerty" || line == "qwerty")
    ensures
      var r := ShellExecute(k, line, out);
      && r.keys == k.keys.(layout := if line == "azerty" then Azerty else Qwerty)
      && r.Current().before == FillRow(k.Current().Page()) + "$ "
      && !r.shell.stopped && !r.shell.reading
  {
    hide BeginOutput, FullRows, FillRow, Lookup, ShellExecute;
    assert COMMANDS[8] == "azerty" && COMMANDS[9] == "qwerty";
    NamedPage(k, if line == "azerty" then 8 else 9, out);
    OutputStarts(k, Command(line));
    RowFull(k.Current().Page());
  }

  /** "read" arms a read and leaves a row without a prompt. */
  lemma ReadLine(k: Kernel, out: string)
    requires k.Shaped() && !k.shell.reading && !k.shell.stopped
    ensures
      var r := ShellExecute(k, "read", out);
      && r.shell.reading && !r.shell.stopped && r.keys == k.keys
      && r.Current().before == FillRow(k.Current().Page())
  {
    assert COMMANDS[7] == "read";
    NamedPage(k, 7, out);
    OutputStarts(k, Command("read"));
    RowFull(k.Current().Page());
    hide BeginOutput, FullRows, FillRow, Lookup, ShellExecute;
  }

  /** "halt" stops the machine after its message. */
  lemma HaltLine(k: Kernel, out: string)
    requires k.Shaped() && !k.shell.reading && !k.shell.stopped
    ensures
      var r := ShellExecute(k, "halt", out);
      && r.shell.stopped && !r.shell.reading && r.keys == k.keys
      && r.Current().before == FillRow(FillRow(k.Current().Page()) + "System halted.")
  {
    hide BeginOutput, Puts, FullRows, FillRow, Printed, Lookup, ShellExecute;
    assert COMMANDS[6] == "halt";
    NamedPage(k, 6, out);
    OutputStarts(k, Command("halt"));
    PrintPage(k.Logged(Command("halt")).Begin(), "System halted.\n");
    HaltMessage(FillRow(k.Current().Page()));
  }

  /** "reboot" stops it without one. */
  lemma RebootLine(k: Kernel, out: string)
    requires k.Shaped() && !k.shell.reading && !k.shell.stopped
    ensures
      var r := ShellExecute(k, "reboot", out);
      && r.shell.stopped && !r.shell.reading && r.keys == k.keys
      && r.Current().before == FillRow(k.Current().Page())
  {
    hide BeginOutput, Puts, FullRows, FillRow, Printed, Lookup, ShellExecute;
    assert COMMANDS[5] == "reboot";
    NamedPage(k, 5, out);
    OutputStarts(k, Command("reboot"));
    PrintPage(k.Logged(Command("reboot")).Begin(), "");
    HaltMessage(FillRow(k.Current().Page()));
  }

  lemma HaltMessage(page: string)
    ensures Printed(page, "System halted.\n") == FillRow(page + "System halted.") && Printed(page, "") == page
  {
    var s := "System halted.";
    assert s + "\n" == "System halted.\n";
    PrintedLine(page, s);
    PrintedPlain(page, s);
    hide FillRow;
  }

  /** "last" with nothing to repeat says so. */
  lemma NoLastPage(k: Kernel, out: string)
    requires k.Shaped() && !k.shell.reading && !k.shell.stopped && k.shell.last.None?
    ensures
      var r := ShellExecute(k, "last", out);
      && r.Current().before == FillRow(FillRow(k.Current().Page()) + "No last command executed.") + "$ "
      && !r.shell.stopped && !r.shell.reading && r.keys == k.keys
  {
    hide BeginOutput, Puts, FullRows, FillRow, Printed, Lookup, ShellExecute;
    assert COMMANDS[2] == "last";
    NamedPage(k, 2, out);
    OutputStarts(k, Command("last"));
    PrintPage(k.Logged(Command("last")).Begin(), "No last command executed.\n");
    NoLastMessage(FillRow(k.Current().Page()));
  }

  lemma NoLastMessage(page: string)
    ensures
      var p := Printed(page, "No last command executed.\n");
      p == FillRow(page + "No last command executed.") == FullRows(p)
  {
    var s := "No last command executed.";
    assert s + "\n" == "No last command executed.\n";
    PrintedLine(page, s);
    PrintedPlain(page, s);
    hide FillRow;
  }

  /**
   By name, for every line but "last": which stop the machine, which arm a read, and which
   layout is left.
   */
  lemma LineEffects(k: Kernel, line: string, out: string)
    requires k.Shaped() && 25 <= k.H && !k.shell.reading && !k.shell.stopped && line != "last"
    ensures
      var r := ShellExecute(k, line, out);
      && (r.shell.stopped <==> line == "halt" || line == "reboot")
      && (r.shell.reading <==> line == "read")
      && r.keys == k.keys.(layout :=
           if line == "azerty" then Azerty else if line == "qwerty" then Qwerty else k.keys.layout)
  {
    hide ShellExecute;
    if line == "halt" || line == "reboot" {
      HaltLine(k, out);
      RebootLine(k, out);
    } else if line == "read" {
      ReadLine(k, out);
    } else if line == "azerty" || line == "qwerty" {
      LayoutLine(k, line, out);
    } else if line == "clear" {
      ClearPage(k, out);
    } else if line == "help" || line == "pmultiboot" || line == "pstack" {
      FreeOutputPage(k, line, out);
    } else {
      NotACommand(line);
      UnknownEffects(k, line, out);
    }
  }

  lemma NotACommand(line: string)
    requires line !in {"help", "clear", "last", "pmultiboot", "pstack", "reboot", "halt", "read", "azerty", "qwerty"}
    ensures line !in COMMANDS
  {
  }

  lemma UnknownEffects(k: Kernel, line: string, out: string)
    requires k.Shaped() && !k.shell.reading && line !in COMMANDS
    ensures
      var r := ShellExecute(k, line, out);
      r.keys == k.keys && !r.shell.reading && r.shell.stopped == k.shell.stopped
  {
    NoSuchCommand(line);
    hide BeginOutput, EndOutput, Puts, NotFoundText, Lookup;
  }

  /** The answer to a read is no command, whatever it says. */
  lemma AnswerEffects(k: Kernel, line: string, out: string)
    requires k.Shaped() && k.shell.reading
    ensures
      var r := ShellExecute(k, line, out);
      r.keys == k.keys && !r.shell.reading && r.shell.stopped == k.shell.stopped && r.shell.last == k.shell.last
  {
    hide BeginOutput, EndOutput, Puts, AnswerText;
  }
}
