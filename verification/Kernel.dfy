/** What a handled scancode does to the screens, the keyboard and the shell. */
module Kernels {
  import opened Options
  import opened Document
  import opened Editing
  import opened Screens
  import opened Keyboard

  const COMMANDS: seq<string> :=
    ["help", "clear", "last", "pmultiboot", "pstack", "reboot", "halt", "read", "azerty", "qwerty"]

  const LAST: nat := 2

  datatype Effect = Prints | Clears | Repeats | Stops(message: string) | Arms | Uses(layout: Layout)

  function EffectOf(command: nat): Effect
    requires command < |COMMANDS|
  {
    if command == 1 then Clears
    else if command == LAST then Repeats
    else if command == 5 then Stops("")
    else if command == 6 then Stops("System halted.\n")
    else if command == 7 then Arms
    else if command == 8 then Uses(Azerty)
    else if command == 9 then Uses(Qwerty)
    else Prints
  }

  /** The first command of that name, from the one numbered i on. */
  function Lookup(name: string, i: nat): (r: Option<nat>)
    requires i <= |COMMANDS|
    ensures r.Some? ==> i <= r.value < |COMMANDS| && COMMANDS[r.value] == name
    ensures r.Some? ==> forall j | i <= j < r.value :: COMMANDS[j] != name
    ensures r.None? ==> forall j | i <= j < |COMMANDS| :: COMMANDS[j] != name
    decreases |COMMANDS| - i
  {
    if i == |COMMANDS| then None
    else if name == COMMANDS[i] then Some(i)
    else Lookup(name, i + 1)
  }

  /** A line handed to the shell: a command, or the answer to a read. */
  datatype Line = Command(text: string) | Answer(text: string)

  datatype Shell = Shell(last: Option<nat>, reading: bool, stopped: bool, log: seq<Line>) {

    predicate Ok() {
      last.Some? ==> last.value < |COMMANDS| && last.value != LAST
    }
  }

  datatype Kernel = Kernel(H: nat, term: Term, keys: Keys, shell: Shell) {

    predicate Shaped() {
      term.Shaped() && shell.Ok()
    }

    function Current(): Doc
      requires Shaped()
    {
      term.Current()
    }

    function With(d: Doc): (k: Kernel)
      requires Shaped()
      ensures k.Shaped() && k.Current() == d
    {
      this.(term := term.With(d))
    }

    function Print(s: string): (k: Kernel)
      requires Shaped()
      ensures k.Shaped()
    {
      With(Puts(Current(), s))
    }

    function Begin(): (k: Kernel)
      requires Shaped()
      ensures k.Shaped()
    {
      With(BeginOutput(Current()))
    }

    function End(showPrompt: bool): (k: Kernel)
      requires Shaped()
      ensures k.Shaped()
    {
      With(EndOutput(Current(), showPrompt))
    }

    function Logged(line: Line): Kernel {
      this.(shell := shell.(log := shell.log + [line]))
    }

    function Reading(reading: bool): Kernel {
      this.(shell := shell.(reading := reading))
    }

    function Recorded(command: nat): Kernel {
      if command == LAST then this else this.(shell := shell.(last := Some(command)))
    }
  }

  // ---- Commands ----

  /** Runs a command; out is what it prints when its output is not fixed. */
  function RunCommand(k: Kernel, command: nat, out: string): (r: Kernel)
    requires k.Shaped() && command < |COMMANDS|
    ensures r.Shaped()
    decreases if command == LAST then 1 else 0
  {
    match EffectOf(command)
    case Prints => k.Print(out)
    case Clears => k.With(Clear(k.H))
    case Repeats =>
      if k.shell.last.Some? then RunCommand(k, k.shell.last.value, out)
      else k.Print("No last command executed.\n")
    case Stops(message) =>
      var r := k.Print(message);
      r.(shell := r.shell.(stopped := true))
    case Arms => k.Reading(true)
    case Uses(layout) => k.(keys := k.keys.(layout := layout))
  }

  function AnswerText(line: string): string {
    "read: \"" + line + "\""
  }

  function NotFoundText(line: string): string {
    line + ": command not found\n"
  }

  /** A line for the shell: the answer to a read, a command, or neither. */
  function ShellExecute(k: Kernel, line: string, out: string): (r: Kernel)
    requires k.Shaped()
    ensures r.Shaped()
  {
    if k.shell.reading then
      k.Logged(Answer(line)).Begin().Print(AnswerText(line)).End(true).Reading(false)
    else
      var b := k.Logged(Command(line)).Begin();
      var command := Lookup(line, 0);
      if command.None? then
        (if line == [] then b else b.Print(NotFoundText(line))).End(true)
      else
        var r := RunCommand(b, command.value, out);
        if r.shell.stopped then r
        else r.Recorded(command.value).End(!r.shell.reading)
  }

  // ---- Keys ----

  /** One handled scancode. Nothing happens any more once the machine was halted or rebooted. */
  function Handle(k: Kernel, scancode: nat, out: string): (r: Kernel)
    requires k.Shaped() && k.Current().cursor <= |k.Current().text|
    ensures r.Shaped()
  {
    if k.shell.stopped then k
    else
      var (keys, action) := Decode(k.keys, scancode, k.shell.reading);
      var n := k.(keys := keys);
      match action
      case Nothing => n
      case Show(screen) => n.(term := n.term.Switch(n.H, screen))
      case Do(edit) => n.With(DocApply(n.Current(), edit))
      case Enter => if n.Current().editing then ShellExecute(n, n.Current().text, out) else n
  }

  // ---- The state between two keys ----

  /** The prompt occupies the two cells before the input. */
  predicate Prompted(d: Doc) {
    2 <= d.Start() && d.before[d.Start() - 2..] == "$ " && d.Start() % 80 == 2
  }

  /** A screen waiting for keys; armed says whether it waits for the line of a read. */
  predicate Resting(H: nat, d: Doc, armed: bool) {
    && Editable(d) && d.window.H == H
    && '\0' !in d.text
    && (if armed then d.Start() % 80 == 0 else Prompted(d))
  }

  /**
   What a newline leaves that shifted the rows without redrawing them: nothing was typed since,
   and the view is still at the end of a buffer whose last row holds the cursor.
   */
  predicate Behind(d: Doc) {
    && d.text == []
    && d.window.Row(d.Start()) == d.window.H - 1
    && d.window.scroll + 25 == d.window.H
    && 0 < d.window.dropped
  }

  /** The display shows the current screen, unless it fell behind when a read was armed. */
  predicate Rest(k: Kernel) {
    && k.Shaped()
    && 25 <= k.H <= 256
    && (forall i | 0 <= i < SCREEN_COUNT && k.term.docs[i].Some? ::
          Resting(k.H, k.term.docs[i].value, k.shell.reading && i == k.term.index))
    && k.Current().placed
    && (k.Current().drawn || (k.shell.reading && Behind(k.Current())))
  }

  /** Rest, unless the machine was stopped. */
  predicate Inv(k: Kernel) {
    k.Shaped() && k.Current().cursor <= |k.Current().text| && (k.shell.stopped || Rest(k))
  }

  function BootKernel(H: nat): Kernel {
    Kernel(H, BootTerm(H), Keys(false, false, false, false, Qwerty), Shell(None, false, false, []))
  }
}
