/**
 The whole of it as a user sees it: ten line editors and a shell, with no page, window,
 prompt or display. Every run of the kernel is a run of this machine.
 */
module EndToEnd {
  import opened Document
  import opened Editing
  import opened Screens
  import opened Keyboard
  import opened Kernels
  import opened KernelRuns

  datatype Simple = Simple(editors: seq<Editor>, index: nat, keys: Keys, shell: Shell) {
    predicate Ok() {
      |editors| == SCREEN_COUNT && index < SCREEN_COUNT && shell.Ok()
    }
  }

  function SimpleCommand(s: Simple, command: nat): (r: Simple)
    requires s.Ok() && command < |COMMANDS|
    ensures r.Ok() && r.editors == s.editors && r.index == s.index
    decreases if command == LAST then 1 else 0
  {
    match EffectOf(command)
    case Prints => s
    case Clears => s
    case Repeats => if s.shell.last.Some? then SimpleCommand(s, s.shell.last.value) else s
    case Stops(_) => s.(shell := s.shell.(stopped := true))
    case Arms => s.(shell := s.shell.(reading := true))
    case Uses(layout) => s.(keys := s.keys.(layout := layout))
  }

  /** The line of the current editor goes to the shell, and the editor is empty again. */
  function SimpleEnter(s: Simple): (r: Simple)
    requires s.Ok()
    ensures r.Ok()
  {
    var line := s.editors[s.index].Line();
    var e := s.(editors := s.editors[s.index := EMPTY]);
    if s.shell.reading then
      e.(shell := e.shell.(log := e.shell.log + [Answer(line)], reading := false))
    else
      var l := e.(shell := e.shell.(log := e.shell.log + [Command(line)]));
      var command := Lookup(line, 0);
      if command.None? then l
      else
        var r := SimpleCommand(l, command.value);
        if r.shell.stopped || command.value == LAST then r
        else r.(shell := r.shell.(last := command))
  }

  function SimpleHandle(s: Simple, scancode: nat): (r: Simple)
    requires s.Ok()
    ensures r.Ok()
  {
    if s.shell.stopped then s
    else
      var (keys, action) := Decode(s.keys, scancode, s.shell.reading);
      var n := s.(keys := keys);
      match action
      case Nothing => n
      case Show(screen) => if screen < SCREEN_COUNT then n.(index := screen) else n
      case Do(edit) => n.(editors := n.editors[n.index := Apply(n.editors[n.index], edit)])
      case Enter => SimpleEnter(n)
  }

  // ---- The kernel is this machine ----

  function EditorAt(t: Term, i: nat): Editor
    requires i < |t.docs|
  {
    if t.docs[i].None? || t.docs[i].value.cursor > |t.docs[i].value.text| then EMPTY
    else EditorOf(t.docs[i].value)
  }

  function SimpleOf(k: Kernel): (s: Simple)
    requires k.Shaped()
    ensures s.Ok()
  {
    Simple(seq(SCREEN_COUNT, i requires 0 <= i < SCREEN_COUNT => EditorAt(k.term, i)), k.term.index, k.keys, k.shell)
  }

  /** Replacing the current screen replaces the current editor. */
  lemma SimpleOfWith(k: Kernel, d: Doc)
    requires k.Shaped() && d.cursor <= |d.text|
    ensures SimpleOf(k.With(d)) == SimpleOf(k).(editors := SimpleOf(k).editors[k.term.index := EditorOf(d)])
  {
    var a, b := SimpleOf(k.With(d)).editors, SimpleOf(k).editors[k.term.index := EditorOf(d)];
    forall i | 0 <= i < SCREEN_COUNT
      ensures a[i] == b[i]
    {
    }
    assert a == b;
  }

  lemma CommandSimulates(k: Kernel, command: nat, out: string)
    requires k.Shaped() && command < |COMMANDS|
    ensures
      var r, s := RunCommand(k, command, out), SimpleCommand(SimpleOf(k), command);
      r.shell == s.shell && r.keys == s.keys && r.term.index == k.term.index
    decreases if command == LAST then 1 else 0
  {
    if EffectOf(command) == Repeats && k.shell.last.Some? {
      CommandSimulates(k, k.shell.last.value, out);
    }
  }

  /** The shell's own state after a line does not depend on what was printed. */
  lemma ShellSimulates(k: Kernel, line: string, out: string)
    requires k.Shaped()
    requires SimpleOf(k).editors[k.term.index].Line() == line
    ensures
      var r, s := ShellExecute(k, line, out), SimpleEnter(SimpleOf(k));
      r.shell == s.shell && r.keys == s.keys && s.index == k.term.index
    ensures SimpleEnter(SimpleOf(k)).editors == SimpleOf(k).editors[k.term.index := EMPTY]
  {
    var command := Lookup(line, 0);
    if !k.shell.reading && command.Some? {
      var b := k.Logged(Command(line)).Begin();
      var l := SimpleOf(k).(editors := SimpleOf(k).editors[k.term.index := EMPTY],
                            shell := b.shell);
      CommandSimulates(b, command.value, out);
      SimpleCommandShell(SimpleOf(b), l, command.value);
    }
    hide RunCommand, SimpleCommand, Lookup;
  }

  /** A command's effect on the shell and the layout depends on nothing else. */
  lemma SimpleCommandShell(s: Simple, t: Simple, command: nat)
    requires s.Ok() && t.Ok() && command < |COMMANDS| && s.shell == t.shell && s.keys == t.keys
    ensures
      var q, r := SimpleCommand(s, command), SimpleCommand(t, command);
      q.shell == r.shell && q.keys == r.keys
    decreases if command == LAST then 1 else 0
  {
    if EffectOf(command) == Repeats && s.shell.last.Some? {
      SimpleCommandShell(s, t, s.shell.last.value);
    }
  }

  lemma EnterSimulates(k: Kernel, out: string)
    requires Rest(k) && !k.shell.stopped
    ensures SimpleOf(ShellExecute(k, k.Current().text, out)) == SimpleEnter(SimpleOf(k))
  {
    var d := k.Current();
    assert Resting(k.H, d, k.shell.reading);
    assert EditorOf(d).Line() == d.text;
    var r := ShellExecute(k, d.text, out);
    ShellKeeps(k, d.text, out);
    ShellSimulates(k, d.text, out);
    SimpleOfWith(k, r.Current());
    assert SimpleOf(r).editors == SimpleOf(k.With(r.Current())).editors;
    hide ShellExecute, SimpleEnter;
  }

  lemma ShowSimulates(k: Kernel, screen: nat)
    requires Rest(k) && screen < SCREEN_COUNT
    ensures SimpleOf(k.(term := k.term.Switch(k.H, screen))) == SimpleOf(k).(index := screen)
  {
    FreshOk(k.H);
    var r := k.(term := k.term.Switch(k.H, screen));
    hide Fresh;
    forall i | 0 <= i < SCREEN_COUNT
      ensures EditorAt(r.term, i) == EditorAt(k.term, i)
    {
    }
    assert SimpleOf(r).editors == SimpleOf(k).editors;
  }

  lemma EditSimulates(k: Kernel, edit: Edit)
    requires Rest(k) && Typable(edit)
    ensures
      var s := SimpleOf(k);
      SimpleOf(k.With(DocApply(k.Current(), edit))) ==
        s.(editors := s.editors[s.index := Apply(s.editors[s.index], edit)])
  {
    var d := k.Current();
    assert Resting(k.H, d, k.shell.reading);
    ApplyRefines(d, edit);
    SimpleOfWith(k, DocApply(d, edit));
  }

  lemma HandleSimulates(k: Kernel, scancode: nat, out: string)
    requires Inv(k)
    ensures SimpleOf(Handle(k, scancode, out)) == SimpleHandle(SimpleOf(k), scancode)
  {
    if !k.shell.stopped {
      var (keys, action) := Decode(k.keys, scancode, k.shell.reading);
      var n := k.(keys := keys);
      DecodeSound(k.keys, scancode, k.shell.reading);
      assert SimpleOf(n) == SimpleOf(k).(keys := keys);
      assert Rest(n);
      assert Resting(k.H, n.Current(), k.shell.reading);
      hide Decode, Rest, DocApply, ShellExecute, SimpleOf;
      match action
      case Nothing =>
      case Show(screen) => ShowSimulates(n, screen);
      case Do(edit) => EditSimulates(n, edit);
      case Enter => EnterSimulates(n, out);
    }
  }

  function SimpleRun(s: Simple, scancodes: seq<nat>): Simple
    requires s.Ok()
    decreases |scancodes|
  {
    if scancodes == [] then s else SimpleRun(SimpleHandle(s, scancodes[0]), scancodes[1..])
  }

  function Scancodes(inputs: seq<Input>): (s: seq<nat>)
    ensures |s| == |inputs|
  {
    if inputs == [] then [] else [inputs[0].scancode] + Scancodes(inputs[1..])
  }

  /**
   End to end: for every run of scancodes, whatever the commands print and however the screens
   wrap, scroll and drop rows, every line handed to the shell is the text of the simple editor
   of the displayed screen, and the kernel stays this machine.
   */
  lemma {:induction false} KernelIsSimple(k: Kernel, inputs: seq<Input>)
    requires Inv(k)
    ensures SimpleOf(Run(k, inputs)) == SimpleRun(SimpleOf(k), Scancodes(inputs))
    decreases |inputs|
  {
    if inputs != [] {
      var x := inputs[0];
      HandleKeeps(k, x.scancode, x.out);
      HandleSimulates(k, x.scancode, x.out);
      KernelIsSimple(Handle(k, x.scancode, x.out), inputs[1..]);
      assert Scancodes(inputs)[1..] == Scancodes(inputs[1..]);
    }
  }

  /** So what is executed never depends on what was printed. */
  lemma OutputsDoNotMatter(k: Kernel, inputs: seq<Input>, others: seq<Input>)
    requires Inv(k) && Scancodes(inputs) == Scancodes(others)
    ensures Run(k, inputs).shell == Run(k, others).shell
    ensures Run(k, inputs).term.index == Run(k, others).term.index
  {
    KernelIsSimple(k, inputs);
    KernelIsSimple(k, others);
  }
}
