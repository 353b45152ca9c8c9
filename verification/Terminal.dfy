/** The terminal: ten screens sharing one display, each function acting on the current one. */
module Terminals {
  import opened Document
  import opened Vga
  import opened ScreenBuffer
  import opened Screens
  import opened Options

  /** The screen has the colors of an attribute byte: background above, foreground below. */
  predicate Colored(screen: Screen, attribute: nat) {
    screen.bg * 16 + screen.fg == attribute && screen.fg < 16 && screen.bg < 16
  }

  /** Ten screens in their colors, none of them set up. */
  method MakeScreens(H: nat, display: Display) returns (made: seq<Screen>)
    requires 25 <= H <= 256 && display.cells.Length == 256 * 80
    ensures |made| == SCREEN_COUNT
    ensures forall i | 0 <= i < |made| ::
      && fresh(made[i]) && fresh(made[i].data)
      && made[i].vga == display && made[i].H == H && made[i].Shape() && !made[i].initialized
    ensures forall i, j | 0 <= i < j < |made| :: made[i] != made[j] && made[i].data != made[j].data
    ensures forall i | 0 <= i < |made| :: Colored(made[i], SCREEN_COLORS[i])
  {
    made := [];
    for i := 0 to SCREEN_COUNT
      invariant |made| == i
      invariant forall j | 0 <= j < i ::
        && fresh(made[j]) && fresh(made[j].data)
        && made[j].vga == display && made[j].H == H && made[j].Shape() && !made[j].initialized
      invariant forall j, k | 0 <= j < k < i :: made[j] != made[k] && made[j].data != made[k].data
      invariant forall j | 0 <= j < i :: Colored(made[j], SCREEN_COLORS[j])
    {
      var screen := new Screen(H, SCREEN_COLORS[i] % 16, SCREEN_COLORS[i] / 16, display);
      made := made + [screen];
    }
  }

  class Terminal {
    const H: nat
    const screens: seq<Screen>
    const vga: Display
    var index: nat

    ghost var model: Term

    constructor (H: nat)
      requires 25 <= H <= 256
      ensures Valid() && this.H == H
      ensures model == BootTerm(H)
      ensures fresh(vga) && fresh(vga.cells)
      ensures forall s | s in screens :: fresh(s) && fresh(s.data)
      ensures forall i | 0 <= i < |screens| :: Colored(screens[i], SCREEN_COLORS[i])
    {
      this.H := H;
      var display := new Display();
      var made := MakeScreens(H, display);
      screens, vga, index := made, display, 0;
      model := BootTerm(H);
      new;
      ShowFirst();
    }

    // ---- What the fields mean ----

    /** The screens are ten objects with a buffer each, all drawing on the one display. */
    ghost predicate Separate() {
      && |screens| == SCREEN_COUNT
      && (forall i | 0 <= i < |screens| ::
            screens[i].vga == vga && screens[i].H == H && screens[i].Shape())
      && (forall i, j | 0 <= i < j < |screens| ::
            screens[i] != screens[j] && screens[i].data != screens[j].data)
    }

    ghost function Buffers(): set<object> {
      set s | s in screens :: s.data
    }

    /** Screen i is set up exactly when d is there, and then d is what it stands for. */
    ghost predicate Holds(i: nat, d: Option<Doc>)
      requires i < |screens|
      reads screens[i], screens[i].data
    {
      if screens[i].initialized then screens[i].Sound() && d == Some(screens[i].Abs()) else d.None?
    }

    ghost predicate Valid()
      reads this, screens, Buffers(), vga, vga.cells
    {
      && Separate()
      && |model.docs| == SCREEN_COUNT
      && index == model.index < SCREEN_COUNT
      && (forall i | 0 <= i < |screens| :: Holds(i, model.docs[i]))
      && screens[index].initialized
      && screens[index].Shown()
    }

    /** Whether the display shows the view of the current screen, cell by cell. */
    ghost predicate Pictured()
      reads this, screens, Buffers(), vga, vga.cells
    {
      Separate() && index < SCREEN_COUNT && screens[index].Mirrored()
    }

    /** The screen and the display as they are when a screen first gets its prompt. */
    method SetUp(i: nat)
      requires Separate() && i < SCREEN_COUNT && 25 <= H <= 256
      modifies screens[i], screens[i].data, vga, vga.cells
      ensures Holds(i, Some(Fresh(H))) && screens[i].initialized && screens[i].Valid()
    {
      hide Screen.Valid, Screen.Sound, Screen.Shown, Screen.Abs;
      screens[i].Clear();
      screens[i].PutPrompt();
      screens[i].MarkInitialized();
    }

    /** Only the first screen is set up at boot. */
    method ShowFirst()
      requires Separate() && 25 <= H <= 256 && index == 0 && model == BootTerm(H)
      requires forall i | 0 < i < |screens| :: !screens[i].initialized
      modifies screens[0], screens[0].data, vga, vga.cells
      ensures Valid()
    {
      SetUp(0);
      assert screens[0].Shown();
      hide Screen.Valid, Screen.Sound, Screen.Shown, Fresh;
    }

    lemma ModelOk()
      requires Valid()
      ensures model.Ok() && screens[index].Valid() && screens[index].Abs() == model.Current()
      ensures model.Current().text == [] ==> screens[index].start == |screens[index].page|
    {
      assert Holds(index, model.docs[index]);
      forall i | 0 <= i < SCREEN_COUNT && model.docs[i].Some?
        ensures DocOk(model.docs[i].value)
      {
        assert Holds(i, model.docs[i]);
      }
    }

    /** The screens but the current one are as the model has them. */
    ghost predicate OthersHeld()
      reads this, screens, Buffers()
    {
      && Separate()
      && |model.docs| == SCREEN_COUNT
      && index == model.index < SCREEN_COUNT
      && forall i | 0 <= i < |screens| && i != index :: Holds(i, model.docs[i])
    }

    /** The model takes the current screen as it is now. */
    ghost method Record()
      requires OthersHeld() && screens[index].initialized && screens[index].Valid()
      modifies this`model
      ensures Valid() && screens[index].start <= |screens[index].page|
      ensures model == Term(old(model).docs[index := Some(screens[index].Abs())], old(model).index)
    {
      assert screens[index].Sound() && screens[index].Shown() && screens[index].start <= |screens[index].page|;
      hide Screen.Sound, Screen.Shown, Screen.Abs;
      model := Term(model.docs[index := Some(screens[index].Abs())], model.index);
    }

    lemma DrawnIsPictured()
      requires Valid() && model.Shaped()
      ensures model.Current().drawn ==> Pictured()
    {
      assert Holds(index, model.docs[index]);
    }

    /** What the fields of the current screen say of its document. */
    lemma CurrentFields()
      requires Valid() && model.Shaped()
      ensures model.Current().editing && model.Current().text == [] ==> screens[index].inputSize == 0
      ensures model.Current().window.scroll == screens[index].scroll
    {
      assert Holds(index, model.docs[index]);
    }

    lemma FirstColumn()
      requires Valid() && model.Shaped() && model.Current().text == []
      ensures AtRowStart(model.Current()) ==> screens[index].cx == 0
    {
      assert Holds(index, model.docs[index]);
      assert DocOk(screens[index].Abs());
    }

    // ---- Input ----

    method PutcInput(c: char)
      requires Valid() && c != '\n'
      requires model.Ok() && (model.Current().editing ==> Editable(model.Current()))
      modifies this`model, screens[index], screens[index].data, vga, vga.cells
      ensures Valid()
      ensures model == old(model).With(Insert(old(model).Current(), c))
    {
      ModelOk();
      hide Screen.Sound, Screen.Shown, Screen.Valid, Screen.Abs;
      screens[index].PutcInput(c);
      Record();
    }

    method DelInput(count: nat)
      requires Valid()
      requires model.Ok() && (model.Current().editing ==> Editable(model.Current()))
      modifies this`model, screens[index], screens[index].data, vga, vga.cells
      ensures Valid()
      ensures model == old(model).With(Backspace(old(model).Current(), count))
      ensures StandsStill(old(model).Current(), model.Current()) ==> (Pictured() <==> old(Pictured()))
    {
      ModelOk();
      CurrentFields();
      hide Screen.Sound, Screen.Shown, Screen.Valid, Screen.Abs, Screen.Mirrored;
      screens[index].DelInput(count);
      Record();
      CurrentFields();
    }

    method DelInputForward(count: nat)
      requires Valid()
      requires model.Ok() && (model.Current().editing ==> Editable(model.Current()))
      modifies this`model, screens[index], screens[index].data, vga, vga.cells
      ensures Valid()
      ensures model == old(model).With(Delete(old(model).Current(), count))
      ensures StandsStill(old(model).Current(), model.Current()) ==> (Pictured() <==> old(Pictured()))
    {
      ModelOk();
      CurrentFields();
      hide Screen.Sound, Screen.Shown, Screen.Valid, Screen.Abs, Screen.Mirrored;
      screens[index].DelInputForward(count);
      Record();
      CurrentFields();
    }

    method Move(direction: Direction)
      requires Valid()
      requires model.Ok() && (model.Current().editing ==> Editable(model.Current()))
      modifies this`model, screens[index], screens[index].data, vga, vga.cells
      ensures Valid()
      ensures model == old(model).With(Document.Move(old(model).Current(), direction))
      ensures StandsStill(old(model).Current(), model.Current()) ==> (Pictured() <==> old(Pictured()))
    {
      ModelOk();
      CurrentFields();
      hide Screen.Sound, Screen.Shown, Screen.Valid, Screen.Abs, Screen.Mirrored;
      screens[index].Move(direction);
      Record();
      CurrentFields();
    }

    method GetInput(buffer: array<char>, bufferSize: nat) returns (ok: bool)
      requires Valid() && model.Ok()
      requires forall i | 0 <= i < |screens| :: buffer as object != screens[i].data
      requires bufferSize <= buffer.Length && bufferSize < 0x1_0000_0000
      modifies buffer
      ensures Valid() && model == old(model)
      ensures ok == (model.Current().editing && |model.Current().text| < bufferSize < 0x8000_0000)
      ensures ok ==>
        var text := model.Current().text;
        && buffer[..|text|] == text
        && buffer[|text|] == '\0'
        && buffer[|text| + 1..] == old(buffer[|text| + 1..])
      ensures !ok ==> buffer[..] == old(buffer[..])
    {
      ModelOk();
      hide Screen.Sound, Screen.Shown, Screen.Valid, Screen.Abs;
      ok := screens[index].GetInput(buffer, bufferSize);
    }

    // ---- Output ----

    method PutcOutput(c: char)
      requires Valid()
      requires model.Ok() && model.Current().text == []
      modifies this`model, screens[index], screens[index].data, vga, vga.cells
      ensures Valid()
      ensures model == old(model).With(Put(old(model).Current(), c))
    {
      ModelOk();
      hide Screen.Sound, Screen.Shown, Screen.Valid, Screen.Abs;
      screens[index].PutcOutput(c);
      Record();
    }

    method PutsOutput(message: string)
      requires Valid()
      requires model.Ok() && model.Current().text == []
      modifies this`model, screens[index], screens[index].data, vga, vga.cells
      ensures Valid()
      ensures model == old(model).With(Puts(old(model).Current(), message))
    {
      ModelOk();
      hide Screen.Sound, Screen.Shown, Screen.Valid, Screen.Abs;
      screens[index].PutsOutput(message);
      Record();
    }

    method BeginOutput()
      requires Valid()
      requires model.Ok()
      modifies this`model, screens[index], screens[index].data, vga, vga.cells
      ensures Valid()
      ensures model == old(model).With(Document.BeginOutput(old(model).Current()))
      ensures old(model).Current().drawn && Shifts(old(model).Current()) ==>
        (Pictured() <==> LooksSame(old(model).Current()))
    {
      ModelOk();
      hide Screen.Sound, Screen.Shown, Screen.Valid, Screen.Abs, Screen.Mirrored, Shifts, LooksSame;
      screens[index].BeginOutput();
      Record();
    }

    method EndOutput(showPrompt: bool)
      requires Valid()
      requires model.Ok() && model.Current().text == []
      modifies this`model, screens[index], screens[index].data, vga, vga.cells
      ensures Valid()
      ensures model == old(model).With(Document.EndOutput(old(model).Current(), showPrompt))
      ensures !showPrompt && AtRowStart(old(model).Current()) ==> (Pictured() <==> old(Pictured()))
    {
      ModelOk();
      FirstColumn();
      hide Screen.Sound, Screen.Shown, Screen.Valid, Screen.Abs, Screen.Mirrored, AtRowStart, Document.EndOutput;
      screens[index].EndOutput(showPrompt);
      Record();
    }

    method Clear()
      requires Valid()
      requires model.Ok()
      modifies this`model, screens[index], screens[index].data, vga, vga.cells
      ensures Valid()
      ensures model == old(model).With(Document.Clear(H))
    {
      ModelOk();
      hide Screen.Sound, Screen.Shown, Screen.Valid, Screen.Abs;
      screens[index].Clear();
      Record();
    }

    // ---- Screens ----

    method SwitchScreen(i: nat)
      requires Valid()
      requires 25 <= H <= 256
      modifies this`index, this`model, screens, Buffers(), vga, vga.cells
      ensures Valid()
      ensures model == old(model).Switch(H, i)
    {
      if i >= SCREEN_COUNT {
        return;
      }
      index := i;
      assert Holds(i, model.docs[i]);
      ShowCurrent();
      model := model.Switch(H, i);
    }

    /** Sets the current screen up if it never was, and draws it. */
    method ShowCurrent()
      requires Separate() && index < SCREEN_COUNT && 25 <= H <= 256
      requires screens[index].initialized ==> screens[index].Sound()
      modifies screens[index], screens[index].data, vga, vga.cells
      ensures screens[index].initialized && screens[index].Valid()
      ensures screens[index].Abs() ==
        Redraw(if old(screens[index].initialized) then old(screens[index].Abs()) else Fresh(H))
    {
      hide Screen.Sound, Screen.Shown, Screen.Valid, Screen.Abs, Fresh;
      if !screens[index].initialized {
        SetUp(index);
      }
      screens[index].Show();
    }

    /** The picture depends on the current screen alone, so a screen shown again looks as it did. */
    lemma PictureShown()
      requires Valid() && model.Current().drawn
      ensures forall i | 0 <= i < 25 * 80 ::
        vga.cells[i] == Cell(InView(model.Current(), i), screens[index].fg, screens[index].bg)
    {
      ModelOk();
      screens[index].PictureShown();
    }

    /** The hardware cursor stands where the cursor of the current screen is in the view. */
    lemma CursorPlaced()
      requires Valid() && model.Current().placed
      ensures
        var d := model.Current();
        vga.cursorHigh * 256 + vga.cursorLow == d.Pos() - (d.window.dropped + d.window.scroll) * 80
    {
      ModelOk();
      screens[index].CursorOnPage();
    }
  }
}
