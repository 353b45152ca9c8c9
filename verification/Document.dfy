/**
 A screen seen from outside: an unbounded page with an editable line at its end. Every
 operation is given by its effect in closed form; class Screen refines it.
 */
module Document {
  import opened Text
  import opened Tapes

  /** INT8_MAX, the capacity of an input line. */
  const INPUT_MAX: nat := 127

  datatype Direction = Up | Down | Left | Right

  /**
   before:  everything printed ahead of the input, row after row, since the last clear
   text:    the input line
   cursor:  how many characters of the input are before the cursor
   editing: whether there is an input field (input_size != -1)
   drawn:   whether the screen memory is known to show the rows in view
   placed:  whether the hardware cursor is known to stand on the cursor cell
   */
  datatype Doc = Doc(
    before: string, text: string, cursor: nat, editing: bool,
    window: Window, drawn: bool, placed: bool)
  {
    function Page(): string {
      before + text
    }

    function Start(): nat {
      |before|
    }

    function End(): nat {
      |before| + |text|
    }

    function Pos(): nat {
      |before| + cursor
    }

    /** The cursor visits position n: the window follows it, redrawing when it scrolls. */
    function Visit(n: nat): Doc {
      var w := window.Reach(n);
      this.(window := w, drawn := drawn || w.scroll != window.scroll, placed := true)
    }
  }

  /** What holds of a screen between any two calls into the terminal. */
  predicate DocOk(d: Doc) {
    && 25 <= d.window.H <= 256
    && d.cursor <= |d.text| <= INPUT_MAX
    && '\n' !in d.text
    && (d.editing || d.text == [])
    && (d.text == [] || d.Start() % 80 == 0 || d.Start() % 80 == 2)
    && d.window.dropped * 80 <= d.Start()
    && d.window.Row(d.End()) < d.window.H
    && d.window.scroll + 25 <= d.window.H
    && (d.window.scroll == 0 || d.window.scroll + 23 <= d.window.Row(d.Start()))
  }

  /** A screen waiting for keys: its input starts in column 0 or right after the prompt. */
  predicate Editable(d: Doc) {
    && DocOk(d)
    && d.editing
    && (d.Start() % 80 == 0 || d.Start() % 80 == 2)
  }

  /** The character of cell i of the 25 rows in view. */
  function InView(d: Doc, i: nat): char {
    At(d.Page(), (d.window.dropped + d.window.scroll) * 80 + i)
  }

  // ---- Input ----

  function Insert(d: Doc, c: char): Doc
    requires d.cursor <= |d.text|
  {
    if !d.editing || |d.text| >= INPUT_MAX then d
    else d.Visit(d.End() + 1).(
           text := d.text[..d.cursor] + [c] + d.text[d.cursor..],
           cursor := d.cursor + 1,
           drawn := true)
  }

  function Backspace(d: Doc, count: nat): Doc
    requires d.cursor <= |d.text|
  {
    if !d.editing then d
    else
      var k := Min(count, d.cursor);
      var r := d.Visit(d.End());
      r.(text := d.text[..d.cursor - k] + d.text[d.cursor..],
         cursor := d.cursor - k,
         drawn := r.drawn || d.cursor - k < |d.text|)
  }

  function Delete(d: Doc, count: nat): Doc
    requires d.cursor <= |d.text|
  {
    if !d.editing then d
    else
      var k := Min(count, |d.text| - d.cursor);
      var r := d.Visit(d.End());
      r.(text := d.text[..d.cursor] + d.text[d.cursor + k..],
         drawn := r.drawn || d.cursor < |d.text|)
  }

  function Move(d: Doc, direction: Direction): Doc {
    if !d.editing then d
    else
      match direction
      case Up =>
        if d.window.scroll == 0 then d
        else d.(window := d.window.(scroll := d.window.scroll - 1), drawn := true, placed := true)
      case Down =>
        if d.window.scroll + 25 < d.window.H && d.window.scroll + 25 <= d.window.Row(d.Pos())
        then d.(window := d.window.(scroll := d.window.scroll + 1), drawn := true, placed := true)
        else d
      case Left =>
        if d.cursor > 0 then d.Visit(d.Pos() - 1).(cursor := d.cursor - 1) else d
      case Right =>
        if d.cursor < |d.text| then d.Visit(d.Pos() + 1).(cursor := d.cursor + 1) else d
  }

  // ---- Output ----

  function Newline(d: Doc): Doc {
    d.Visit(NextRow(d.Start())).(
      before := FillRow(d.before),
      drawn := !ShiftsUnseen(d.window, d.Start()) && d.Visit(NextRow(d.Start())).drawn)
  }

  function Put(d: Doc, c: char): Doc {
    if c == '\n' then Newline(d)
    else d.Visit(d.Start() + 1).(before := d.before + [c], drawn := true)
  }

  function Puts(d: Doc, s: string): Doc
    decreases s
  {
    if s == [] then d else Puts(Put(d, s[0]), s[1..])
  }

  function Prompt(d: Doc): Doc {
    Put(Put(d, '$'), ' ')
  }

  /** The input, if any, becomes part of the page, and output starts on a new row. */
  function BeginOutput(d: Doc): Doc {
    var e := if d.text == [] then d else d.Visit(d.End());
    Newline(e.(before := d.Page(), text := [], cursor := 0)).(editing := false)
  }

  /** The window of a screen once the cursor is at the end of its input. */
  function AtEnd(d: Doc): Window {
    if d.text == [] then d.window else d.window.Reach(d.End())
  }

  /** Whether output goes on at the start of a row. */
  predicate AtRowStart(d: Doc) {
    d.Start() % 80 == 0
  }

  /** The newline after the input shifts the rows without redrawing them. */
  predicate Shifts(d: Doc) {
    ShiftsUnseen(AtEnd(d), d.End())
  }

  /** The rows in view repeat, so that a right display would be right even so. */
  predicate LooksSame(d: Doc) {
    RowsRepeat(d.Page(), AtEnd(d).dropped + AtEnd(d).scroll, d.End() % 80)
  }

  /** An edit of an empty input that moves no view has no cell to change. */
  predicate StandsStill(d: Doc, e: Doc) {
    d.editing && d.text == [] && e.window == d.window
  }

  /** An empty input field opens at the cursor. */
  function Field(d: Doc): Doc {
    d.(text := [], cursor := 0, editing := true)
  }

  function EndOutput(d: Doc, showPrompt: bool): Doc {
    var e := if d.Start() % 80 != 0 then Newline(d) else d;
    Field(if showPrompt then Prompt(e) else e)
  }

  /** Nothing is redrawn: the screen memory and the hardware cursor keep what they showed. */
  function Clear(H: nat): Doc {
    Doc([], [], 0, true, Window(H, 0, 0), false, false)
  }

  /** A screen when it is first shown. */
  function Fresh(H: nat): Doc {
    Prompt(Clear(H))
  }

  /** Redrawing the whole view, as a screen switch does. */
  function Redraw(d: Doc): Doc {
    d.(drawn := true, placed := true)
  }

  // ---- The window is always sound ----

  /**
   Between the start and the end of the input every row is in the buffer and not above
   the view, so the row sent to the screen memory never wraps below zero and the view
   never has to be scrolled back up to the cursor.
   */
  lemma InputInWindow(d: Doc, p: nat)
    requires DocOk(d) && d.Start() <= p <= d.End()
    ensures d.window.scroll <= d.window.Row(p) < d.window.H
    ensures p / 80 <= d.Start() / 80 + 1
  {
  }

  lemma InsertOk(d: Doc, c: char)
    requires Editable(d) && c != '\n'
    ensures Editable(Insert(d, c))
  {
  }

  lemma BackspaceOk(d: Doc, count: nat)
    requires Editable(d)
    ensures Editable(Backspace(d, count)) && Backspace(d, count).window.dropped == d.window.dropped
  {
  }

  lemma DeleteOk(d: Doc, count: nat)
    requires Editable(d)
    ensures Editable(Delete(d, count)) && Delete(d, count).window.dropped == d.window.dropped
  {
  }

  lemma MoveOk(d: Doc, direction: Direction)
    requires Editable(d)
    ensures Editable(Move(d, direction)) && Move(d, direction).window.dropped == d.window.dropped
  {
  }

  lemma PutOk(d: Doc, c: char)
    requires DocOk(d) && d.text == []
    ensures DocOk(Put(d, c)) && Put(d, c).text == []
  {
  }

  lemma BeginOutputOk(d: Doc)
    requires DocOk(d)
    ensures DocOk(BeginOutput(d)) && BeginOutput(d).text == [] && BeginOutput(d).Start() % 80 == 0
  {
  }

  lemma PromptOk(d: Doc)
    requires DocOk(d) && d.text == [] && d.Start() % 80 == 0
    ensures DocOk(Prompt(d)) && Prompt(d).text == []
    ensures Prompt(d).before == d.before + "$ "
  {
    PutOk(d, '$');
    PutOk(Put(d, '$'), ' ');
  }

  lemma FieldOk(d: Doc)
    requires DocOk(d) && d.text == [] && (d.Start() % 80 == 0 || d.Start() % 80 == 2)
    ensures Editable(Field(d))
  {
  }

  lemma NewlineOk(d: Doc)
    requires DocOk(d) && d.text == []
    ensures DocOk(Newline(d)) && Newline(d).text == [] && Newline(d).Start() % 80 == 0
  {
  }

  lemma EndOutputOk(d: Doc, showPrompt: bool)
    requires DocOk(d) && d.text == []
    ensures Editable(EndOutput(d, showPrompt))
  {
    hide Newline, Put, Prompt;
    var e := if d.Start() % 80 != 0 then Newline(d) else d;
    NewlineOk(d);
    if showPrompt {
      PromptOk(e);
      FieldOk(Prompt(e));
    } else {
      FieldOk(e);
    }
  }

  // ---- Scrolling ----

  /** A key pressed n times. */
  function Presses(d: Doc, direction: Direction, n: nat): Doc
    decreases n
  {
    if n == 0 then d else Presses(Move(d, direction), direction, n - 1)
  }

  /** What n presses of Up show: n rows further up, or the top of the buffer. */
  lemma {:induction false} UpRun(d: Doc, n: nat)
    requires Editable(d)
    ensures
      var r := Presses(d, Up, n);
      && Editable(r) && r == d.(window := r.window, drawn := r.drawn, placed := r.placed)
      && r.window == d.window.(scroll := Max(0, d.window.scroll - n))
      && (if r.window == d.window then r == d else r.drawn && r.placed)
    decreases n
  {
    if n > 0 {
      MoveOk(d, Up);
      UpRun(Move(d, Up), n - 1);
    }
  }

  /** What n presses of Down show: n rows further down, but no further than to the row of the cursor. */
  lemma {:induction false} DownRun(d: Doc, n: nat)
    requires Editable(d)
    ensures
      var r := Presses(d, Down, n);
      && Editable(r) && r == d.(window := r.window, drawn := r.drawn, placed := r.placed)
      && r.window == d.window.(scroll := Max(d.window.scroll, Min(d.window.scroll + n, d.window.Row(d.Pos()) - 24)))
      && (if r.window == d.window then r == d else r.drawn && r.placed)
    decreases n
  {
    InputInWindow(d, d.Pos());
    hide DocOk;
    if n > 0 {
      MoveOk(d, Down);
      hide Editable;
      DownRun(Move(d, Down), n - 1);
    }
  }

  /**
   However far the view was scrolled up, Down brings the cursor back into it, stops there, and
   never shows rows further down than before.
   */
  lemma ViewReturns(d: Doc, m: nat, n: nat)
    requires Editable(d) && d.window.H <= n
    ensures
      var r := Presses(Presses(d, Up, m), Down, n);
      && r.window.scroll <= r.window.Row(r.Pos()) < r.window.scroll + 25
      && (d.window.Row(d.Pos()) < d.window.scroll + 25 ==> r.window.scroll <= d.window.scroll)
      && Move(r, Down) == r
  {
    UpRun(d, m);
    DownRun(Presses(d, Up, m), n);
    InputInWindow(d, d.Pos());
  }

  // ---- The operations as runs of the print head ----

  function TapeOf(d: Doc): Tape {
    Tape(d.Page(), d.Pos(), d.window, d.drawn, d.placed)
  }

  /** Printing c, then the input after the cursor, and going back to just after c, inserts c. */
  lemma InsertPrints(d: Doc, c: char)
    requires Editable(d) && c != '\n' && |d.text| < INPUT_MAX
    ensures
      var t := PrintChars(TapeOf(d), [c]);
      && (t.pos + |d.text| - d.cursor) / 80 <= t.pos / 80 + 1
      && MoveTo(PrintChars(t, d.text[d.cursor..]), t.pos) == TapeOf(Insert(d, c))
  {
    hide Window.Reach, Overwrite;
    var after := d.text[d.cursor..];
    hide DocOk;
    InsertSpan(d);
    PrintTwice(TapeOf(d), [c], after);
    ReachBack(d.window, d.Pos() + 1, d.End() + 1);
    OverwriteInserts(d.before, d.text, d.cursor, c);
  }

  lemma InsertSpan(d: Doc)
    requires Editable(d) && |d.text| < INPUT_MAX
    ensures (d.End() + 1) / 80 <= (d.Pos() + 1) / 80 + 1
  {
  }

  /** The head has stepped back over the k characters before the cursor, which may hold anything now. */
  predicate Backed(d: Doc, k: nat, t: Tape)
    requires k <= d.cursor <= |d.text|
  {
    && |t.page| == d.End() && t.pos == d.Pos() - k && t.window == d.window
    && t.page[..t.pos] == d.before + d.text[..d.cursor - k]
    && (k == 0 ==> t.drawn == d.drawn)
    && d.End() / 80 <= t.pos / 80 + 1
  }

  lemma BackspaceSpan(d: Doc, k: nat)
    requires Editable(d) && k <= d.cursor
    ensures d.End() / 80 <= (d.Pos() - k) / 80 + 1
    ensures d.window.scroll <= d.window.Row(d.Start())
  {
  }

  /**
   Printing the input after the cursor k cells further left, then k blanks, and going back,
   deletes the k characters before the cursor, whatever those cells held meanwhile.
   */
  lemma BackspacePrints(d: Doc, k: nat, t: Tape)
    requires Editable(d) && k <= d.cursor && Backed(d, k, t)
    ensures
      var r := MoveTo(PrintChars(t, d.text[d.cursor..] + Spaces(k)), t.pos);
      && r.page == Backspace(d, k).Page() + Spaces(k)
      && r.(page := Backspace(d, k).Page()) == TapeOf(Backspace(d, k))
  {
    hide Window.Reach, Overwrite;
    ReachBack(d.window, t.pos, d.End());
    OverwriteCuts(d.before, d.text, t.page, d.cursor - k, d.cursor);
    var tail := d.text[d.cursor..] + Spaces(k);
    assert t.pos + |tail| == d.End();
    assert PrintChars(t, tail).window == (if tail == [] then d.window else d.window.Reach(d.End()));
    assert Min(k, d.cursor) == k;
  }

  lemma DeletePrints(d: Doc, k: nat)
    requires Editable(d) && k <= |d.text| - d.cursor
    ensures
      var r := MoveTo(PrintChars(TapeOf(d), d.text[d.cursor + k..] + Spaces(k)), d.Pos());
      && d.End() / 80 <= d.Pos() / 80 + 1
      && r.page == Delete(d, k).Page() + Spaces(k)
      && r.pos == d.Pos() <= |Delete(d, k).Page()|
      && r.(page := Delete(d, k).Page()) == TapeOf(Delete(d, k))
  {
    BackspaceSpan(d, 0);
    DeletePage(d, k);
    hide Window.Reach, Overwrite, DocOk, Editable;
    var tail := d.text[d.cursor + k..] + Spaces(k);
    assert d.Pos() + |tail| == d.End() && Min(k, |d.text| - d.cursor) == k;
    ReachBack(d.window, d.Pos(), d.End());
    if tail == [] {
      assert k == 0 && d.cursor == |d.text|;
      assert Delete(d, k).Page() == d.Page() == d.Page() + Spaces(0);
    } else {
      assert PrintChars(TapeOf(d), tail) ==
        Tape(Overwrite(d.Page(), d.Pos(), tail), d.End(), d.window.Reach(d.End()), true, true);
    }
  }

  lemma DeletePage(d: Doc, k: nat)
    requires d.editing && d.cursor + k <= |d.text|
    ensures Overwrite(d.Page(), d.Pos(), d.text[d.cursor + k..] + Spaces(k)) == Delete(d, k).Page() + Spaces(k)
  {
    hide Overwrite, Window.Reach;
    assert d.Page()[..d.Pos()] == d.before + d.text[..d.cursor];
    OverwriteCuts(d.before, d.text, d.Page(), d.cursor, d.cursor + k);
  }

  lemma NewlinePrints(d: Doc)
    requires d.text == [] && d.cursor == 0
    ensures PrintNewline(TapeOf(d)) == TapeOf(Newline(d))
  {
    hide Window.Reach, Overwrite, FillRow, ShiftsUnseen;
    assert d.Page() == d.before;
    assert Newline(d).Page() == Newline(d).before;
    FillIsBlanks(d.before);
  }

  /** In output mode a character printed by the head is a character added to the page. */
  lemma PutPrints(d: Doc, c: char)
    requires DocOk(d) && d.text == []
    ensures Print(TapeOf(d), c) == TapeOf(Put(d, c))
  {
    assert d.Page() == d.before && d.cursor == 0;
    hide Window.Reach, Overwrite, PrintNewline, Newline, DocOk;
    if c == '\n' {
      NewlinePrints(d);
    } else {
      AppendIsOverwrite(d.before, c);
      assert Put(d, c).Page() == Put(d, c).before;
    }
  }

  lemma FillIsBlanks(page: string)
    ensures Overwrite(page, |page|, Spaces(NextRow(|page|) - |page|)) == FillRow(page)
  {
  }

  lemma AppendIsOverwrite(page: string, c: char)
    ensures Overwrite(page, |page|, [c]) == page + [c]
  {
  }

  /** A cursor step inside the input moves the head by one. */
  lemma StepPrints(d: Doc, offset: int)
    requires DocOk(d) && d.editing && (offset == -1 || offset == 1)
    requires 0 <= d.cursor + offset <= |d.text|
    ensures
      var e := Move(d, if offset == -1 then Left else Right);
      && MoveTo(TapeOf(d), d.Pos() + offset) == TapeOf(e)
      && e.before == d.before && e.text == d.text && e.editing && e.cursor == d.cursor + offset
      && d.window.scroll <= d.window.Row(d.Pos() + offset) < d.window.H
  {
    InputInWindow(d, d.Pos() + offset);
  }

  /** A view that can scroll does so by one row, and nothing else changes. */
  lemma ScrollPrints(d: Doc, down: bool)
    requires DocOk(d) && d.editing
    ensures
      var e := Move(d, if down then Down else Up);
      && e.before == d.before && e.text == d.text && e.editing && e.cursor == d.cursor
      && TapeOf(e) ==
         if down && d.window.scroll + 25 < d.window.H && d.window.scroll + 25 <= d.window.Row(d.Pos())
         then Tape(d.Page(), d.Pos(), d.window.(scroll := d.window.scroll + 1), true, true)
         else if !down && d.window.scroll > 0
         then Tape(d.Page(), d.Pos(), d.window.(scroll := d.window.scroll - 1), true, true)
         else TapeOf(d)
  {
  }

  lemma BeginOutputPrints(d: Doc)
    requires DocOk(d)
    ensures
      var e := if d.text == [] then d else d.Visit(d.End()).(cursor := |d.text|);
      Print(TapeOf(e), '\n') == TapeOf(BeginOutput(d))
  {
    assert d.text == [] ==> d.cursor == 0;
    hide Window.Reach, PrintNewline, Newline, DocOk;
    var e := if d.text == [] then d else d.Visit(d.End()).(cursor := |d.text|);
    var n := (if d.text == [] then d else d.Visit(d.End())).(before := d.Page(), text := [], cursor := 0);
    assert d.Page() == n.Page() && TapeOf(e) == TapeOf(n);
    NewlinePrints(n);
    assert Newline(n).(editing := false).Page() == Newline(n).Page();
  }
}
