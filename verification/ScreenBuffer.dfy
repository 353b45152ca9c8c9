/** One screen of the terminal: the buffer of H rows, its cursor, view and input counters. */
module ScreenBuffer {
  import opened Text
  import opened Tapes
  import opened Document
  import opened Vga
  import Mem

  /** A 32-bit unsigned number taken as signed. */
  function Int32(n: nat): int {
    if n < 0x8000_0000 then n else n - 0x1_0000_0000
  }

  class Screen {
    const H: nat
    const fg: nat
    const bg: nat
    // Row after row, 80 cells each.
    const data: array<Cell>
    const vga: Display

    var cx: nat
    var cy: nat
    var scroll: nat
    var inputSize: int
    var inputCursor: int
    var initialized: bool

    // The page the buffer is a window of, the rows dropped off its top, where the input
    // starts on it, and what the display is known to show.
    ghost var page: string
    ghost var dropped: nat
    ghost var start: nat
    ghost var drawn: bool
    ghost var placed: bool

    constructor (H: nat, fg: nat, bg: nat, vga: Display)
      requires 25 <= H <= 256
      ensures this.H == H && this.fg == fg && this.bg == bg && this.vga == vga
      ensures fresh(data) && data.Length == H * 80
      ensures !initialized
    {
      this.H, this.fg, this.bg, this.vga := H, fg, bg, vga;
      data := new Cell[H * 80](_ => Cell('\0', 0, 0));
      cx, cy, scroll, inputSize, inputCursor, initialized := 0, 0, 0, 0, 0, false;
      page, dropped, start, drawn, placed := [], 0, 0, false, false;
    }

    // ---- What the fields mean ----

    ghost predicate Shape() {
      && 25 <= H <= 256
      && data.Length == H * 80
      && vga.cells.Length == 256 * 80
      && data != vga.cells
    }

    /** The buffer holds rows dropped .. dropped + H - 1 of the page, in the color of the screen. */
    ghost predicate Grid()
      reads this`page, this`dropped, data
    {
      && data.Length == H * 80
      && forall i | 0 <= i < H * 80 :: data[i] == Cell(At(page, dropped * 80 + i), fg, bg)
    }

    ghost predicate Buffer()
      reads this`cx, this`cy, this`scroll, this`page, this`dropped, data
    {
      && Shape()
      && cx < 80 && cy <= H && scroll + 25 <= H
      && |page| <= (dropped + H) * 80
      && Grid()
    }

    /** Position of the cursor on the page. */
    ghost function Pos(): nat
      reads this`cx, this`cy, this`dropped
    {
      (dropped + cy) * 80 + cx
    }

    ghost function Head(): Tape
      reads this`cx, this`cy, this`scroll, this`page, this`dropped, this`drawn, this`placed
    {
      Tape(page, Pos(), Window(H, dropped, scroll), drawn, placed)
    }

    ghost predicate Mirrored()
      reads this`scroll, data, vga.cells
    {
      && scroll * 80 + 25 * 80 <= data.Length
      && 25 * 80 <= vga.cells.Length
      && forall i | 0 <= i < 25 * 80 :: vga.cells[i] == data[scroll * 80 + i]
    }

    ghost predicate CursorShown()
      reads this`cx, this`cy, this`scroll, vga
    {
      vga.Cursor() == Position((cy - scroll) % 256, cx)
    }

    /** The display agrees with this screen as far as the ghost flags claim. */
    ghost predicate Shown()
      reads this`cx, this`cy, this`scroll, this`drawn, this`placed, data, vga, vga.cells
    {
      (drawn ==> Mirrored()) && (placed ==> CursorShown())
    }

    /** What holds before and after every character printed. */
    ghost predicate Steady()
      reads this`cx, this`cy, this`scroll, this`page, this`dropped, this`drawn, this`placed
      reads data, vga, vga.cells
    {
      Buffer() && cy < H && Head().Ok() && Shown()
    }

    ghost function Abs(): Doc
      reads this
      requires start <= |page|
    {
      Doc(page[..start], page[start..], if inputSize < 0 || inputCursor < 0 then 0 else inputCursor,
          inputSize >= 0, Window(H, dropped, scroll), drawn, placed)
    }

    /** A screen at rest, whether or not it is the one displayed. */
    ghost predicate Sound()
      reads this, data
    {
      && Buffer() && cy < H && Head().Ok()
      && start <= |page|
      && DocOk(Abs())
      && Pos() == Abs().Pos()
      && (inputSize == -1 || (inputSize == |page| - start && 0 <= inputCursor <= inputSize))
    }

    /** The displayed screen at rest. */
    ghost predicate Valid()
      reads this, data, vga, vga.cells
    {
      Sound() && Shown()
    }

    // ---- Drawing and scrolling ----

    function YToVga(y: nat): nat
      reads this
    {
      (y - scroll) % 256
    }

    method PutScreen()
      requires Shape() && scroll + 25 <= H
      modifies vga.cells
      ensures Mirrored()
    {
      for x := 0 to 80
        invariant forall i | 0 <= i < 25 * 80 && i % 80 < x :: vga.cells[i] == data[scroll * 80 + i]
      {
        for y := scroll to scroll + 25
          invariant forall i | 0 <= i < 25 * 80 && (i % 80 < x || (i % 80 == x && i / 80 < y - scroll)) ::
            vga.cells[i] == data[scroll * 80 + i]
        {
          vga.SetCell(data[y * 80 + x], x, y - scroll);
        }
      }
    }

    method ScrollDown()
      requires Shape() && cx < 80 && scroll + 25 < H
      modifies `scroll, vga, vga.cells
      ensures scroll == old(scroll) + 1
      ensures Mirrored() && CursorShown()
    {
      scroll := scroll + 1;
      PutScreen();
      vga.PutCursor(cx, YToVga(cy));
    }

    method ScrollUp()
      requires Shape() && cx < 80 && 0 < scroll && scroll + 25 <= H
      modifies `scroll, vga, vga.cells
      ensures scroll == old(scroll) - 1
      ensures Mirrored() && CursorShown()
    {
      scroll := scroll - 1;
      PutScreen();
      vga.PutCursor(cx, YToVga(cy));
    }

    method AlignScrollToCursor()
      requires Shape() && cx < 80 && cy < H && scroll + 25 <= H
      modifies `scroll, vga, vga.cells
      ensures scroll == if cy < old(scroll) then cy else Max(old(scroll), cy - 24)
      ensures scroll + 25 <= H
      ensures scroll == old(scroll) ==> unchanged(vga) && unchanged(vga.cells)
      ensures scroll != old(scroll) ==> Mirrored() && CursorShown()
    {
      while cy < scroll
        invariant scroll + 25 <= H
        invariant scroll == old(scroll) || (cy <= scroll < old(scroll) && Mirrored() && CursorShown())
        invariant scroll == old(scroll) ==> unchanged(vga) && unchanged(vga.cells)
      {
        ScrollUp();
      }
      while cy >= scroll + 25
        invariant scroll + 25 <= H
        invariant scroll == (if cy < old(scroll) then cy else old(scroll)) || (old(scroll) < scroll <= cy - 24)
        invariant scroll == old(scroll) ==> unchanged(vga) && unchanged(vga.cells)
        invariant scroll != old(scroll) ==> Mirrored() && CursorShown()
        decreases cy - scroll
      {
        ScrollDown();
      }
    }

    /** Every row moves up by one, and the last one becomes blank. */
    method ShiftRows()
      requires Shape()
      modifies data
      ensures forall i | 0 <= i < H * 80 ::
        data[i] == if i < 80 * (H - 1) then old(data[i + 80]) else Cell(' ', fg, bg)
    {
      Mem.Memmove(data, 0, 80, 80 * (H - 1));
      for x := 0 to 80
        modifies data
        invariant forall i | 0 <= i < 80 * (H - 1) :: data[i] == old(data[i + 80])
        invariant forall i | 80 * (H - 1) <= i < 80 * (H - 1) + x :: data[i] == Cell(' ', fg, bg)
      {
        data[(H - 1) * 80 + x] := Cell(' ', fg, bg);
      }
    }

    /** The top row is dropped: the buffer becomes a window one row further down the page. */
    method MoveScreenUp()
      requires Buffer() && 0 < cy
      modifies `cy, `dropped, data
      ensures Buffer()
      ensures cy == old(cy) - 1 && dropped == old(dropped) + 1
    {
      ShiftRows();
      cy := cy - 1;
      dropped := dropped + 1;
      forall i | 0 <= i < H * 80
        ensures data[i] == Cell(At(page, dropped * 80 + i), fg, bg)
      {
        assert i < 80 * (H - 1) ==> data[i] == old(data[i + 80]);
      }
    }

    // ---- Cursor ----

    function CursorPosition(): nat
      reads this
    {
      cy * 80 + cx
    }

    function CellAt(position: nat): (cell: Cell)
      reads data
      requires position < data.Length
      ensures cell == data[position]
    {
      data[position / 80 * 80 + position % 80]
    }

    /** The cursor goes to a cell of the buffer, and the view follows it. */
    method PlaceCursor(x: nat, y: nat)
      requires Shape() && x < 80 && scroll <= y < H && scroll + 25 <= H && Shown()
      modifies `cx, `cy, `scroll, `drawn, `placed, vga, vga.cells
      ensures cx == x && cy == y
      ensures scroll == Max(old(scroll), y - 24)
      ensures drawn == (old(drawn) || scroll != old(scroll)) && placed
      ensures Shown()
      ensures scroll == old(scroll) ==> unchanged(vga.cells)
    {
      hide Mirrored;
      cx := x;
      cy := y;
      AlignScrollToCursor();
      vga.PutCursor(cx, YToVga(cy));
      drawn, placed := drawn || scroll != old(scroll), true;
    }

    method MoveCursor(offset: int)
      requires Steady()
      requires 0 <= Pos() + offset <= |page|
      requires (dropped + scroll) * 80 <= Pos() + offset < (dropped + H) * 80
      modifies `cx, `cy, `scroll, `drawn, `placed, vga, vga.cells
      ensures Steady()
      ensures Head() == MoveTo(old(Head()), old(Pos()) + offset)
      ensures scroll == old(scroll) ==> unchanged(vga.cells)
    {
      var position := (CursorPosition() + offset) % 0x1_0000_0000;
      ghost var p := Pos() + offset;
      assert position == CursorPosition() + offset == p - dropped * 80;
      MoveToOk(Head(), p);
      hide Grid, Mirrored, CursorShown, Window.Reach, Shown;
      PlaceCursor(position % 80, position / 80);
      assert Pos() == p;
      assert Head() == MoveTo(old(Head()), old(Pos()) + offset);
    }

    // ---- Printing one character ----

    /** Prints c on the cursor cell, without moving the cursor. */
    method WriteCell(c: char)
      requires Buffer() && scroll <= cy < H && Pos() <= |page|
      modifies `page, data, vga.cells
      ensures Buffer()
      ensures page == Overwrite(old(page), Pos(), [c])
    {
      assert YToVga(cy) == cy - scroll;
      data[cy * 80 + cx] := Cell(c, fg, bg);
      vga.SetCell(data[cy * 80 + cx], cx, YToVga(cy));
      page := Overwrite(page, Pos(), [c]);
    }

    /** Steps over the cursor cell, to the next row at the end of one, dropping a row when there is none. */
    method StepCursor()
      requires Buffer() && cy < H
      modifies `cx, `cy, `dropped, data
      ensures Buffer() && cy < H
      ensures cx == (if old(cx) < 79 then old(cx) + 1 else 0)
      ensures cy == (if old(cx) < 79 || old(cy) == H - 1 then old(cy) else old(cy) + 1)
      ensures dropped == old(dropped) + (if old(cx) == 79 && old(cy) == H - 1 then 1 else 0)
    {
      cx := cx + 1;
      if cx >= 80 {
        cx := 0;
        cy := cy + 1;
        if cy >= H {
          MoveScreenUp();
        }
      }
    }

    /** Shows the cursor, scrolling to it, and redraws the view. */
    method ShowCursorAndScreen()
      requires Shape() && cx < 80 && scroll <= cy < H && scroll + 25 <= H
      modifies `scroll, vga, vga.cells
      ensures scroll == Max(old(scroll), cy - 24) && scroll + 25 <= H
      ensures Mirrored() && CursorShown()
    {
      vga.PutCursor(cx, YToVga(cy));
      AlignScrollToCursor();
      PutScreen();
    }

    /** Blanks the row from the cursor on, in the buffer and on the display. */
    method BlankCells()
      requires Shape() && cx < 80 && cy < H
      modifies data, vga.cells
      ensures forall i | 0 <= i < H * 80 ::
        data[i] == if cy * 80 + cx <= i < cy * 80 + 80 then Cell(' ', fg, bg) else old(data[i])
      ensures forall i | 0 <= i < 256 * 80 ::
        vga.cells[i] == if Position(YToVga(cy), cx) <= i < Position(YToVga(cy), 80)
                        then Cell(' ', fg, bg) else old(vga.cells[i])
    {
      for x := cx to 80
        invariant forall i | 0 <= i < H * 80 ::
          data[i] == if cy * 80 + cx <= i < cy * 80 + x then Cell(' ', fg, bg) else old(data[i])
        invariant forall i | 0 <= i < 256 * 80 ::
          vga.cells[i] == if Position(YToVga(cy), cx) <= i < Position(YToVga(cy), x)
                          then Cell(' ', fg, bg) else old(vga.cells[i])
      {
        data[cy * 80 + x] := Cell(' ', fg, bg);
        vga.SetCell(Cell(' ', fg, bg), x, YToVga(cy));
      }
    }

    /** Blanking a row in view on both sides keeps the display right. */
    method BlankRow()
      requires Shape() && cx < 80 && cy < H && scroll + 25 <= H
      modifies data, vga.cells
      ensures forall i | 0 <= i < H * 80 ::
        data[i] == if cy * 80 + cx <= i < cy * 80 + 80 then Cell(' ', fg, bg) else old(data[i])
      ensures forall i | 0 <= i < 256 * 80 ::
        vga.cells[i] == if Position(YToVga(cy), cx) <= i < Position(YToVga(cy), 80)
                        then Cell(' ', fg, bg) else old(vga.cells[i])
      ensures old(Mirrored()) && scroll <= cy < scroll + 25 ==> Mirrored()
    {
      BlankCells();
      if old(Mirrored()) && scroll <= cy < scroll + 25 {
        assert YToVga(cy) == cy - scroll;
      }
    }

    method BlankRowTail()
      requires Buffer() && cy < H && Pos() <= |page|
      modifies `page, data, vga.cells
      ensures Buffer()
      ensures page == Overwrite(old(page), Pos(), Spaces(NextRow(Pos()) - Pos()))
      ensures old(Mirrored()) && scroll <= cy < scroll + 25 ==> Mirrored()
      ensures forall i | 0 <= i < 256 * 80 ::
        vga.cells[i] == if Position(YToVga(cy), cx) <= i < Position(YToVga(cy), 80)
                        then Cell(' ', fg, bg) else old(vga.cells[i])
    {
      hide Mirrored, Display.Cursor;
      BlankRow();
      page := Overwrite(page, Pos(), Spaces(NextRow(Pos()) - Pos()));
      assert NextRow(Pos()) == (dropped + cy) * 80 + 80;
    }

    /** The cursor goes to the start of the next row, and the view follows it. */
    method NextLine()
      requires Buffer() && cy + 1 < H && scroll <= cy + 1
      modifies `cx, `cy, `scroll, vga, vga.cells
      ensures Buffer() && cx == 0 && cy == old(cy) + 1
      ensures scroll == Max(old(scroll), cy - 24)
      ensures CursorShown()
      ensures if scroll == old(scroll) then unchanged(vga.cells) else Mirrored()
    {
      cx := 0;
      cy := cy + 1;
      AlignScrollToCursor();
      vga.PutCursor(cx, YToVga(cy));
    }

    /** A newline: the rest of the row is blanked, then the cursor goes to the next row. */
    method BreakLine()
      requires Buffer() && scroll <= cy < H && Pos() <= |page| && Shown()
      modifies `cx, `cy, `scroll, `page, `dropped, `drawn, `placed, data, vga, vga.cells
      ensures Buffer() && cx == 0
      ensures cy == Min(old(cy) + 1, H - 1)
      ensures dropped == old(dropped) + (if old(cy) == H - 1 then 1 else 0)
      ensures scroll == Max(old(scroll), cy - 24)
      ensures page == Overwrite(old(page), old(Pos()), Spaces(NextRow(old(Pos())) - old(Pos())))
      ensures drawn == (!(old(cy) == H - 1 && old(scroll) + 25 == H) && (old(drawn) || scroll != old(scroll)))
      ensures placed && Shown()
      ensures old(cy) == H - 1 && old(scroll) + 25 == H ==>
        forall i | 0 <= i < 25 * 80 ::
          vga.cells[i] == if 23 * 80 + old(cx) <= i < 24 * 80 then Cell(' ', fg, bg) else old(vga.cells[i])
    {
      hide Grid, Mirrored, CursorShown, Overwrite;
      if cy + 1 >= H {
        MoveScreenUp();
      }
      BlankRowTail();
      NextLine();
      drawn := !(old(cy) == H - 1 && old(scroll) + 25 == H) && (drawn || scroll != old(scroll));
      placed := true;
    }

    /** A printable character: it is written and stepped over, and the view is redrawn. */
    method PutCell(c: char)
      requires Buffer() && scroll <= cy < H && Pos() <= |page|
      modifies `cx, `cy, `scroll, `page, `dropped, `drawn, `placed, data, vga, vga.cells
      ensures Buffer() && cy < H
      ensures cx == (if old(cx) < 79 then old(cx) + 1 else 0)
      ensures cy == (if old(cx) < 79 || old(cy) == H - 1 then old(cy) else old(cy) + 1)
      ensures dropped == old(dropped) + (if old(cx) == 79 && old(cy) == H - 1 then 1 else 0)
      ensures scroll == Max(old(scroll), cy - 24)
      ensures page == Overwrite(old(page), old(Pos()), [c])
      ensures drawn && placed && Shown()
    {
      hide Grid, Mirrored, CursorShown, Overwrite;
      WriteCell(c);
      StepCursor();
      ShowCursorAndScreen();
      drawn, placed := true, true;
    }

    /** What the display shows when it mirrors the buffer, in terms of the page. */
    lemma MirrorsPage()
      requires Buffer()
      ensures Mirrored() <==>
        forall i | 0 <= i < 25 * 80 :: vga.cells[i] == Cell(At(page, (dropped + scroll) * 80 + i), fg, bg)
    {
    }

    /** A newline as the print head sees it, and what it leaves on the display when rows shift unseen. */
    method FeedLine()
      requires Steady()
      modifies `cx, `cy, `scroll, `page, `dropped, `drawn, `placed, data, vga, vga.cells
      ensures Steady()
      ensures Head() == PrintNewline(old(Head()))
      ensures old(ShiftsUnseen(Head().window, Pos())) ==>
        && dropped + scroll == old(dropped) + old(scroll) + 1
        && page == Overwrite(old(page), old(Pos()), Spaces(80 - old(cx)))
        && forall i | 0 <= i < 25 * 80 ::
          vga.cells[i] == if 23 * 80 + old(cx) <= i < 24 * 80 then Cell(' ', fg, bg) else old(vga.cells[i])
    {
      hide Grid, Mirrored, CursorShown, Shown, Overwrite, Window.Reach;
      NewlineFits();
      BreakLine();
      assert Head() == PrintNewline(old(Head()));
    }

    /**
     A newline. When it drops a row while the view is at the end of the buffer the display keeps
     what it showed, but for the row it blanks, so it agrees with the buffer afterwards exactly
     when the visible rows happened to repeat.
     */
    method PutNewline()
      requires Steady()
      modifies `cx, `cy, `scroll, `page, `dropped, `drawn, `placed, data, vga, vga.cells
      ensures Steady()
      ensures Head() == PrintNewline(old(Head()))
      ensures old(Mirrored()) && old(Pos()) == |old(page)| && ShiftsUnseen(old(Head()).window, old(Pos())) ==>
        (Mirrored() <==> RowsRepeat(old(page), old(dropped) + old(scroll), old(cx)))
    {
      hide Grid, Mirrored, Shown, Overwrite, Buffer, RowsRepeat, PrintNewline;
      NewlineFits();
      ghost var p, top, x := page, dropped + scroll, cx;
      ghost var unseen := Mirrored() && Pos() == |page| && ShiftsUnseen(Head().window, Pos());
      MirrorsPage();
      FeedLine();
      if unseen {
        StaleDisplay(p, top, x);
      }
    }

    /** The display of a screen whose page got blanks at its end and whose view went one row down it. */
    lemma StaleDisplay(p: string, top: nat, x: nat)
      requires Buffer() && top + 1 == dropped + scroll && x < 80
      requires |p| == (top + 24) * 80 + x && page == Overwrite(p, |p|, Spaces(80 - x))
      requires forall i | 0 <= i < 25 * 80 ::
        vga.cells[i] == if 23 * 80 + x <= i < 24 * 80 then Cell(' ', fg, bg) else Cell(At(p, top * 80 + i), fg, bg)
      ensures Mirrored() <==> RowsRepeat(p, top, x)
    {
      MirrorsPage();
      assert forall j :: 0 <= j ==> At(page, j) == At(p, j);
      assert forall i | 0 <= i < 25 * 80 :: vga.cells[i] == Cell(Stale(p, top, x, i), fg, bg);
      hide Overwrite, Stale, At, Buffer, Mirrored;
    }

    lemma NewlineFits()
      requires Steady()
      ensures Buffer() && Pos() <= |page| && scroll <= cy < H
      ensures PrintNewline(Head()).Ok()
      ensures Head().window.Reach(NextRow(Pos())) ==
        if cy == H - 1 then Window(H, dropped + 1, Max(scroll, H - 25))
        else Window(H, dropped, Max(scroll, cy - 23))
    {
      NewlineWindow(Head().window, Pos(), cy);
      PrintNewlineOk(Head());
    }

    method Putc(c: char)
      requires Steady()
      modifies `cx, `cy, `scroll, `page, `dropped, `drawn, `placed, data, vga, vga.cells
      ensures Steady()
      ensures Head() == Print(old(Head()), c)
      ensures
        c == '\n' && old(Mirrored()) && old(Pos()) == |old(page)|
        && ShiftsUnseen(old(Head()).window, old(Pos())) ==>
        (Mirrored() <==> RowsRepeat(old(page), old(dropped) + old(scroll), old(cx)))
    {
      hide Grid, Mirrored, CursorShown, Shown, Overwrite, Window.Reach, RowsRepeat;
      if c == '\n' {
        PutNewline();
      } else {
        StepWindow(Head().window, Pos(), cx, cy);
        PrintCharOk(Head(), c);
        PutCell(c);
        assert Head() == Print(old(Head()), c);
      }
    }

    // ---- The input line ----

    /** Prints the characters of s, none of them a newline. */
    method PutChars(s: string)
      requires Steady() && '\n' !in s
      modifies `cx, `cy, `scroll, `page, `dropped, `drawn, `placed, data, vga, vga.cells
      ensures Steady()
      ensures Head() == PrintChars(old(Head()), s)
      ensures s == [] ==> unchanged(data) && unchanged(vga.cells) && scroll == old(scroll)
    {
      hide Grid, Mirrored, CursorShown, Overwrite, Window.Reach, RowsRepeat, ShiftsUnseen;
      for i := 0 to |s|
        invariant Steady()
        invariant Head() == PrintChars(old(Head()), s[..i])
        invariant s == [] ==> unchanged(data) && unchanged(vga.cells) && scroll == old(scroll)
      {
        PrintTwice(old(Head()), s[..i], [s[i]]);
        assert s[..i] + [s[i]] == s[..i + 1];
        Putc(s[i]);
      }
      assert s[..|s|] == s;
    }

    /** A page position from the top of the buffer on is found there. */
    lemma CellOfPage(p: nat)
      requires Buffer() && dropped * 80 <= p < |page|
      ensures p - dropped * 80 < data.Length && data[p - dropped * 80].ch == page[p]
    {
    }

    /** The input from the cursor on is the rest of the page. */
    lemma AfterCursor()
      requires Valid() && 0 <= inputSize
      ensures Buffer() && start <= |page|
      ensures 0 <= inputCursor <= inputSize <= INPUT_MAX && |Abs().text| == inputSize
      ensures Pos() + inputSize - inputCursor == |page| && page[Pos()..] == Abs().text[inputCursor..]
    {
    }

    /** Copies the input from the cursor on into the buffer. */
    method GetInputAfterCursor(buffer: array<char>) returns (count: nat)
      requires Valid() && 0 <= inputSize && INPUT_MAX <= buffer.Length
      modifies buffer
      ensures count == inputSize - inputCursor <= buffer.Length
      ensures buffer[0..count] == Abs().text[inputCursor..]
    {
      hide Valid, Buffer, Abs;
      AfterCursor();
      count := inputSize - inputCursor;
      for i := 0 to count
        invariant Buffer()
        invariant forall j | 0 <= j < i :: buffer[j] == page[Pos() + j]
      {
        CellOfPage(Pos() + i);
        buffer[i] := CellAt(CursorPosition() + i).ch;
      }
    }

    /**
     Prints count characters of the buffer, then eraseCount blanks, and takes the cursor
     back to where it was. The run must end at most one row further down.
     */
    method PutInputAfterCursor(buffer: array<char>, from: nat, count: nat, eraseCount: nat)
      requires Steady() && buffer as object != data
      requires from + count <= buffer.Length && '\n' !in buffer[from..from + count]
      requires (Pos() + count + eraseCount) / 80 <= Pos() / 80 + 1
      modifies `cx, `cy, `scroll, `page, `dropped, `drawn, `placed, data, vga, vga.cells
      ensures Steady()
      ensures Head() ==
        MoveTo(PrintChars(old(Head()), old(buffer[from..from + count]) + Spaces(eraseCount)), old(Pos()))
      ensures count == 0 && eraseCount == 0 && scroll == old(scroll) ==> unchanged(data) && unchanged(vga.cells)
    {
      hide Grid, Mirrored, CursorShown, Window.Reach, Overwrite;
      ghost var run := buffer[from..from + count] + Spaces(eraseCount);
      PrintTwice(Head(), buffer[from..from + count], Spaces(eraseCount));
      PrintAndBackOk(Head(), run);
      PutChars(buffer[from..from + count]);
      PutChars(Spaces(eraseCount));
      MoveCursor(-(count + eraseCount));
    }

    lemma HeadMatches()
      requires Valid()
      ensures start <= |page| && Steady() && DocOk(Abs()) && Head() == TapeOf(Abs()) && Counts(Abs())
      ensures '\n' !in Abs().text && Abs().cursor <= |Abs().text|
    {
    }

    /** The counters and the start of the input are those of d. */
    ghost predicate Counts(d: Doc)
      reads this
    {
      && start == |d.before|
      && inputSize == (if d.editing then |d.text| else -1)
      && (d.editing ==> inputCursor == d.cursor)
    }

    lemma Conforms(d: Doc)
      requires Steady() && DocOk(d) && Head() == TapeOf(d) && Counts(d)
      ensures Valid() && Abs() == d
    {
      hide Grid, Mirrored, CursorShown;
      assert page[..start] == d.before && page[start..] == d.text;
    }

    /** Prints c and the input after the cursor again. */
    method InsertAtCursor(c: char)
      requires Valid() && c != '\n' && 0 <= inputSize < INPUT_MAX && Editable(Abs())
      modifies `cx, `cy, `scroll, `page, `dropped, `drawn, `placed, data, vga, vga.cells
      ensures Steady()
      ensures Head() == TapeOf(Insert(old(Abs()), c))
    {
      hide Valid, Steady, DocOk, Window.Reach, Overwrite;
      HeadMatches();
      InsertPrints(Abs(), c);
      ghost var after := Abs().text[inputCursor..];
      var afterCursor := new char[INPUT_MAX];
      var count := GetInputAfterCursor(afterCursor);
      Putc(c);
      assert afterCursor[0..count] == after;
      assert after + Spaces(0) == after;
      PutInputAfterCursor(afterCursor, 0, count, 0);
    }

    /** Types c at the cursor, unless there is no input field or the input is full. */
    method PutcInput(c: char)
      requires Valid() && c != '\n'
      requires inputSize >= 0 ==> Editable(Abs())
      modifies `cx, `cy, `scroll, `inputSize, `inputCursor, `page, `dropped, `drawn, `placed
      modifies data, vga, vga.cells
      ensures Valid()
      ensures Abs() == Insert(old(Abs()), c)
    {
      if inputSize < 0 || inputSize == INPUT_MAX {
        return;
      }
      InsertOk(Abs(), c);
      hide Steady, DocOk, TapeOf;
      InsertAtCursor(c);
      inputSize := inputSize + 1;
      inputCursor := inputCursor + 1;
      Conforms(Insert(old(Abs()), c));
    }

    /** Copies the whole input to the start of the buffer. */
    method CopyInput(buffer: array<char>)
      requires Valid() && 0 <= inputSize <= buffer.Length
      modifies buffer
      ensures buffer[..inputSize] == page[start..]
      ensures buffer[inputSize..] == old(buffer[inputSize..])
    {
      assert dropped * 80 <= start && start + inputCursor == Pos() && start + inputSize == |page|;
      var inputStart := CursorPosition() - inputCursor;
      hide Buffer;
      for i := 0 to inputSize
        invariant buffer[i..] == old(buffer[i..])
        invariant forall j | 0 <= j < i :: buffer[j] == page[start + j]
      {
        CellOfPage(start + i);
        buffer[i] := CellAt(inputStart + i).ch;
      }
    }

    /** Copies the input and a terminating NUL into the buffer, if there is an input and it fits. */
    method GetInput(buffer: array<char>, bufferSize: nat) returns (ok: bool)
      requires Valid() && buffer as object != data
      requires bufferSize <= buffer.Length && bufferSize < 0x1_0000_0000
      modifies buffer
      ensures ok == (Abs().editing && |Abs().text| < bufferSize < 0x8000_0000)
      ensures ok ==>
        && buffer[..|Abs().text|] == Abs().text
        && buffer[|Abs().text|] == '\0'
        && buffer[|Abs().text| + 1..] == old(buffer[|Abs().text| + 1..])
      ensures !ok ==> buffer[..] == old(buffer[..])
    {
      if inputSize < 0 {
        return false;
      }
      if Int32(bufferSize) < inputSize + 1 {
        return false;
      }
      CopyInput(buffer);
      assert page[start..] == Abs().text;
      hide Valid, Abs;
      buffer[inputSize] := '\0';
      return true;
    }

    /** Steps the cursor back over count cells of the input, blanking each. */
    method EraseBack(count: nat)
      requires Steady() && start + count <= Pos() && scroll <= Head().window.Row(start)
      modifies `cx, `cy, `page, data, vga.cells
      ensures Buffer() && scroll <= cy < H
      ensures Pos() == old(Pos()) - count
      ensures |page| == old(|page|) && page[..Pos()] == old(page)[..Pos()]
    {
      for i := 0 to count
        invariant Buffer() && scroll <= cy < H
        invariant Pos() == old(Pos()) - i
        invariant |page| == old(|page|) && page[..Pos()] == old(page)[..Pos()]
      {
        if cx == 0 && cy == 0 {
          assert false;
          break;
        }
        if cx == 0 {
          cy := cy - 1;
          cx := 80 - 1;
        } else {
          cx := cx - 1;
        }
        WriteCell(' ');
      }
    }

    /** Takes trailing blanks off the page. */
    ghost method TrimPage(text: string, count: nat)
      requires Steady() && page == text + Spaces(count) && Pos() <= |text|
      modifies `page
      ensures page == text
      ensures Steady()
    {
      hide Mirrored, CursorShown;
      page := text;
      assert forall i :: 0 <= i ==> At(page, i) == At(old(page), i);
    }

    /** After the cells were changed in place, nothing is claimed of the display any more. */
    ghost method ForgetDisplay()
      requires Buffer() && scroll <= cy < H && Pos() <= |page|
      modifies `drawn, `placed
      ensures Steady()
      ensures Head() == old(Head()).(drawn := false, placed := false)
    {
      hide Grid;
      drawn, placed := false, false;
    }

    method EraseInput(count: nat)
      requires Valid() && 0 <= inputSize && count <= inputCursor && Editable(Abs())
      modifies `cx, `cy, `page, `drawn, `placed, data, vga.cells
      ensures Steady()
      ensures count <= old(Abs()).cursor <= |old(Abs()).text| && Backed(old(Abs()), count, Head())
      ensures count == 0 ==> unchanged(data) && unchanged(vga.cells)
    {
      HeadMatches();
      BackspaceSpan(Abs(), count);
      hide Valid, Sound, DocOk, Window.Reach, Overwrite, Grid, Mirrored, CursorShown;
      if count > 0 {
        EraseBack(count);
        ForgetDisplay();
      }
    }

    /** Erases count characters before the cursor and prints the input after it in their place. */
    method RemoveBefore(count: nat, afterCursor: array<char>, afterCount: nat)
      requires Valid() && 0 <= inputSize && count <= inputCursor && Editable(Abs())
      requires afterCount <= afterCursor.Length && afterCursor as object != data
      requires afterCursor[0..afterCount] == Abs().text[inputCursor..]
      modifies `cx, `cy, `scroll, `page, `dropped, `drawn, `placed, data, vga, vga.cells
      ensures Steady()
      ensures Head() == TapeOf(Backspace(old(Abs()), count))
      ensures afterCount == 0 && count == 0 && scroll == old(scroll) ==> unchanged(data) && unchanged(vga.cells)
    {
      hide Valid, Steady, DocOk, Window.Reach, Overwrite;
      HeadMatches();
      ghost var d := Abs();
      EraseInput(count);
      BackspacePrints(d, count, Head());
      PutInputAfterCursor(afterCursor, 0, afterCount, count);
      TrimPage(Backspace(d, count).Page(), count);
    }

    method ReprintBefore(count: nat)
      requires Valid() && 0 <= inputSize && count <= inputCursor && Editable(Abs())
      modifies `cx, `cy, `scroll, `page, `dropped, `drawn, `placed, data, vga, vga.cells
      ensures Steady()
      ensures Head() == TapeOf(Backspace(old(Abs()), count))
      ensures inputSize == 0 && scroll == old(scroll) ==> unchanged(data) && unchanged(vga.cells)
    {
      hide Valid, Steady, TapeOf, Backspace, Head, Pos, Editable;
      var afterCursor := new char[INPUT_MAX];
      var afterCount := GetInputAfterCursor(afterCursor);
      RemoveBefore(count, afterCursor, afterCount);
    }

    method BackspaceInside(count: nat)
      requires Valid() && 0 <= inputSize && count <= inputCursor && Editable(Abs())
      modifies `cx, `cy, `scroll, `inputSize, `inputCursor, `page, `dropped, `drawn, `placed
      modifies data, vga, vga.cells
      ensures Valid()
      ensures Abs() == Backspace(old(Abs()), count)
      ensures old(inputSize) == 0 && scroll == old(scroll) ==> unchanged(data) && unchanged(vga.cells)
    {
      HeadMatches();
      ghost var e := Backspace(Abs(), count);
      BackspaceOk(Abs(), count);
      assert e.editing && start == |e.before| && |e.text| == inputSize - count && e.cursor == inputCursor - count;
      hide Valid, Steady, DocOk, TapeOf, Backspace, Head, Abs, Pos;
      ReprintBefore(count);
      inputSize := inputSize - count;
      inputCursor := inputCursor - count;
      Conforms(e);
    }

    /** Deleting more than there is deletes what there is, and nothing where there is no field. */
    lemma Clamps(count: nat)
      requires Valid()
      ensures start <= |page| && Abs().cursor <= |Abs().text|
      ensures inputSize < 0 ==> Backspace(Abs(), count) == Abs() == Delete(Abs(), count)
      ensures inputSize >= 0 ==>
        && 0 <= inputCursor <= inputSize
        && Backspace(Abs(), count) == Backspace(Abs(), if count > inputCursor then inputCursor else count)
        && Delete(Abs(), count) ==
           Delete(Abs(), if count > inputSize - inputCursor then inputSize - inputCursor else count)
    {
      hide Window.Reach, DocOk;
      assert Abs().cursor <= |Abs().text| by { HeadMatches(); }
    }

    /** Deletes up to count characters before the cursor. */
    method DelInput(count: nat)
      requires Valid()
      requires inputSize >= 0 ==> Editable(Abs())
      modifies `cx, `cy, `scroll, `inputSize, `inputCursor, `page, `dropped, `drawn, `placed
      modifies data, vga, vga.cells
      ensures Valid()
      ensures Abs() == Backspace(old(Abs()), count)
      ensures old(inputSize) == 0 && scroll == old(scroll) ==> unchanged(data) && unchanged(vga.cells)
    {
      hide Valid, Abs, Backspace, Editable;
      Clamps(count);
      if inputSize < 0 {
        return;
      }
      BackspaceInside(if count > inputCursor then inputCursor else count);
    }

    /** Prints what follows count characters after the cursor in their place. */
    method RemoveAfter(count: nat, afterCursor: array<char>, afterCount: nat)
      requires Valid() && 0 <= inputSize && count <= inputSize - inputCursor && Editable(Abs())
      requires afterCount == inputSize - inputCursor <= afterCursor.Length && afterCursor as object != data
      requires afterCursor[0..afterCount] == Abs().text[inputCursor..]
      modifies `cx, `cy, `scroll, `page, `dropped, `drawn, `placed, data, vga, vga.cells
      ensures Steady()
      ensures Head() == TapeOf(Delete(old(Abs()), count))
      ensures afterCount == 0 && scroll == old(scroll) ==> unchanged(data) && unchanged(vga.cells)
    {
      hide Valid, Steady, DocOk, Window.Reach, Overwrite, Delete, PrintChars, MoveTo;
      HeadMatches();
      ghost var d := Abs();
      DeletePrints(d, count);
      assert afterCursor[count..afterCount] == d.text[d.cursor + count..];
      PutInputAfterCursor(afterCursor, count, afterCount - count, count);
      TrimPage(Delete(d, count).Page(), count);
    }

    /** Deletes up to count characters after the cursor. */
    method DelInputForward(count: nat)
      requires Valid()
      requires inputSize >= 0 ==> Editable(Abs())
      modifies `cx, `cy, `scroll, `inputSize, `inputCursor, `page, `dropped, `drawn, `placed
      modifies data, vga, vga.cells
      ensures Valid()
      ensures Abs() == Delete(old(Abs()), count)
      ensures old(inputSize) == 0 && scroll == old(scroll) ==> unchanged(data) && unchanged(vga.cells)
    {
      hide Valid, Abs, Delete, Editable;
      Clamps(count);
      if inputSize < 0 {
        return;
      }
      DeleteInside(if count > inputSize - inputCursor then inputSize - inputCursor else count);
    }

    method ReprintAfter(count: nat)
      requires Valid() && 0 <= inputSize && count <= inputSize - inputCursor && Editable(Abs())
      modifies `cx, `cy, `scroll, `page, `dropped, `drawn, `placed, data, vga, vga.cells
      ensures Steady()
      ensures Head() == TapeOf(Delete(old(Abs()), count))
      ensures inputSize == 0 && scroll == old(scroll) ==> unchanged(data) && unchanged(vga.cells)
    {
      hide Valid, Steady, TapeOf, Delete, Head, Pos, Editable, Abs, Buffer;
      AfterCursor();
      var afterCursor := new char[INPUT_MAX];
      var afterCount := GetInputAfterCursor(afterCursor);
      RemoveAfter(count, afterCursor, afterCount);
    }

    method DeleteInside(count: nat)
      requires Valid() && 0 <= inputSize && count <= inputSize - inputCursor && Editable(Abs())
      modifies `cx, `cy, `scroll, `inputSize, `inputCursor, `page, `dropped, `drawn, `placed
      modifies data, vga, vga.cells
      ensures Valid()
      ensures Abs() == Delete(old(Abs()), count)
      ensures old(inputSize) == 0 && scroll == old(scroll) ==> unchanged(data) && unchanged(vga.cells)
    {
      HeadMatches();
      ghost var e := Delete(Abs(), count);
      DeleteOk(Abs(), count);
      assert e.editing && start == |e.before| && |e.text| == inputSize - count && e.cursor == inputCursor;
      hide Valid, Steady, DocOk, TapeOf, Delete, Head, Abs, Pos;
      ReprintAfter(count);
      inputSize := inputSize - count;
      Conforms(e);
    }

    /** The cursor moves to the character after or before it. */
    method StepInside(offset: int)
      requires Valid() && 0 <= inputSize && (offset == -1 || offset == 1)
      requires 0 <= inputCursor + offset <= inputSize
      modifies `cx, `cy, `scroll, `inputCursor, `drawn, `placed, vga, vga.cells
      ensures Valid()
      ensures Abs() == Document.Move(old(Abs()), if offset == -1 then Left else Right)
    {
      ghost var e := Document.Move(Abs(), if offset == -1 then Left else Right);
      StepsInside(offset);
      hide Valid, Steady, DocOk, TapeOf, Head, Pos, Abs, MoveTo, Document.Move;
      MoveCursor(offset);
      inputCursor := inputCursor + offset;
      Conforms(e);
    }

    lemma StepsInside(offset: int)
      requires Valid() && 0 <= inputSize && (offset == -1 || offset == 1)
      requires 0 <= inputCursor + offset <= inputSize
      ensures start <= |page| && Steady()
      ensures 0 <= Pos() + offset <= |page|
      ensures (dropped + scroll) * 80 <= Pos() + offset < (dropped + H) * 80
      ensures
        var e := Document.Move(Abs(), if offset == -1 then Left else Right);
        && DocOk(e) && MoveTo(Head(), Pos() + offset) == TapeOf(e)
        && start == |e.before| && e.editing && inputSize == |e.text| && inputCursor + offset == e.cursor
    {
      var d := Abs();
      HeadMatches();
      MoveOk(d, if offset == -1 then Left else Right);
      StepPrints(d, offset);
      hide DocOk, Grid, Mirrored, CursorShown, MoveTo, Document.Move, Shown, Tape.Ok;
    }

    /** The view moves one row, up or down, the cursor staying below its top. */
    method ShiftView(down: bool)
      requires Steady()
      requires if down then scroll + 25 < H && scroll < cy else 0 < scroll
      modifies `scroll, `drawn, `placed, vga, vga.cells
      ensures Steady()
      ensures Head().window == old(Head()).window.(scroll := if down then old(scroll) + 1 else old(scroll) - 1)
      ensures Head() == Tape(page, Pos(), Head().window, true, true)
      ensures scroll != old(scroll)
    {
      hide Grid, Mirrored, CursorShown;
      if down {
        ScrollDown();
      } else {
        ScrollUp();
      }
      drawn, placed := true, true;
    }

    /** An Up or Down move scrolls the view, if it can. */
    method ScrollView(down: bool)
      requires Valid() && 0 <= inputSize && Editable(Abs())
      modifies `scroll, `drawn, `placed, vga, vga.cells
      ensures Valid()
      ensures Abs() == Document.Move(old(Abs()), if down then Down else Up)
      ensures scroll == old(scroll) ==> unchanged(vga.cells)
    {
      HeadMatches();
      MoveOk(Abs(), if down then Down else Up);
      ScrollPrints(Abs(), down);
      assert cy == Abs().window.Row(Abs().Pos());
      hide Valid, Sound, Steady, DocOk, Editable, Document.Move;
      if if down then scroll + 25 < H && cy >= scroll + 25 else scroll > 0 {
        ShiftView(down);
        Conforms(Document.Move(old(Abs()), if down then Down else Up));
      }
    }

    method Move(direction: Direction)
      requires Valid()
      requires inputSize >= 0 ==> Editable(Abs())
      modifies `cx, `cy, `scroll, `inputCursor, `drawn, `placed, vga, vga.cells
      ensures Valid()
      ensures Abs() == Document.Move(old(Abs()), direction)
      ensures old(inputSize) == 0 && scroll == old(scroll) ==> unchanged(vga.cells)
    {
      if inputSize < 0 {
        return;
      }
      match direction
      case Up => ScrollView(false);
      case Down => ScrollView(true);
      case Left =>
        if inputCursor > 0 {
          StepInside(-1);
        }
      case Right =>
        if inputCursor < inputSize {
          StepInside(1);
        }
    }

    // ---- Output ----

    method PutcOutput(c: char)
      requires Valid() && start == |page|
      modifies `cx, `cy, `scroll, `page, `dropped, `start, `drawn, `placed, data, vga, vga.cells
      ensures Valid() && start == |page|
      ensures Abs() == Put(old(Abs()), c)
    {
      hide Valid, Sound, Steady, DocOk, Print, Window.Reach;
      ghost var d := Abs();
      HeadMatches();
      PutOk(d, c);
      PutPrints(d, c);
      Putc(c);
      start := |page|;
      Conforms(Put(d, c));
    }

    method PutsOutput(message: string)
      requires Valid() && start == |page|
      modifies `cx, `cy, `scroll, `page, `dropped, `start, `drawn, `placed, data, vga, vga.cells
      ensures Valid() && start == |page|
      ensures Abs() == Puts(old(Abs()), message)
    {
      for index := 0 to |message|
        invariant Valid() && start == |page|
        invariant Puts(Abs(), message[index..]) == Puts(old(Abs()), message)
      {
        assert message[index..][1..] == message[index + 1..];
        PutcOutput(message[index]);
      }
    }

    method PutPrompt()
      requires Valid() && start == |page|
      modifies `cx, `cy, `scroll, `page, `dropped, `start, `drawn, `placed, data, vga, vga.cells
      ensures Valid() && start == |page|
      ensures Abs() == Prompt(old(Abs()))
    {
      PutcOutput('$');
      PutcOutput(' ');
    }

    /** Every cell becomes a blank and the cursor goes home; the display is left as it is. */
    method BlankBuffer()
      requires Shape()
      modifies data
      ensures forall i | 0 <= i < H * 80 :: data[i] == Cell(' ', fg, bg)
    {
      for x := 0 to 80
        invariant forall i | 0 <= i < H * 80 && i % 80 < x :: data[i] == Cell(' ', fg, bg)
      {
        for y := 0 to H
          invariant forall i | 0 <= i < H * 80 && (i % 80 < x || (i % 80 == x && i / 80 < y)) ::
            data[i] == Cell(' ', fg, bg)
        {
          data[y * 80 + x] := Cell(' ', fg, bg);
        }
      }
    }

    method Clear()
      requires Shape()
      modifies `cx, `cy, `scroll, `inputSize, `inputCursor, `page, `dropped, `start, `drawn, `placed, data
      ensures Valid() && start == |page|
      ensures Abs() == Document.Clear(H)
      ensures Mirrored() <==> forall i | 0 <= i < 25 * 80 :: vga.cells[i] == Cell(' ', fg, bg)
    {
      BlankBuffer();
      cx, cy, scroll, inputSize, inputCursor := 0, 0, 0, 0, 0;
      page, dropped, start, drawn, placed := [], 0, 0, false, false;
    }

    /** The print head at the end of the input. */
    ghost function HeadAtEnd(): Tape
      reads this
    {
      if inputSize > 0 then MoveTo(Head(), |page|) else Head()
    }

    lemma EndReached()
      requires Valid()
      ensures Steady() && start <= |page|
      ensures inputSize > 0 ==>
        && Pos() + inputSize - inputCursor == |page|
        && (dropped + scroll) * 80 <= |page| < (dropped + H) * 80
      ensures
        var t := HeadAtEnd();
        && t.page == page == Abs().Page() && t.pos == |page| && t.window == AtEnd(Abs())
        && (drawn ==> t.drawn)
        && Print(t, '\n') == TapeOf(Document.BeginOutput(Abs()))
    {
      HeadMatches();
      InputInWindow(Abs(), Abs().End());
      BeginOutputPrints(Abs());
      hide Grid, Mirrored, CursorShown, Window.Reach, Print, Document.BeginOutput;
    }

    /** The cursor goes to the end of the input. */
    method GoToEnd()
      requires Valid()
      modifies `cx, `cy, `scroll, `drawn, `placed, vga, vga.cells
      ensures Steady()
      ensures Head() == old(HeadAtEnd())
    {
      EndReached();
      hide Valid, Steady, MoveTo, Head, Print, Document.BeginOutput, AtEnd;
      if inputSize > 0 {
        MoveCursor(inputSize - inputCursor);
      }
    }

    lemma ShownMirrors()
      requires Steady()
      ensures drawn ==> Mirrored()
      ensures cx == Pos() % 80
    {
    }

    /** The cursor goes to the end of the input, then to a new row. */
    method LeaveInput()
      requires Valid()
      modifies `cx, `cy, `scroll, `page, `dropped, `drawn, `placed, data, vga, vga.cells
      ensures Steady()
      ensures Head() == TapeOf(Document.BeginOutput(old(Abs())))
      ensures old(drawn) && Shifts(old(Abs())) ==> (Mirrored() <==> LooksSame(old(Abs())))
    {
      hide Valid, Sound, Steady, Mirrored, Shown, HeadAtEnd;
      hide TapeOf, Print, RowsRepeat, ShiftsUnseen, AtEnd, Document.BeginOutput;
      EndReached();
      GoToEnd();
      ShownMirrors();
      Putc('\n');
    }

    /**
     Output begins. Where rows shift without being redrawn, a display that was right still is
     exactly if the rows in view repeat.
     */
    method BeginOutput()
      requires Valid()
      modifies `cx, `cy, `scroll, `inputSize, `page, `dropped, `start, `drawn, `placed, data, vga, vga.cells
      ensures Valid() && start == |page|
      ensures Abs() == Document.BeginOutput(old(Abs()))
      ensures old(drawn) && Shifts(old(Abs())) ==> (Mirrored() <==> LooksSame(old(Abs())))
    {
      HeadMatches();
      BeginOutputOk(Abs());
      hide Valid, Sound, Steady, DocOk, TapeOf, Shifts, LooksSame, Mirrored;
      LeaveInput();
      inputSize := -1;
      start := |page|;
      Conforms(Document.BeginOutput(old(Abs())));
    }

    /** Starts a new row, unless the cursor is at the start of one. */
    method EndRow()
      requires Valid() && start == |page|
      modifies `cx, `cy, `scroll, `page, `dropped, `start, `drawn, `placed, data, vga, vga.cells
      ensures Valid() && start == |page|
      ensures Abs() == if old(Abs()).Start() % 80 != 0 then Newline(old(Abs())) else old(Abs())
      ensures old(cx) == 0 ==> unchanged(vga.cells) && unchanged(data) && scroll == old(scroll)
    {
      HeadMatches();
      assert cx == Pos() % 80;
      hide Valid, Sound, Steady, DocOk, Newline;
      if cx != 0 {
        PutcOutput('\n');
      }
    }

    method EndOutput(showPrompt: bool)
      requires Valid() && start == |page|
      modifies `cx, `cy, `scroll, `inputSize, `inputCursor, `page, `dropped, `start, `drawn, `placed
      modifies data, vga, vga.cells
      ensures Valid() && start == |page|
      ensures Abs() == Document.EndOutput(old(Abs()), showPrompt)
      ensures !showPrompt && old(cx) == 0 ==> Mirrored() == old(Mirrored())
    {
      HeadMatches();
      EndOutputOk(Abs(), showPrompt);
      hide Valid, Sound, Steady, DocOk, Editable, Newline, Prompt, Mirrored;
      EndRow();
      if showPrompt {
        PutPrompt();
      }
      OpenField();
    }

    /** An empty input field opens at the cursor. */
    method OpenField()
      requires Valid() && start == |page| && Editable(Field(Abs()))
      modifies `inputSize, `inputCursor
      ensures Valid() && start == |page|
      ensures Abs() == Field(old(Abs()))
    {
      ghost var d := Field(Abs());
      HeadMatches();
      hide Valid, Sound, Steady, DocOk;
      inputSize := 0;
      inputCursor := 0;
      Conforms(d);
    }

    /** Draws the whole view and the cursor, as when the screen becomes the displayed one. */
    method Show()
      requires Sound()
      modifies `drawn, `placed, vga, vga.cells
      ensures Valid()
      ensures Abs() == Redraw(old(Abs()))
    {
      assert DocOk(Redraw(Abs())) && Redraw(Abs()).Pos() == Pos();
      hide Grid, Mirrored, DocOk;
      PutScreen();
      vga.PutCursor(cx, YToVga(cy));
      drawn, placed := true, true;
      assert Abs() == Redraw(old(Abs()));
    }

    /** The screen counts as set up from now on. */
    method MarkInitialized()
      requires Valid()
      modifies `initialized
      ensures Valid() && Sound() && initialized
      ensures Abs() == old(Abs())
    {
      hide Buffer, DocOk, Mirrored, CursorShown;
      initialized := true;
    }

    /** What is drawn is the view of the page, in the colors of the screen. */
    lemma PictureShown()
      requires Valid() && drawn
      ensures forall i | 0 <= i < 25 * 80 :: vga.cells[i] == Cell(InView(Abs(), i), fg, bg)
    {
      MirrorsPage();
      assert Abs().Page() == page;
    }

    /** The hardware cursor stands on the cell of the view that shows the page position of the cursor. */
    lemma CursorOnPage()
      requires Valid() && placed
      ensures vga.cursorHigh * 256 + vga.cursorLow == Abs().Pos() - (dropped + scroll) * 80
    {
      assert scroll <= cy < H && Pos() == Abs().Pos();
      assert (cy - scroll) % 256 == cy - scroll;
    }
  }
}
