/**
 The print head: the page written so far, the cursor on it, and the window of H rows
 (25 of them in view) that the real buffer keeps of it.
 */
module Tapes {
  import opened Text

  /**
   The part of the page that is kept: rows dropped .. dropped + H - 1 of it, of which the
   25 from row dropped + scroll on are in view.
   */
  datatype Window = Window(H: nat, dropped: nat, scroll: nat) {

    /** Row of the buffer that holds page position p; meaningful once the row is in the buffer. */
    function Row(p: nat): int {
      p / 80 - dropped
    }

    /**
     The window after the cursor has been moved or printed up to position n: rows are
     dropped until n has a row in the buffer, then the view is scrolled down to n.
     */
    function Reach(n: nat): Window {
      var dropped' := Max(dropped, n / 80 - (H - 1));
      Window(H, dropped', Max(scroll, n / 80 - dropped' - 24))
    }
  }

  /**
   drawn:  whether the screen memory is known to show the rows in view
   placed: whether the hardware cursor is known to stand on the cursor cell
   */
  datatype Tape = Tape(page: string, pos: nat, window: Window, drawn: bool, placed: bool) {

    /** The head and the window can stand where they are. */
    predicate Ok() {
      && 25 <= window.H <= 256
      && window.scroll + 25 <= window.H
      && pos <= |page| <= (window.dropped + window.H) * 80
      && window.scroll <= window.Row(pos) < window.H
    }
  }

  /** A run of characters, none of them a newline, printed at the cursor. */
  function PrintChars(t: Tape, s: string): Tape
    requires t.pos <= |t.page|
  {
    if s == [] then t
    else Tape(Overwrite(t.page, t.pos, s), t.pos + |s|, t.window.Reach(t.pos + |s|), true, true)
  }

  /** A newline on the last row of a buffer scrolled to its end shifts rows without redrawing them. */
  predicate ShiftsUnseen(w: Window, pos: nat) {
    w.Row(pos) == w.H - 1 && w.scroll + 25 == w.H
  }

  /**
   Cell i of what the display shows after a newline that shifted the rows without redrawing
   them: the rows from row top on, the 24th of them blanked from column cx on.
   */
  function Stale(page: string, top: nat, cx: nat, i: nat): char {
    if 23 * 80 + cx <= i < 24 * 80 then ' ' else At(page, top * 80 + i)
  }

  /** Whether that is the 25 rows from the next one on. */
  predicate RowsRepeat(page: string, top: nat, cx: nat) {
    forall i | 0 <= i < 25 * 80 :: Stale(page, top, cx, i) == At(page, (top + 1) * 80 + i)
  }

  /** It is not, for one, when the top row shows a character that the row below does not. */
  lemma RowsDiffer(page: string, top: nat, cx: nat, x: nat)
    requires x < 80 && At(page, top * 80 + x) != At(page, (top + 1) * 80 + x)
    ensures !RowsRepeat(page, top, cx)
  {
    assert Stale(page, top, cx, x) != At(page, (top + 1) * 80 + x);
  }

  function PrintNewline(t: Tape): Tape
    requires t.pos <= |t.page|
  {
    var n := NextRow(t.pos);
    var w := t.window.Reach(n);
    Tape(Overwrite(t.page, t.pos, Spaces(n - t.pos)), n, w,
         !ShiftsUnseen(t.window, t.pos) && (t.drawn || w.scroll != t.window.scroll), true)
  }

  function Print(t: Tape, c: char): Tape
    requires t.pos <= |t.page|
  {
    if c == '\n' then PrintNewline(t) else PrintChars(t, [c])
  }

  /** The cursor is taken to position p, and the view follows it. */
  function MoveTo(t: Tape, p: nat): Tape {
    var w := t.window.Reach(p);
    Tape(t.page, p, w, t.drawn || w.scroll != t.window.scroll, true)
  }

  // ---- The window follows the cursor ----

  lemma ReachTwice(w: Window, m: nat, n: nat)
    requires m <= n
    ensures w.Reach(m).Reach(n) == w.Reach(n)
  {
  }

  lemma ReachBack(w: Window, m: nat, n: nat)
    requires m <= n
    ensures w.Reach(n).Reach(m) == w.Reach(n)
  {
  }

  lemma ReachHolds(w: Window, n: nat)
    requires 25 <= w.H
    ensures n < (w.Reach(n).dropped + w.H) * 80
    ensures w.dropped <= w.Reach(n).dropped
  {
  }

  /** Reaching a position at most one row below p keeps the row of p in the buffer and in reach of the view. */
  lemma ReachKeeps(w: Window, p: nat, n: nat)
    requires 25 <= w.H && w.scroll + 25 <= w.H
    requires w.scroll <= w.Row(p) < w.H
    requires p <= n && n / 80 <= p / 80 + 1
    ensures w.Reach(n).scroll <= w.Reach(n).Row(p) < w.H
    ensures w.Reach(n).scroll + 25 <= w.H
  {
  }

  lemma PrintTwice(t: Tape, s: string, s': string)
    requires t.pos <= |t.page|
    ensures PrintChars(PrintChars(t, s), s') == PrintChars(t, s + s')
  {
    OverwriteTwice(t.page, t.pos, s, s');
    ReachTwice(t.window, t.pos + |s|, t.pos + |s| + |s'|);
    if s == [] {
      assert s + s' == s';
    } else if s' == [] {
      assert s + s' == s;
    }
  }

  /** Printing at most to the next row and going back keeps the cursor in the buffer and in view of it. */
  lemma PrintAndBackOk(t: Tape, s: string)
    requires t.Ok() && (t.pos + |s|) / 80 <= t.pos / 80 + 1
    ensures MoveTo(PrintChars(t, s), t.pos).Ok()
    ensures MoveTo(PrintChars(t, s), t.pos).window == t.window.Reach(t.pos + |s|)
  {
    var w := t.window.Reach(t.pos + |s|);
    ReachKeeps(t.window, t.pos, t.pos + |s|);
    ReachBack(t.window, t.pos, t.pos + |s|);
    ReachHolds(t.window, t.pos + |s|);
    hide Window.Reach, Overwrite;
    assert MoveTo(PrintChars(t, s), t.pos).window == w;
  }

  /** What a newline does to a window whose buffer row cy holds the cursor. */
  lemma NewlineWindow(w: Window, pos: nat, cy: nat)
    requires 25 <= w.H && w.Row(pos) == cy < w.H
    ensures w.Reach(NextRow(pos)) ==
      if cy == w.H - 1 then Window(w.H, w.dropped + 1, Max(w.scroll, w.H - 25))
      else Window(w.H, w.dropped, Max(w.scroll, cy - 23))
  {
  }

  /** What one more character does to a window whose buffer row cy holds the cursor in column cx. */
  lemma StepWindow(w: Window, pos: nat, cx: nat, cy: nat)
    requires 25 <= w.H && cx < 80 && cy < w.H && pos == (w.dropped + cy) * 80 + cx
    ensures w.Reach(pos + 1) ==
      if cx < 79 then Window(w.H, w.dropped, Max(w.scroll, cy - 24))
      else if cy == w.H - 1 then Window(w.H, w.dropped + 1, Max(w.scroll, w.H - 25))
      else Window(w.H, w.dropped, Max(w.scroll, cy - 23))
  {
  }

  lemma PrintNewlineOk(t: Tape)
    requires t.Ok()
    ensures PrintNewline(t).Ok()
  {
  }

  lemma PrintCharOk(t: Tape, c: char)
    requires t.Ok()
    ensures PrintChars(t, [c]).Ok()
  {
  }

  /** Taking the cursor to a row that is in the buffer and not above the view drops nothing. */
  lemma MoveToOk(t: Tape, p: nat)
    requires t.Ok() && p <= |t.page|
    requires t.window.scroll <= t.window.Row(p) < t.window.H
    ensures MoveTo(t, p).Ok()
    ensures MoveTo(t, p).window == t.window.(scroll := Max(t.window.scroll, t.window.Row(p) - 24))
  {
  }
}
