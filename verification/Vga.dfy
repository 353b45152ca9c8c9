/** The VGA text memory and the hardware cursor. */
module Vga {

  /** A character cell: the character with its foreground and background colors. */
  datatype Cell = Cell(ch: char, fg: nat, bg: nat)

  /** Index of a cell of the text memory. Row and column are 8-bit in the source. */
  function Position(row: nat, column: nat): nat {
    row * 80 + column
  }

  class Display {
    // One cell for every row an 8-bit row number can name; the first 25 rows are visible.
    const cells: array<Cell>
    // The cursor position registers, written one byte at a time.
    var cursorLow: nat
    var cursorHigh: nat

    constructor ()
      ensures fresh(cells) && cells.Length == 256 * 80
    {
      cells := new Cell[256 * 80](_ => Cell(' ', 0, 0));
      cursorLow, cursorHigh := 0, 0;
    }

    function Cursor(): nat
      reads this
    {
      cursorHigh * 256 + cursorLow
    }

    method SetCell(cell: Cell, x: nat, y: nat)
      requires x < 80 && y < 256 && cells.Length == 256 * 80
      modifies cells
      ensures forall i | 0 <= i < cells.Length ::
        cells[i] == if i == Position(y, x) then cell else old(cells[i])
    {
      cells[Position(y, x)] := cell;
    }

    method PutCursor(x: nat, y: nat)
      requires x < 80 && y < 256
      modifies this
      ensures Cursor() == Position(y, x)
    {
      var position := Position(y, x);
      cursorLow := position % 256;
      cursorHigh := position / 256;
    }
  }
}
