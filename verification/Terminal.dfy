/** The part of a terminal that a line editor relies on: one row of cells and a column. */
module Terminal {
  import opened Utf8

  // A blank cell, or one column of a printed character.
  datatype Cell = Blank | Glyph(bytes: seq<Byte>, part: int)

  class Terminal {
    var column: int
    var cells: int -> Cell

    constructor ()
      ensures column == 0 && forall j :: cells(j) == Blank
    {
      column, cells := 0, j => Blank;
    }

    // Prints a character that takes w columns.
    method PutCodepoint(bytes: seq<Byte>, w: nat)
      modifies this
      ensures column == old(column) + w
      ensures forall j :: cells(j) == if old(column) <= j < column then Glyph(bytes, j - old(column)) else old(cells)(j)
    {
      var from, before := column, cells;
      cells := j => if from <= j < from + w then Glyph(bytes, j - from) else before(j);
      column := column + w;
    }

    method PutBlanks(n: nat)
      modifies this
      ensures column == old(column) + n
      ensures forall j :: cells(j) == if old(column) <= j < column then Blank else old(cells)(j)
    {
      var from, before := column, cells;
      cells := j => if from <= j < from + n then Blank else before(j);
      column := column + n;
    }

    method MoveCursor(delta: int)
      modifies this`column
      ensures column == old(column) + delta
    {
      column := column + delta;
    }

    // Goes back one column and prints a one-column character there.
    method ReplaceLast(b: Byte)
      modifies this
      ensures column == old(column)
      ensures forall j :: cells(j) == if j == column - 1 then Glyph([b], 0) else old(cells)(j)
    {
      MoveCursor(-1);
      PutCodepoint([b], 1);
    }
  }
}
