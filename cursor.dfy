/**
 * The terminal cursor (cnc_cursor): a 1-based (row, col) position inside
 * a max_row x max_col screen.  Horizontal moves may wrap to the
 * neighbouring row, and vertical moves happen at all, only when
 * `change_rows` is set.
 */
module Cursor {

  /** The fields of a cnc_cursor, as a value. */
  datatype Pos = Pos(row: nat, col: nat, maxRow: nat, maxCol: nat, changeRows: bool)

  /** The guard every move checks first: the position lies on the screen. */
  predicate OnScreen(p: Pos)
  {
    0 < p.row <= p.maxRow && 0 < p.col <= p.maxCol
  }

  /** Reading order of a position on the screen: 0 for (1, 1), then left to right, top to bottom. */
  function Linear(p: Pos): int
  {
    (p.row - 1) * p.maxCol + (p.col - 1)
  }

  /** cc_move_down on a value: one row down, only with change_rows and below the last row. */
  function MovedDown(p: Pos): (r: (bool, Pos))
    ensures r.0 <==> OnScreen(p) && p.changeRows && p.row < p.maxRow
    ensures r.0 ==> r.1 == p.(row := p.row + 1) && OnScreen(r.1)
    ensures !r.0 ==> r.1 == p
  {
    if !OnScreen(p) then (false, p)
    else if p.row < p.maxRow && p.changeRows then (true, p.(row := p.row + 1))
    else (false, p)
  }

  /** cc_move_up on a value: one row up, only with change_rows and below the first row. */
  function MovedUp(p: Pos): (r: (bool, Pos))
    ensures r.0 <==> OnScreen(p) && p.changeRows && p.row > 1
    ensures r.0 ==> r.1 == p.(row := p.row - 1) && OnScreen(r.1)
    ensures !r.0 ==> r.1 == p
  {
    if !OnScreen(p) then (false, p)
    else if p.row > 1 && p.changeRows then (true, p.(row := p.row - 1))
    else (false, p)
  }

  /** cc_move_left on a value: one column left, wrapping to the end of the previous row. */
  function MovedLeft(p: Pos): (r: (bool, Pos))
    ensures r.0 <==> OnScreen(p) && (p.col > 1 || (p.changeRows && p.row > 1))
    ensures r.0 && p.col > 1 ==> r.1 == p.(col := p.col - 1)
    ensures r.0 && p.col == 1 ==> r.1 == p.(row := p.row - 1, col := p.maxCol)
    ensures !r.0 ==> r.1 == p
  {
    if !OnScreen(p) then (false, p)
    else if p.col == 1 then
      if p.changeRows && p.row > 1 then (true, p.(col := p.maxCol, row := p.row - 1))
      else (false, p)
    else (true, p.(col := p.col - 1))
  }

  /** cc_move_right on a value: one column right, wrapping to the start of the next row. */
  function MovedRight(p: Pos): (r: (bool, Pos))
    ensures r.0 <==> OnScreen(p) && (p.col < p.maxCol || (p.changeRows && p.row < p.maxRow))
    ensures r.0 && p.col < p.maxCol ==> r.1 == p.(col := p.col + 1)
    ensures r.0 && p.col == p.maxCol ==> r.1 == p.(row := p.row + 1, col := 1)
    ensures !r.0 ==> r.1 == p
  {
    if !OnScreen(p) then (false, p)
    else if p.col == p.maxCol then
      if p.changeRows && p.row < p.maxRow then (true, p.(col := 1, row := p.row + 1))
      else (false, p)
    else (true, p.(col := p.col + 1))
  }

  /** cc_set_position on a value: commits only a position on the screen. */
  function Positioned(p: Pos, row: nat, col: nat): (r: (bool, Pos))
    ensures r.0 <==> 0 < row <= p.maxRow && 0 < col <= p.maxCol
    ensures r.0 ==> r.1 == p.(row := row, col := col) && OnScreen(r.1)
    ensures !r.0 ==> r.1 == p
  {
    if row > 0 && col > 0 && row <= p.maxRow && col <= p.maxCol then (true, p.(row := row, col := col))
    else (false, p)
  }

  /** cc_setup on a value: both maxima positive, cursor home; change_rows is not touched. */
  function SetUp(p: Pos, maxRow: nat, maxCol: nat): (r: (bool, Pos))
    ensures r.0 <==> maxRow > 0 && maxCol > 0
    ensures r.0 ==> r.1 == Pos(1, 1, maxRow, maxCol, p.changeRows) && OnScreen(r.1) && Linear(r.1) == 0
    ensures !r.0 ==> r.1 == p
  {
    if maxRow > 0 && maxCol > 0 then (true, Pos(1, 1, maxRow, maxCol, p.changeRows))
    else (false, p)
  }

  /** Every move keeps a cursor on the screen and never touches the maxima or change_rows. */
  lemma MovesStayOnScreen(p: Pos)
    requires OnScreen(p)
    ensures OnScreen(MovedDown(p).1) && OnScreen(MovedUp(p).1)
    ensures OnScreen(MovedLeft(p).1) && OnScreen(MovedRight(p).1)
    ensures MovedLeft(p).1.maxRow == p.maxRow && MovedLeft(p).1.maxCol == p.maxCol
    ensures MovedRight(p).1.changeRows == p.changeRows
  {
  }

  /** A successful horizontal move steps exactly one place in reading order, wrap included. */
  lemma HorizontalMovesStepOne(p: Pos)
    requires OnScreen(p)
    ensures MovedRight(p).0 ==> Linear(MovedRight(p).1) == Linear(p) + 1
    ensures MovedLeft(p).0 ==> Linear(MovedLeft(p).1) == Linear(p) - 1
  {
    if MovedRight(p).0 && p.col == p.maxCol {
      calc {
        Linear(MovedRight(p).1);
        p.row * p.maxCol;
        (p.row - 1) * p.maxCol + p.maxCol;
      }
    }
    if MovedLeft(p).0 && p.col == 1 {
      calc {
        Linear(MovedLeft(p).1);
        (p.row - 2) * p.maxCol + (p.maxCol - 1);
        (p.row - 1) * p.maxCol - 1;
      }
    }
  }

  /** A successful vertical move steps one whole row in reading order. */
  lemma VerticalMovesStepOneRow(p: Pos)
    requires OnScreen(p)
    ensures MovedDown(p).0 ==> Linear(MovedDown(p).1) == Linear(p) + p.maxCol
    ensures MovedUp(p).0 ==> Linear(MovedUp(p).1) == Linear(p) - p.maxCol
  {
    if MovedDown(p).0 {
      assert p.row * p.maxCol == (p.row - 1) * p.maxCol + p.maxCol;
    }
    if MovedUp(p).0 {
      assert (p.row - 2) * p.maxCol == (p.row - 1) * p.maxCol - p.maxCol;
    }
  }

  /** Left undoes a successful right and right undoes a successful left. */
  lemma LeftRightInverse(p: Pos)
    ensures MovedRight(p).0 ==> MovedLeft(MovedRight(p).1) == (true, p)
    ensures MovedLeft(p).0 ==> MovedRight(MovedLeft(p).1) == (true, p)
  {
  }

  /** Up undoes a successful down and down undoes a successful up. */
  lemma UpDownInverse(p: Pos)
    ensures MovedDown(p).0 ==> MovedUp(MovedDown(p).1) == (true, p)
    ensures MovedUp(p).0 ==> MovedDown(MovedUp(p).1) == (true, p)
  {
  }

  /** Without change_rows the row never changes. */
  lemma FixedRow(p: Pos)
    requires !p.changeRows
    ensures MovedDown(p) == (false, p) && MovedUp(p) == (false, p)
    ensures MovedLeft(p).1.row == p.row && MovedRight(p).1.row == p.row
  {
  }

  /** A cnc_cursor. */
  class Cursor {
    var maxRow: nat
    var maxCol: nat
    var changeRows: bool
    var row: nat
    var col: nat

    function State(): Pos
      reads this
    {
      Pos(row, col, maxRow, maxCol, changeRows)
    }

    /** A zero-filled cursor, as inside a freshly zeroed terminal. */
    constructor ()
      ensures State() == Pos(0, 0, 0, 0, false)
    {
      maxRow, maxCol, changeRows, row, col := 0, 0, false, 0, 0;
    }

    /** cc_move_down */
    method MoveDown() returns (ok: bool)
      modifies this
      ensures (ok, State()) == MovedDown(old(State()))
    {
      if row == 0 || col == 0 || row > maxRow || col > maxCol {
        return false;
      }
      if row < maxRow && changeRows {
        row := row + 1;
        return true;
      }
      return false;
    }

    /** cc_move_left */
    method MoveLeft() returns (ok: bool)
      modifies this
      ensures (ok, State()) == MovedLeft(old(State()))
    {
      if row == 0 || col == 0 || row > maxRow || col > maxCol {
        return false;
      }
      if col == 1 {
        if changeRows && row > 1 {
          col := maxCol;
          row := row - 1;
          return true;
        }
        return false;
      }
      col := col - 1;
      return true;
    }

    /** cc_move_right */
    method MoveRight() returns (ok: bool)
      modifies this
      ensures (ok, State()) == MovedRight(old(State()))
    {
      if row == 0 || col == 0 || row > maxRow || col > maxCol {
        return false;
      }
      if col == maxCol {
        if changeRows && row < maxRow {
          col := 1;
          row := row + 1;
          return true;
        }
        return false;
      }
      col := col + 1;
      return true;
    }

    /** cc_move_up */
    method MoveUp() returns (ok: bool)
      modifies this
      ensures (ok, State()) == MovedUp(old(State()))
    {
      if row == 0 || col == 0 || row > maxRow || col > maxCol {
        return false;
      }
      if row > 1 && changeRows {
        row := row - 1;
        return true;
      }
      return false;
    }

    /** cc_set_position */
    method SetPosition(newRow: nat, newCol: nat) returns (ok: bool)
      modifies this
      ensures (ok, State()) == Positioned(old(State()), newRow, newCol)
    {
      if newRow > 0 && newCol > 0 && newRow <= maxRow && newCol <= maxCol {
        row := newRow;
        col := newCol;
        return true;
      }
      return false;
    }

    /** cc_setup */
    method Setup(newMaxRow: nat, newMaxCol: nat) returns (ok: bool)
      modifies this
      ensures (ok, State()) == SetUp(old(State()), newMaxRow, newMaxCol)
    {
      if newMaxRow > 0 && newMaxCol > 0 {
        maxRow := newMaxRow;
        maxCol := newMaxCol;
        row := 1;
        col := 1;
        return true;
      }
      return false;
    }
  }
}
