/** Board algorithms shared by both revisions of the engine: cell labels,
    the empty board, the collision test's meaning, stamping a piece onto a
    copy of a board, and clearing full rows. */
module Grid {

  /** A cell label: a piece-type identifier, or Empty. */
  type Cell = string

  const Empty: Cell := ""

  type Row = seq<Cell>

  /** A grid of cell labels, row-major, row 0 at the top. Boards and piece
      shapes are both grids; rows need not all have the same length. */
  type Matrix = seq<Row>

  type Board = Matrix

  type Shape = Matrix

  /** Column x and row y of a piece shape's top-left corner on the board. */
  datatype Pos = Pos(x: int, y: int)

  /** `new Array(width).fill("")` */
  function Blank(width: nat): (r: Row)
    ensures |r| == width
    ensures forall c :: 0 <= c < width ==> r[c] == Empty
  {
    seq(width, _ => Empty)
  }

  /** generateDefaultBoard: `height` rows, each of `width` empty cells. */
  function DefaultBoard(height: nat, width: nat): (b: Board)
    ensures |b| == height
    ensures forall r :: 0 <= r < height ==> |b[r]| == width
    ensures forall r, c :: 0 <= r < height && 0 <= c < width ==> b[r][c] == Empty
  {
    seq(height, _ => Blank(width))
  }

  /** Board cell (r, c) cannot take a piece cell: it is outside the board
      (JavaScript reads `undefined` there) or it already holds a label. */
  predicate Blocked(b: Board, r: int, c: int) {
    !(0 <= r < |b| && 0 <= c < |b[r]|) || b[r][c] != Empty
  }

  /** Shape cell (i, j) exists and is not empty. */
  predicate PieceCellAt(s: Shape, i: int, j: int) {
    0 <= i < |s| && 0 <= j < |s[i]| && s[i][j] != Empty
  }

  /** The meaning of checkCollision: some non-empty cell of `s`, placed with
      its top-left corner at column x, row y, lands on a blocked cell. */
  predicate Collides(b: Board, s: Shape, x: int, y: int) {
    exists i, j :: 0 <= i < |s| && 0 <= j < |s[i]| && s[i][j] != Empty && Blocked(b, i + y, j + x)
  }

  /** The shape has at least one non-empty cell. */
  predicate HasCell(s: Shape) {
    exists i, j :: 0 <= i < |s| && 0 <= j < |s[i]| && s[i][j] != Empty
  }

  /** What the stamped board shows at board cell (r, c). */
  function StampedAt(b: Board, s: Shape, x: int, y: int, r: nat, c: nat): Cell
    requires r < |b| && c < |b[r]|
  {
    if PieceCellAt(s, r - y, c - x) then s[r - y][c - x] else b[r][c]
  }

  /** The board with the piece's non-empty cells stamped at (x, y): every
      cell under a non-empty piece cell holds that piece cell's label, every
      other cell keeps the board's label. Piece cells outside the board are
      not written. */
  function Overlay(b: Board, s: Shape, x: int, y: int): (o: Board)
    ensures |o| == |b|
    ensures forall r :: 0 <= r < |b| ==> |o[r]| == |b[r]|
  {
    seq(|b|, r requires 0 <= r < |b| =>
      seq(|b[r]|, c requires 0 <= c < |b[r]| => StampedAt(b, s, x, y, r, c)))
  }

  /** StampedAt restricted to the piece cells already written by a
      row-major scan that has finished rows before `i` and, in row `i`, the
      columns before `j`. */
  function StampedUpTo(b: Board, s: Shape, x: int, y: int, i: int, j: int, r: nat, c: nat): Cell
    requires r < |b| && c < |b[r]|
  {
    if PieceCellAt(s, r - y, c - x) && (r - y < i || (r - y == i && c - x < j))
    then s[r - y][c - x]
    else b[r][c]
  }

  /** Same number of rows, and each row the same length. */
  predicate SameDims(a: Board, b: Board) {
    |a| == |b| && forall r :: 0 <= r < |a| ==> |a[r]| == |b[r]|
  }

  /** The loop of getBoardWithPlayer: copy the board, then walk the shape
      row by row and write each non-empty cell at its board position. */
  method StampPiece(b: Board, s: Shape, x: int, y: int) returns (o: Board)
    ensures o == Overlay(b, s, x, y)
  {
    o := b;
    var i := 0;
    while i < |s|
      invariant 0 <= i <= |s|
      invariant SameDims(o, b)
      invariant forall r, c :: 0 <= r < |b| && 0 <= c < |b[r]| ==> o[r][c] == StampedUpTo(b, s, x, y, i, 0, r, c)
    {
      var j := 0;
      while j < |s[i]|
        invariant 0 <= j <= |s[i]|
        invariant SameDims(o, b)
        invariant forall r, c :: 0 <= r < |b| && 0 <= c < |b[r]| ==> o[r][c] == StampedUpTo(b, s, x, y, i, j, r, c)
      {
        var r, c := i + y, j + x;
        if s[i][j] != Empty && 0 <= r < |o| && 0 <= c < |o[r]| {
          o := o[r := o[r][c := s[i][j]]];
        }
        j := j + 1;
      }
      i := i + 1;
    }
    assert forall r :: 0 <= r < |b| ==> o[r] == Overlay(b, s, x, y)[r];
  }

  /** Stamping never changes a cell that no non-empty piece cell covers. */
  lemma OverlayKeepsUncovered(b: Board, s: Shape, x: int, y: int, r: nat, c: nat)
    requires r < |b| && c < |b[r]|
    requires !PieceCellAt(s, r - y, c - x)
    ensures Overlay(b, s, x, y)[r][c] == b[r][c]
  {
  }

  /** A piece placed where it does not collide never overwrites a placed
      label: every non-empty cell of the board survives the stamp, and every
      cell the piece covers was empty before. */
  lemma OverlayOnlyFillsEmpty(b: Board, s: Shape, x: int, y: int)
    requires !Collides(b, s, x, y)
    ensures forall r, c :: 0 <= r < |b| && 0 <= c < |b[r]| && b[r][c] != Empty ==>
      Overlay(b, s, x, y)[r][c] == b[r][c]
    ensures forall i, j :: PieceCellAt(s, i, j) ==>
      0 <= i + y < |b| && 0 <= j + x < |b[i + y]| && b[i + y][j + x] == Empty
  {
    forall r, c | 0 <= r < |b| && 0 <= c < |b[r]| && b[r][c] != Empty
      ensures Overlay(b, s, x, y)[r][c] == b[r][c]
    {
      if PieceCellAt(s, r - y, c - x) {
        assert Blocked(b, (r - y) + y, (c - x) + x);
        assert false;
      }
    }
  }

  /** After stamping, the piece collides with itself at the same place: the
      cells it was drawn into are no longer free. */
  lemma OverlayBlocksPiece(b: Board, s: Shape, x: int, y: int)
    requires HasCell(s)
    ensures Collides(Overlay(b, s, x, y), s, x, y)
  {
    var i, j :| 0 <= i < |s| && 0 <= j < |s[i]| && s[i][j] != Empty;
    var o := Overlay(b, s, x, y);
    if 0 <= i + y < |b| && 0 <= j + x < |b[i + y]| {
      assert o[i + y][j + x] == s[i][j];
    }
    assert Blocked(o, i + y, j + x);
  }

  /** A shape with no non-empty cell leaves the board as it is. */
  lemma OverlayEmptyShape(b: Board, s: Shape, x: int, y: int)
    requires !HasCell(s)
    ensures Overlay(b, s, x, y) == b
  {
    var o := Overlay(b, s, x, y);
    forall r | 0 <= r < |b| ensures o[r] == b[r] {
      forall c | 0 <= c < |b[r]| ensures o[r][c] == b[r][c] {
        assert !PieceCellAt(s, r - y, c - x);
      }
    }
  }

  // ---------------------------------------------------------------------
  // Clearing full rows

  /** A row is full when no cell of it is empty (`findIndex(cell === "")`
      finds nothing). A row of length 0 is full. */
  predicate IsFull(row: Row) {
    forall c :: 0 <= c < |row| ==> row[c] != Empty
  }

  /** The rows that are not full, in their original order. */
  function Kept(b: Board): seq<Row>
    decreases |b|
  {
    if b == [] then []
    else Kept(b[..|b| - 1]) + (if IsFull(b[|b| - 1]) then [] else [b[|b| - 1]])
  }

  /** The indices of the full rows, from the top down. */
  function FullRows(b: Board): seq<nat>
    decreases |b|
  {
    if b == [] then []
    else FullRows(b[..|b| - 1]) + (if IsFull(b[|b| - 1]) then [|b| - 1] else [])
  }

  /** `k` empty rows of the given width. */
  function Blanks(k: nat, width: nat): seq<Row> {
    seq(k, _ => Blank(width))
  }

  /** The width used for inserted rows: that of row 0. */
  function TopWidth(b: Board): nat {
    if b == [] then 0 else |b[0]|
  }

  /** The board after handleClearedRows: one empty row at the top for each
      full row, followed by the rows that were not full. */
  function ClearRows(b: Board): Board {
    Blanks(|FullRows(b)|, TopWidth(b)) + Kept(b)
  }

  /** The reduce of handleClearedRows: walk the rows in order; a full row is
      dropped, its index recorded and an empty row put at the front of the
      accumulator (`unshift`); any other row goes to its back (`push`). */
  method ClearFullRows(b: Board) returns (o: Board, rows: seq<nat>)
    ensures o == ClearRows(b)
    ensures rows == FullRows(b)
  {
    o, rows := [], [];
    var i := 0;
    while i < |b|
      invariant 0 <= i <= |b|
      invariant rows == FullRows(b[..i])
      invariant o == Blanks(|rows|, TopWidth(b)) + Kept(b[..i])
    {
      assert b[..i + 1][..i] == b[..i];
      if IsFull(b[i]) {
        rows := rows + [i];
        o := [Blank(|b[0]|)] + o;
        assert [Blank(|b[0]|)] + Blanks(|rows| - 1, TopWidth(b)) == Blanks(|rows|, TopWidth(b));
      } else {
        o := o + [b[i]];
      }
      i := i + 1;
    }
    assert b[..|b|] == b;
  }

  /** Every row is either kept or cleared. */
  lemma {:induction false} KeptAndFullPartition(b: Board)
    ensures |Kept(b)| + |FullRows(b)| == |b|
    decreases |b|
  {
    if b != [] {
      KeptAndFullPartition(b[..|b| - 1]);
    }
  }

  /** FullRows lists exactly the full rows' indices, in ascending order. */
  lemma {:induction false} FullRowsExact(b: Board)
    ensures forall k :: 0 <= k < |FullRows(b)| ==> FullRows(b)[k] < |b| && IsFull(b[FullRows(b)[k]])
    ensures forall k, l :: 0 <= k < l < |FullRows(b)| ==> FullRows(b)[k] < FullRows(b)[l]
    ensures forall r :: 0 <= r < |b| ==> (IsFull(b[r]) <==> r in FullRows(b))
    decreases |b|
  {
    if b != [] {
      var p := b[..|b| - 1];
      FullRowsExact(p);
      assert forall r :: 0 <= r < |p| ==> p[r] == b[r];
    }
  }

  /** No kept row is full. */
  lemma {:induction false} KeptNotFull(b: Board)
    ensures forall k :: 0 <= k < |Kept(b)| ==> !IsFull(Kept(b)[k])
    decreases |b|
  {
    if b != [] {
      KeptNotFull(b[..|b| - 1]);
    }
  }

  /** A board without full rows is kept whole. */
  lemma {:induction false} KeptAll(b: Board)
    requires forall r :: 0 <= r < |b| ==> !IsFull(b[r])
    ensures Kept(b) == b
    ensures FullRows(b) == []
    decreases |b|
  {
    if b != [] {
      var p := b[..|b| - 1];
      assert forall r :: 0 <= r < |p| ==> p[r] == b[r];
      KeptAll(p);
      assert b == p + [b[|b| - 1]];
      assert Kept(b) == Kept(p) + [b[|b| - 1]];
    }
  }

  /** The shape of a cleared board: the row count is unchanged, the first k
      rows are empty (k the number of full rows), and the rest are the rows
      that were not full, in order. */
  lemma ClearRowsShape(b: Board)
    ensures |ClearRows(b)| == |b|
    ensures forall r :: 0 <= r < |FullRows(b)| ==> ClearRows(b)[r] == Blank(TopWidth(b))
    ensures ClearRows(b)[|FullRows(b)|..] == Kept(b)
  {
    KeptAndFullPartition(b);
    assert ClearRows(b)[|FullRows(b)|..] == Kept(b);
  }

  /** Clearing a board without full rows changes nothing. */
  lemma ClearRowsNoFull(b: Board)
    requires forall r :: 0 <= r < |b| ==> !IsFull(b[r])
    ensures ClearRows(b) == b
  {
    KeptAll(b);
  }

  /** Clearing twice is clearing once, as long as inserted rows are not
      themselves full (row 0 has at least one cell). */
  lemma ClearRowsIdempotent(b: Board)
    requires b != [] ==> |b[0]| > 0
    ensures ClearRows(ClearRows(b)) == ClearRows(b)
  {
    var o := ClearRows(b);
    var k := |FullRows(b)|;
    ClearRowsShape(b);
    KeptNotFull(b);
    forall r | 0 <= r < |o| ensures !IsFull(o[r]) {
      if r < k {
        assert o[r] == Blank(TopWidth(b));
        assert o[r][0] == Empty;
      } else {
        assert o[r] == Kept(b)[r - k];
      }
    }
    ClearRowsNoFull(o);
  }
}
