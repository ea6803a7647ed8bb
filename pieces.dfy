/** The piece catalog and the 90-degree rotation of a shape. */
module Pieces {
  import opened Grid

  /** A catalog entry: a piece-type identifier and its spawn shape. */
  datatype PieceType = PieceType(key: string, shape: Shape)

  datatype Direction = Left | Right

  function Opposite(d: Direction): (o: Direction)
    ensures o != d
  {
    if d == Left then Right else Left
  }

  /** n rows of n cells, n > 0. */
  predicate IsSquare(s: Shape) {
    |s| > 0 && forall r :: 0 <= r < |s| ==> |s[r]| == |s|
  }

  /** Every row has at least as many cells as there are rows, so that the
      transposition below (which uses the row count for both dimensions)
      reads only cells that exist. */
  predicate WideEnough(s: Shape) {
    forall r :: 0 <= r < |s| ==> |s[r]| >= |s|
  }

  /** `xs.reverse()` on a fresh array. */
  function Reverse<T>(xs: seq<T>): (r: seq<T>)
    ensures |r| == |xs|
    ensures forall i :: 0 <= i < |xs| ==> r[i] == xs[|xs| - 1 - i]
  {
    seq(|xs|, i requires 0 <= i < |xs| => xs[|xs| - 1 - i])
  }

  /** `shape.map((_, i) => shape.map(col => col[i]))`: an n-by-n grid, n the
      row count; cells of longer rows beyond column n are dropped. */
  function Transpose(s: Shape): (t: Shape)
    requires WideEnough(s)
  {
    seq(|s|, i requires 0 <= i < |s| => seq(|s|, j requires 0 <= j < |s| => s[j][i]))
  }

  /** rotate: transpose, then reverse each row (right, clockwise) or reverse
      the order of the rows (left, counter-clockwise). The result is an
      n-by-n grid, n the row count; RotateCell says what its cells are. */
  function Rotate(s: Shape, d: Direction): (r: Shape)
    requires WideEnough(s)
    ensures |r| == |s| && forall i :: 0 <= i < |r| ==> |r[i]| == |s|
  {
    var t := Transpose(s);
    if d == Right then seq(|t|, i requires 0 <= i < |t| => Reverse(t[i])) else Reverse(t)
  }

  /** Cell (i, j) of the rotation is the 90-degree turn of the input's
      top-left n-by-n block: clockwise for Right, counter-clockwise for Left. */
  lemma RotateCell(s: Shape, d: Direction, i: nat, j: nat)
    requires WideEnough(s) && i < |s| && j < |s|
    ensures Rotate(s, d)[i][j] == if d == Right then s[|s| - 1 - j][i] else s[j][|s| - 1 - i]
  {
  }

  /** A square shape stays square under rotation, and a shape whose cells
      carry its own key still does after rotating. */
  lemma RotateSquare(s: Shape, d: Direction, key: string)
    requires IsSquare(s)
    ensures IsSquare(Rotate(s, d))
    ensures LabelsOwnKey(PieceType(key, s)) ==> LabelsOwnKey(PieceType(key, Rotate(s, d)))
  {
    var r := Rotate(s, d);
    var n := |s|;
    if LabelsOwnKey(PieceType(key, s)) {
      forall i, j | 0 <= i < n && 0 <= j < n ensures r[i][j] in {Empty, key} {
        RotateCell(s, d, i, j);
        if d == Right {
          assert r[i][j] == s[n - 1 - j][i];
        } else {
          assert r[i][j] == s[j][n - 1 - i];
        }
      }
    }
  }

  /** Rotating a square shape one way and then the other gives back the
      exact original grid. */
  lemma RotateInverse(s: Shape, d: Direction)
    requires IsSquare(s)
    ensures WideEnough(Rotate(s, d))
    ensures Rotate(Rotate(s, d), Opposite(d)) == s
  {
    var n := |s|;
    var r := Rotate(s, d);
    var back := Rotate(r, Opposite(d));
    forall i | 0 <= i < n ensures back[i] == s[i] {
      forall j | 0 <= j < n ensures back[i][j] == s[i][j] {
        RotateCell(r, Opposite(d), i, j);
        if d == Right {
          RotateCell(s, d, j, n - 1 - i);
        } else {
          RotateCell(s, d, n - 1 - j, i);
        }
      }
    }
  }

  /** One cell of two turns the same way. */
  lemma HalfTurnCell(s: Shape, d: Direction, i: nat, j: nat)
    requires IsSquare(s) && i < |s| && j < |s|
    ensures IsSquare(Rotate(s, d))
    ensures Rotate(Rotate(s, d), d)[i][j] == s[|s| - 1 - i][|s| - 1 - j]
  {
    var n := |s|;
    var r1 := Rotate(s, d);
    assert IsSquare(r1);
    RotateCell(r1, d, i, j);
    if d == Right {
      RotateCell(s, d, n - 1 - j, i);
      assert r1[n - 1 - j][i] == s[n - 1 - i][n - 1 - j];
    } else {
      RotateCell(s, d, j, n - 1 - i);
      assert r1[j][n - 1 - i] == s[n - 1 - i][n - 1 - j];
    }
  }

  /** Two turns the same way are the half turn: HalfTurnCell for every
      cell at once. */
  lemma HalfTurn(s: Shape, d: Direction)
    requires IsSquare(s)
    ensures IsSquare(Rotate(s, d))
    ensures var h := Rotate(Rotate(s, d), d);
            IsSquare(h) && forall i, j :: 0 <= i < |s| && 0 <= j < |s| ==> h[i][j] == s[|s| - 1 - i][|s| - 1 - j]
  {
    RotateSquare(s, d, Empty);
    RotateSquare(Rotate(s, d), d, Empty);
    forall i: nat, j: nat | i < |s| && j < |s| {
      HalfTurnCell(s, d, i, j);
    }
  }

  /** Four rotations in the same direction give back the original grid. */
  lemma RotateFour(s: Shape, d: Direction)
    requires IsSquare(s)
    ensures var h := Rotate(Rotate(s, d), d);
            IsSquare(h) && Rotate(Rotate(h, d), d) == s
  {
    var n := |s|;
    HalfTurn(s, d);
    var h := Rotate(Rotate(s, d), d);
    HalfTurn(h, d);
    var h2 := Rotate(Rotate(h, d), d);
    forall i | 0 <= i < n ensures h2[i] == s[i] {
      forall j | 0 <= j < n ensures h2[i][j] == s[i][j] {
        HalfTurnCell(h, d, i, j);
        HalfTurnCell(s, d, n - 1 - i, n - 1 - j);
      }
    }
  }

  /** A shape with more columns than rows loses the extra columns: rotating
      the one-row shape [A, B] gives [[A]]. */
  lemma RotateDropsExtraColumns()
    ensures Rotate([["A", "B"]], Right) == [["A"]]
    ensures Rotate([["A", "B"]], Left) == [["A"]]
  {
    var s: Shape := [["A", "B"]];
    assert WideEnough(s);
    var r, l := Rotate(s, Right), Rotate(s, Left);
    RotateCell(s, Right, 0, 0);
    RotateCell(s, Left, 0, 0);
    assert r[0] == ["A"] && l[0] == ["A"];
  }

  // ---------------------------------------------------------------------
  // The default catalog

  const IShape: Shape := [["", "", "", ""], ["I", "I", "I", "I"], ["", "", "", ""], ["", "", "", ""]]
  const JShape: Shape := [["J", "", ""], ["J", "J", "J"], ["", "", ""]]
  const LShape: Shape := [["", "", "L"], ["L", "L", "L"], ["", "", ""]]
  const OShape: Shape := [["O", "O"], ["O", "O"]]
  const SShape: Shape := [["", "S", "S"], ["S", "S", ""], ["", "", ""]]
  const TShape: Shape := [["", "T", ""], ["T", "T", "T"], ["", "", ""]]
  const ZShape: Shape := [["Z", "Z", ""], ["", "Z", "Z"], ["", "", ""]]

  /** DEFAULT_PIECE_TYPES, in the key order JavaScript enumerates them. */
  const DefaultPieceTypes: seq<PieceType> := [
    PieceType("I", IShape), PieceType("J", JShape), PieceType("L", LShape), PieceType("O", OShape),
    PieceType("S", SShape), PieceType("T", TShape), PieceType("Z", ZShape)
  ]

  /** Object keys are distinct. */
  predicate DistinctKeys(catalog: seq<PieceType>) {
    forall a, b :: 0 <= a < b < |catalog| ==> catalog[a].key != catalog[b].key
  }

  /** Every non-empty cell of the entry's shape holds the entry's own key. */
  predicate LabelsOwnKey(p: PieceType) {
    forall i, j :: 0 <= i < |p.shape| && 0 <= j < |p.shape[i]| ==> p.shape[i][j] in {Empty, p.key}
  }

  /** `key` names a catalog entry. */
  predicate IsKey(catalog: seq<PieceType>, key: string) {
    exists a :: 0 <= a < |catalog| && catalog[a].key == key
  }

  /** `pieceTypes[key].shape`: the shape of the first entry named `key`. */
  function ShapeOf(catalog: seq<PieceType>, key: string): (s: Shape)
    requires IsKey(catalog, key)
    ensures exists a :: 0 <= a < |catalog| && catalog[a].key == key && catalog[a].shape == s
  {
    if catalog[0].key == key then catalog[0].shape
    else
      assert IsKey(catalog[1..], key) by {
        var a :| 0 <= a < |catalog| && catalog[a].key == key;
        assert catalog[1..][a - 1].key == key;
      }
      ShapeOf(catalog[1..], key)
  }

  /** With distinct keys, looking an entry up by its key gives its shape. */
  lemma {:induction false} ShapeOfEntry(catalog: seq<PieceType>, a: nat)
    requires DistinctKeys(catalog) && a < |catalog|
    ensures IsKey(catalog, catalog[a].key)
    ensures ShapeOf(catalog, catalog[a].key) == catalog[a].shape
  {
    if a > 0 {
      assert catalog[0].key != catalog[a].key;
      assert catalog[1..][a - 1] == catalog[a];
      ShapeOfEntry(catalog[1..], a - 1);
    }
  }

  /** The default catalog has distinct keys, square shapes whose cells carry
      their own key, and the I piece as its first entry. */
  lemma DefaultCatalogWellFormed()
    ensures |DefaultPieceTypes| == 7 && DistinctKeys(DefaultPieceTypes)
    ensures forall a :: 0 <= a < |DefaultPieceTypes| ==>
      IsSquare(DefaultPieceTypes[a].shape) && LabelsOwnKey(DefaultPieceTypes[a])
  {
  }

  /** Rotating the spawn I piece right fills exactly column 2; rotating it
      left fills exactly column 1. */
  lemma RotateIPiece()
    ensures forall i, j :: 0 <= i < 4 && 0 <= j < 4 ==>
      Rotate(IShape, Right)[i][j] == (if j == 2 then "I" else Empty)
    ensures forall i, j :: 0 <= i < 4 && 0 <= j < 4 ==>
      Rotate(IShape, Left)[i][j] == (if j == 1 then "I" else Empty)
  {
    forall i: nat, j: nat | i < 4 && j < 4
      ensures Rotate(IShape, Right)[i][j] == IShape[3 - j][i] && Rotate(IShape, Left)[i][j] == IShape[j][3 - i]
    {
      RotateCell(IShape, Right, i, j);
      RotateCell(IShape, Left, i, j);
    }
  }
}
