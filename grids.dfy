/**
 * The connection between a board as the source stores it (an 8x8 array of
 * optional `Piece` references) and its value view `Grid`, plus the
 * placement invariants the engine relies on.
 */
module Grids {
  import opened Types
  import opened Pieces

  predicate Is8x8(b: array2<Piece?>)
  {
    b.Length0 == 8 && b.Length1 == 8
  }

  /** The piece objects standing on the board. */
  ghost function PiecesOf(b: array2<Piece?>): set<Piece>
    reads b
  {
    set r, c | 0 <= r < b.Length0 && 0 <= c < b.Length1 && b[r, c] != null :: b[r, c]
  }

  /** Which object stands on each occupied square. */
  ghost function Cells(b: array2<Piece?>): map<Square, Piece>
    reads b
  {
    map r, c | 0 <= r < b.Length0 && 0 <= c < b.Length1 && b[r, c] != null :: (r, c) := b[r, c]
  }

  /**
   * The value view of the squares with row-major index `i` and beyond: each
   * occupied square mapped to its piece's fields.
   */
  ghost function AbsFrom(b: array2<Piece?>, i: nat): Grid
    requires Is8x8(b) && i <= 64
    reads b, PiecesOf(b)
    decreases 64 - i
  {
    if i == 64 then map[]
    else
      var rest := AbsFrom(b, i + 1);
      if b[i / 8, i % 8] == null then rest else rest[(i / 8, i % 8) := Val(b[i / 8, i % 8])]
  }

  /** The value view of the board: each occupied square with its piece's fields. */
  ghost function Abs(b: array2<Piece?>): Grid
    requires Is8x8(b)
    reads b, PiecesOf(b)
  {
    AbsFrom(b, 0)
  }

  lemma {:induction false} AbsFromAt(b: array2<Piece?>, i: nat)
    requires Is8x8(b) && i <= 64
    ensures forall k :: k in AbsFrom(b, i) ==> 0 <= k.0 < 8 && 0 <= k.1 < 8 && 8 * k.0 + k.1 >= i
    ensures forall r, c :: 0 <= r < 8 && 0 <= c < 8 && 8 * r + c >= i ==>
      ((r, c) in AbsFrom(b, i) <==> b[r, c] != null)
    ensures forall k :: k in AbsFrom(b, i) ==> AbsFrom(b, i)[k] == Val(b[k.0, k.1])
    decreases 64 - i
  {
    if i < 64 {
      AbsFromAt(b, i + 1);
    }
  }

  /** Abs holds exactly the occupied squares, each with its piece's fields. */
  lemma AbsAll(b: array2<Piece?>)
    requires Is8x8(b)
    ensures forall k :: k in Abs(b) ==> 0 <= k.0 < 8 && 0 <= k.1 < 8
    ensures forall r, c :: 0 <= r < 8 && 0 <= c < 8 ==> ((r, c) in Abs(b) <==> b[r, c] != null)
    ensures forall k :: k in Abs(b) ==> Abs(b)[k] == Val(b[k.0, k.1])
  {
    AbsFromAt(b, 0);
  }

  lemma AbsAt(b: array2<Piece?>, r: int, c: int)
    requires Is8x8(b) && 0 <= r < 8 && 0 <= c < 8
    ensures At(Abs(b), r, c) == if b[r, c] == null then None else Some(Val(b[r, c]))
  {
    AbsAll(b);
  }

  /** Every occupied key is a square of the 8x8 board. */
  ghost predicate KeysOnBoard(g: Grid)
  {
    forall k :: k in g ==> 0 <= k.0 < 8 && 0 <= k.1 < 8
  }

  /** Every piece on the board records a square of the board as its own. */
  ghost predicate CoordsOnBoard(g: Grid)
  {
    forall k :: k in g ==> 0 <= g[k].row < 8 && 0 <= g[k].col < 8
  }

  /** Every piece records exactly the square it stands on. */
  ghost predicate WellPlaced(g: Grid)
  {
    forall k :: k in g ==> g[k].row == k.0 && g[k].col == k.1
  }

  /** The same board with every piece's `row`/`col` set to its square. */
  function Restamp(g: Grid): (g': Grid)
    ensures g'.Keys == g.Keys && WellPlaced(g')
    ensures forall k :: k in g ==> FigureOf(g'[k]) == FigureOf(g[k]) && g'[k].hasMoved == g[k].hasMoved
  {
    map k | k in g :: g[k].(row := k.0, col := k.1)
  }

  lemma RestampWellPlaced(g: Grid)
    requires WellPlaced(g)
    ensures Restamp(g) == g
  {
  }

  /**
   * `g` is the value view of `b`, stated square by square (this form carries
   * over heap changes that leave the array and its pieces alone).
   */
  ghost predicate Mirrors(b: array2<Piece?>, g: Grid)
    requires Is8x8(b)
    reads b, PiecesOf(b)
  {
    KeysOnBoard(g) &&
    forall r, c :: 0 <= r < 8 && 0 <= c < 8 ==> At(g, r, c) == if b[r, c] == null then None else Some(Val(b[r, c]))
  }

  lemma AbsMirrors(b: array2<Piece?>)
    requires Is8x8(b)
    ensures Mirrors(b, Abs(b))
  {
    AbsAll(b);
  }

  lemma MirrorsAbs(b: array2<Piece?>, g: Grid)
    requires Is8x8(b) && Mirrors(b, g)
    ensures Abs(b) == g
  {
    AbsAll(b);
    forall k | k in g
      ensures k in Abs(b) && Abs(b)[k] == g[k]
    {
      assert At(g, k.0, k.1).Some?;
    }
    forall k | k in Abs(b)
      ensures k in g
    {
      assert At(g, k.0, k.1).Some?;
    }
  }

  /** The value view of an array survives any change that leaves the array and its pieces alone. */
  twostate lemma AbsUnchanged(b: array2<Piece?>)
    requires Is8x8(b) && unchanged(b) && unchanged(old(PiecesOf(b)))
    ensures Abs(b) == old(Abs(b))
  {
  }

  /**
   * An array holding, square by square, copies of another's pieces stamped
   * with their squares has the restamped view of the other.
   */
  lemma CopyAbs(board: array2<Piece?>, copy: array2<Piece?>)
    requires Is8x8(board) && Is8x8(copy)
    requires forall r, c :: 0 <= r < 8 && 0 <= c < 8 ==> (board[r, c] == null <==> copy[r, c] == null)
    requires forall r, c :: 0 <= r < 8 && 0 <= c < 8 && copy[r, c] != null ==>
      Val(copy[r, c]) == Val(board[r, c]).(row := r, col := c)
    ensures Abs(copy) == Restamp(Abs(board))
  {
    AbsAll(board);
    AbsAll(copy);
    forall k | k in Abs(copy)
      ensures k in Restamp(Abs(board)) && Abs(copy)[k] == Restamp(Abs(board))[k]
    {
      assert board[k.0, k.1] != null;
    }
    forall k | k in Restamp(Abs(board))
      ensures k in Abs(copy)
    {
      assert board[k.0, k.1] != null;
    }
  }

  /** On a well-placed array, distinct squares hold distinct objects. */
  lemma WellPlacedDistinct(b: array2<Piece?>, r1: int, c1: int, r2: int, c2: int)
    requires Is8x8(b) && 0 <= r1 < 8 && 0 <= c1 < 8 && 0 <= r2 < 8 && 0 <= c2 < 8
    requires WellPlaced(Abs(b))
    requires b[r1, c1] != null && (r1, c1) != (r2, c2)
    ensures b[r1, c1] != b[r2, c2]
  {
    AbsAll(b);
    assert (r1, c1) in Abs(b);
    if b[r2, c2] != null {
      assert (r2, c2) in Abs(b);
    }
  }

  /** Every piece on the array records a square of the board. */
  ghost predicate CoordsValid(b: array2<Piece?>)
    requires Is8x8(b)
    reads b, PiecesOf(b)
  {
    forall r, c :: 0 <= r < 8 && 0 <= c < 8 && b[r, c] != null ==> 0 <= b[r, c].row < 8 && 0 <= b[r, c].col < 8
  }

  lemma WellPlacedCoords(b: array2<Piece?>)
    requires Is8x8(b) && WellPlaced(Abs(b))
    ensures CoordsValid(b)
  {
    AbsAll(b);
    forall r, c | 0 <= r < 8 && 0 <= c < 8 && b[r, c] != null
      ensures 0 <= b[r, c].row < 8 && 0 <= b[r, c].col < 8
    {
      assert (r, c) in Abs(b);
    }
  }

  /** `p` stands on no square of `b` other than (row, col). */
  ghost predicate NotElsewhere(b: array2<Piece?>, p: Piece, row: int, col: int)
    requires Is8x8(b)
    reads b
  {
    forall r, c :: 0 <= r < 8 && 0 <= c < 8 && (r, c) != (row, col) ==> b[r, c] != p
  }

  /** On a well-placed array, a piece that records (row, col) stands on no other square. */
  lemma RecordsAlone(b: array2<Piece?>, p: Piece, row: int, col: int)
    requires Is8x8(b) && WellPlaced(Abs(b)) && p.row == row && p.col == col
    ensures NotElsewhere(b, p, row, col)
  {
    forall r, c | 0 <= r < 8 && 0 <= c < 8 && (r, c) != (row, col)
      ensures b[r, c] != p
    {
      AbsAt(b, r, c);
    }
  }

  /** On a well-placed array, an occupied square's piece stands nowhere else. */
  lemma WellPlacedAlone(b: array2<Piece?>, row: int, col: int)
    requires Is8x8(b) && 0 <= row < 8 && 0 <= col < 8 && WellPlaced(Abs(b)) && b[row, col] != null
    ensures NotElsewhere(b, b[row, col], row, col)
  {
    forall r, c | 0 <= r < 8 && 0 <= c < 8 && (r, c) != (row, col)
      ensures b[r, c] != b[row, col]
    {
      WellPlacedDistinct(b, row, col, r, c);
    }
  }

  /** `p` stands on no square of `b`. */
  ghost predicate Absent(b: array2<Piece?>, p: Piece)
    requires Is8x8(b)
    reads b
  {
    forall r, c :: 0 <= r < 8 && 0 <= c < 8 ==> b[r, c] != p
  }

  /** The pieces on the array record squares of the board exactly when the value view says so. */
  lemma CoordsValidOnBoard(b: array2<Piece?>)
    requires Is8x8(b)
    ensures CoordsValid(b) <==> CoordsOnBoard(Abs(b))
  {
    AbsAll(b);
    if CoordsOnBoard(Abs(b)) {
      forall r, c | 0 <= r < 8 && 0 <= c < 8 && b[r, c] != null
        ensures 0 <= b[r, c].row < 8 && 0 <= b[r, c].col < 8
      {
        assert (r, c) in Abs(b);
      }
    }
  }
}
