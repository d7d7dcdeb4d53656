/**
 * The `Board` object (js/game/Board.js): an 8x8 array of optional pieces,
 * filled with the standard starting layout and updated in place.
 */
module Boards {
  import opened Types
  import opened Pieces
  import opened Grids
  import opened Helpers

  /** The back-rank order, from column 0 to column 7. */
  function BackRank(col: int): PieceType
  {
    if col == 0 || col == 7 then Rook
    else if col == 1 || col == 6 then Knight
    else if col == 2 || col == 5 then Bishop
    else if col == 3 then Queen
    else King
  }

  /** The piece `initializeBoard` puts on (row, col), if any. */
  function InitialAt(row: int, col: int): Option<PieceVal>
  {
    if !IsValidPosition(row, col) then None
    else if row == 0 then Some(PieceVal(BackRank(col), Black, row, col, false))
    else if row == 1 then Some(PieceVal(Pawn, Black, row, col, false))
    else if row == 6 then Some(PieceVal(Pawn, White, row, col, false))
    else if row == 7 then Some(PieceVal(BackRank(col), White, row, col, false))
    else None
  }

  /** The starting position as a value. */
  function InitialGrid(): Grid
  {
    map r, c | 0 <= r < 8 && 0 <= c < 8 && InitialAt(r, c).Some? :: (r, c) := InitialAt(r, c).value
  }

  /** Pawns fill rows 1 (Black) and 6 (White); rows 2 to 5 are empty. */
  lemma InitialPawnsAndEmptyMiddle()
    ensures forall c :: 0 <= c < 8 ==>
      (1, c) in InitialGrid() && InitialGrid()[(1, c)].kind == Pawn && InitialGrid()[(1, c)].color == Black &&
      (6, c) in InitialGrid() && InitialGrid()[(6, c)].kind == Pawn && InitialGrid()[(6, c)].color == White
    ensures forall r, c :: 2 <= r <= 5 && 0 <= c < 8 ==> (r, c) !in InitialGrid()
  {
  }

  /**
   * Each side has exactly one king (Black's on (0, 4), White's on (7, 4)) and
   * its pieces fill exactly its two home rows, sixteen squares.
   */
  lemma InitialKingsAndSides()
    ensures forall k :: k in InitialGrid() && InitialGrid()[k].kind == King ==>
      k == (if InitialGrid()[k].color == Black then (0, 4) else (7, 4))
    ensures (0, 4) in InitialGrid() && InitialGrid()[(0, 4)] == PieceVal(King, Black, 0, 4, false)
    ensures (7, 4) in InitialGrid() && InitialGrid()[(7, 4)] == PieceVal(King, White, 7, 4, false)
    ensures forall k: Square :: k in InitialGrid() && InitialGrid()[k].color == White <==> (k.0 == 6 || k.0 == 7) && 0 <= k.1 < 8
    ensures forall k: Square :: k in InitialGrid() && InitialGrid()[k].color == Black <==> (k.0 == 0 || k.0 == 1) && 0 <= k.1 < 8
  {
    var g := InitialGrid();
    forall k: Square
      ensures k in g && g[k].kind == King ==> k == (if g[k].color == Black then (0, 4) else (7, 4))
      ensures k in g && g[k].color == White <==> (k.0 == 6 || k.0 == 7) && 0 <= k.1 < 8
      ensures k in g && g[k].color == Black <==> (k.0 == 0 || k.0 == 1) && 0 <= k.1 < 8
    {
      InitialGridAt(k);
    }
    InitialGridAt((0, 4));
    InitialGridAt((7, 4));
  }

  /** A square is in the starting position exactly when `initialAt` puts a piece on it, and holds that piece. */
  lemma InitialGridAt(k: Square)
    ensures k in InitialGrid() <==> InitialAt(k.0, k.1).Some?
    ensures k in InitialGrid() ==> InitialGrid()[k] == InitialAt(k.0, k.1).value
  {
    if InitialAt(k.0, k.1).Some? {
      assert k == (k.0, k.1);
    }
  }

  /** Every starting piece records its own square and has not moved. */
  lemma InitialWellPlaced()
    ensures WellPlaced(InitialGrid()) && KeysOnBoard(InitialGrid())
    ensures forall k :: k in InitialGrid() ==> !InitialGrid()[k].hasMoved
  {
  }

  /** An array holding the pieces of `initialAt` on every square holds the starting position. */
  lemma LaidOutInitial(board: array2<Piece?>)
    requires Is8x8(board)
    requires forall r, c :: 0 <= r < 8 && 0 <= c < 8 ==>
      (board[r, c] == null <==> InitialAt(r, c).None?) &&
      (board[r, c] != null ==> Val(board[r, c]) == InitialAt(r, c).value)
    ensures Mirrors(board, InitialGrid()) && Abs(board) == InitialGrid()
  {
    AbsAll(board);
    forall k | k in Abs(board)
      ensures k in InitialGrid() && Abs(board)[k] == InitialGrid()[k]
    {
    }
    forall k | k in InitialGrid()
      ensures k in Abs(board)
    {
    }
  }

  class Board {
    var squares: array2<Piece?>

    ghost predicate Valid()
      reads this
    {
      Is8x8(squares)
    }

    constructor ()
      ensures Valid() && fresh(squares) && Abs(squares) == InitialGrid()
      ensures forall r, c :: 0 <= r < 8 && 0 <= c < 8 && squares[r, c] != null ==> fresh(squares[r, c])
    {
      var initial := InitializeBoard();
      squares := initial;
      new;
      MirrorsAbs(squares, InitialGrid());
    }

    /** A fresh array holding fresh pieces in the starting layout. */
    static method InitializeBoard() returns (board: array2<Piece?>)
      ensures fresh(board) && Is8x8(board)
      ensures forall r, c :: 0 <= r < 8 && 0 <= c < 8 && board[r, c] != null ==> fresh(board[r, c])
      ensures Mirrors(board, InitialGrid()) && Abs(board) == InitialGrid()
    {
      board := new Piece?[8, 8]((_, _) => null);
      for col := 0 to 8
        invariant forall r, c :: 0 <= r < 8 && 0 <= c < 8 && board[r, c] != null ==> fresh(board[r, c])
        invariant forall r, c :: 0 <= r < 8 && 0 <= c < col ==>
          (board[r, c] == null <==> InitialAt(r, c).None?) &&
          (board[r, c] != null ==> Val(board[r, c]) == InitialAt(r, c).value)
        invariant forall r, c :: 0 <= r < 8 && col <= c < 8 ==> board[r, c] == null
      {
        PlaceColumn(board, col);
      }
      LaidOutInitial(board);
    }

    /** The body of the loop of `initializeBoard`: the four pieces of column `col`, on fresh objects. */
    static method PlaceColumn(board: array2<Piece?>, col: int)
      requires Is8x8(board) && 0 <= col < 8
      modifies board
      ensures forall r, c :: 0 <= r < 8 && 0 <= c < 8 && c != col ==> board[r, c] == old(board[r, c])
      ensures forall r :: 2 <= r < 6 ==> board[r, col] == old(board[r, col])
      ensures forall r :: 0 <= r < 8 && (r < 2 || 6 <= r) ==>
        board[r, col] != null && fresh(board[r, col]) && Val(board[r, col]) == InitialAt(r, col).value
    {
      board[0, col] := new Piece(BackRank(col), Black, 0, col);
      board[1, col] := new Piece(Pawn, Black, 1, col);
      board[6, col] := new Piece(Pawn, White, 6, col);
      board[7, col] := new Piece(BackRank(col), White, 7, col);
    }

    /** The content of square (row, col). */
    method GetPiece(row: int, col: int) returns (piece: Piece?)
      requires Valid() && IsValidPosition(row, col)
      ensures piece == squares[row, col]
      ensures Abs(squares) == old(Abs(squares))
    {
      piece := squares[row, col];
    }

    /**
     * Puts `piece` (or nothing) on (row, col) and makes the piece record that
     * square; no other square and no other piece changes.
     */
    method SetPiece(row: int, col: int, piece: Piece?)
      requires Valid() && IsValidPosition(row, col)
      modifies squares, piece
      ensures squares[row, col] == piece
      ensures piece != null ==> piece.row == row && piece.col == col && piece.hasMoved == old(piece.hasMoved)
      ensures forall r, c :: 0 <= r < 8 && 0 <= c < 8 && (r, c) != (row, col) ==> squares[r, c] == old(squares[r, c])
      ensures old(CoordsValid(squares)) ==> CoordsValid(squares)
      ensures piece == null ==> Abs(squares) == old(Abs(squares)) - {(row, col)}
      ensures piece != null && old(NotElsewhere(squares, piece, row, col)) ==>
        Abs(squares) == old(Abs(squares))[(row, col) := old(Val(piece)).(row := row, col := col)]
    {
      ghost var g := Abs(squares);
      ghost var alone := piece == null || NotElsewhere(squares, piece, row, col);
      AbsAll(squares);
      squares[row, col] := piece;
      if piece != null {
        piece.row := row;
        piece.col := col;
      }
      if alone {
        ghost var g' := if piece == null then g - {(row, col)} else g[(row, col) := Val(piece)];
        forall r, c | 0 <= r < 8 && 0 <= c < 8
          ensures At(g', r, c) == if squares[r, c] == null then None else Some(Val(squares[r, c]))
        {
          if (r, c) != (row, col) {
            assert squares[r, c] == old(squares[r, c]);
          }
        }
        MirrorsAbs(squares, g');
      }
    }

    /** A fresh board whose array is the deep copy `CloneBoard` makes. */
    method Clone() returns (newBoard: Board)
      requires Valid()
      ensures fresh(newBoard) && newBoard.Valid() && fresh(newBoard.squares)
      ensures forall r, c :: 0 <= r < 8 && 0 <= c < 8 && newBoard.squares[r, c] != null ==> fresh(newBoard.squares[r, c])
      ensures Abs(newBoard.squares) == Restamp(Abs(squares))
    {
      newBoard := new Board();
      newBoard.squares := CloneBoard(squares);
      CopyAbs(squares, newBoard.squares);
    }
  }
}
