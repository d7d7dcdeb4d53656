/**
 * The `GameState` object (js/game/GameState.js): the board, the side to
 * move, the move history, the captured-piece lists and the end-of-game
 * flags, all updated in place by `makeMove` and `undoMove`. Each method is
 * proved against the value view in `GameSpec`.
 */
module GameStates {
  import opened Types
  import opened Pieces
  import opened Grids
  import opened Helpers
  import opened Moves
  import opened RulesSpec
  import opened RuleFacts
  import opened Rules
  import opened Boards
  import opened Scans
  import opened GameSpec
  import opened GameFacts
  import opened Lists

  // ----- board steps shared by several methods -----

  /**
   * The simulation `wouldBeInCheckAfterMove` and `givesCheck` run on a copy:
   * whatever stands on `from` goes to `to` (recording that square) and `from`
   * empties.
   */
  method MoveOnCopy(copy: array2<Piece?>, fromRow: int, fromCol: int, toRow: int, toCol: int)
    requires Is8x8(copy) && IsValidPosition(fromRow, fromCol) && IsValidPosition(toRow, toCol)
    requires WellPlaced(Abs(copy))
    modifies copy, PiecesOf(copy)
    ensures Abs(copy) == MovedCopy(old(Abs(copy)), (fromRow, fromCol), (toRow, toCol))
  {
    ghost var g := Abs(copy);
    AbsAll(copy);
    var piece := copy[fromRow, fromCol];
    if piece != null {
      WellPlacedAlone(copy, fromRow, fromCol);
    }
    copy[toRow, toCol] := piece;
    copy[fromRow, fromCol] := null;
    if piece != null {
      piece.row := toRow;
      piece.col := toCol;
    }
    ghost var g' := MovedCopy(g, (fromRow, fromCol), (toRow, toCol));
    forall r, c | 0 <= r < 8 && 0 <= c < 8
      ensures At(g', r, c) == if copy[r, c] == null then None else Some(Val(copy[r, c]))
    {
      if (r, c) != (fromRow, fromCol) && (r, c) != (toRow, toCol) {
        assert copy[r, c] == old(copy[r, c]);
      }
    }
    MirrorsAbs(copy, g');
  }

  /**
   * The three statements `makeMove` uses to move a piece, and `undoMove` to
   * put a castling rook back: `setPiece(to, piece)`, `setPiece(from, null)`,
   * then `piece.hasMoved = moved`.
   */
  method ShiftPiece(board: Board, piece: Piece, fromRow: int, fromCol: int, toRow: int, toCol: int, moved: bool)
    requires board.Valid() && IsValidPosition(fromRow, fromCol) && IsValidPosition(toRow, toCol)
    modifies board.squares, piece
    ensures board.squares[fromRow, fromCol] == null
    ensures (fromRow, fromCol) != (toRow, toCol) ==> board.squares[toRow, toCol] == piece
    ensures forall r, c :: 0 <= r < 8 && 0 <= c < 8 && (r, c) != (fromRow, fromCol) && (r, c) != (toRow, toCol) ==>
      board.squares[r, c] == old(board.squares[r, c])
    ensures Val(piece) == old(Val(piece)).(row := toRow, col := toCol, hasMoved := moved)
    ensures old(CoordsValid(board.squares)) ==> CoordsValid(board.squares)
    ensures old(board.squares[fromRow, fromCol] == piece && NotElsewhere(board.squares, piece, fromRow, fromCol)) ==>
      Abs(board.squares) ==
        old(Abs(board.squares))[(toRow, toCol) := old(Val(piece)).(row := toRow, col := toCol, hasMoved := moved)]
          - {(fromRow, fromCol)}
  {
    ghost var alone := board.squares[fromRow, fromCol] == piece && NotElsewhere(board.squares, piece, fromRow, fromCol);
    AbsMirrors(board.squares);
    board.SetPiece(toRow, toCol, piece);
    board.SetPiece(fromRow, fromCol, null);
    piece.hasMoved := moved;
    if alone {
      ShiftedView(PieceShift(board.squares, piece, (fromRow, fromCol), (toRow, toCol), moved));
    }
  }

  /** One move of `ShiftPiece`: the board array, the piece, its two squares and its new `hasMoved`. */
  datatype PieceShift = PieceShift(b: array2<Piece?>, piece: Piece, from: Square, to: Square, moved: bool)

  /**
   * The value view after the piece that stood alone on `from` went to `to`
   * (recording that square and `moved`) and `from` emptied, with nothing
   * else changed.
   */
  twostate lemma ShiftedView(u: PieceShift)
    requires Is8x8(u.b) && IsValidPosition(u.from.0, u.from.1) && IsValidPosition(u.to.0, u.to.1)
    requires old(allocated(u)) && old(allocated(Abs(u.b)))
    requires old(u.b[u.from.0, u.from.1] == u.piece && NotElsewhere(u.b, u.piece, u.from.0, u.from.1))
    requires u.b[u.from.0, u.from.1] == null && (u.from != u.to ==> u.b[u.to.0, u.to.1] == u.piece)
    requires forall r, c :: 0 <= r < 8 && 0 <= c < 8 && (r, c) != u.from && (r, c) != u.to ==> u.b[r, c] == old(u.b[r, c])
    requires Val(u.piece) == old(Val(u.piece)).(row := u.to.0, col := u.to.1, hasMoved := u.moved)
    requires unchanged(old(PiecesOf(u.b)) - {u.piece}) && old(Mirrors(u.b, Abs(u.b)))
    ensures Abs(u.b) == old(Abs(u.b))[u.to := old(Val(u.piece)).(row := u.to.0, col := u.to.1, hasMoved := u.moved)] - {u.from}
  {
    var b, from, to := u.b, u.from, u.to;
    var g' := old(Abs(b))[to := Val(u.piece)] - {from};
    forall r, c | 0 <= r < 8 && 0 <= c < 8
      ensures At(g', r, c) == if b[r, c] == null then None else Some(Val(b[r, c]))
    {
      if (r, c) != from && (r, c) != to {
        var o := old(b[r, c]);
        assert b[r, c] == o;
        if o != null {
          assert o in old(PiecesOf(b)) && o != u.piece;
        }
      }
    }
    MirrorsAbs(b, g');
  }

  /** Returning the piece on `to` to `from` and putting `captured` back on `to` leaves every other square alone. */
  lemma ReturnedElsewhere(g: Grid, from: Square, to: Square, captured: Option<PieceVal>, r: int, c: int)
    requires (r, c) != from && (r, c) != to
    ensures var back := if to in g then g[from := g[to].(row := from.0, col := from.1)] else g - {from};
      At(PutBack(back, to, captured), r, c) == At(g, r, c)
  {
  }

  /**
   * One return of `undoMove`'s non-promotion branch: the board array, the
   * piece found on `to`, the piece captured there and the two squares.
   */
  datatype Return = Return(b: array2<Piece?>, piece: Piece?, captured: Piece?, from: Square, to: Square)

  /**
   * The value view after the piece that stood alone on `to` went back to
   * `from` and `captured`, found on no square before, went to `to`, with
   * nothing else changed.
   */
  twostate lemma ReturnedView(u: Return)
    requires Is8x8(u.b) && u.from != u.to && IsValidPosition(u.from.0, u.from.1) && IsValidPosition(u.to.0, u.to.1)
    requires old(allocated(u)) && old(allocated(Abs(u.b)))
    requires old(u.b[u.to.0, u.to.1]) == u.piece
    requires old(u.piece == null || NotElsewhere(u.b, u.piece, u.to.0, u.to.1))
    requires old(u.captured == null || Absent(u.b, u.captured))
    requires u.b[u.to.0, u.to.1] == u.captured && u.b[u.from.0, u.from.1] == u.piece
    requires forall r, c :: 0 <= r < 8 && 0 <= c < 8 && (r, c) != u.from && (r, c) != u.to ==> u.b[r, c] == old(u.b[r, c])
    requires u.piece != null ==> Val(u.piece) == old(Val(u.piece)).(row := u.from.0, col := u.from.1)
    requires u.captured != null ==> Val(u.captured) == old(Val(u.captured)).(row := u.to.0, col := u.to.1)
    requires unchanged(old(PiecesOf(u.b)) - {u.piece, u.captured}) && old(Mirrors(u.b, Abs(u.b)))
    ensures var g, from, to := old(Abs(u.b)), u.from, u.to;
      var back := if to in g then g[from := g[to].(row := from.0, col := from.1)] else g - {from};
      Abs(u.b) == PutBack(back, to, if u.captured == null then None else Some(old(Val(u.captured))))
  {
    var b, g, piece, captured, from, to := u.b, old(Abs(u.b)), u.piece, u.captured, u.from, u.to;
    var vc := if captured == null then None else Some(old(Val(captured)));
    var back := if to in g then g[from := g[to].(row := from.0, col := from.1)] else g - {from};
    var g' := PutBack(back, to, vc);
    forall r, c | 0 <= r < 8 && 0 <= c < 8
      ensures At(g', r, c) == if b[r, c] == null then None else Some(Val(b[r, c]))
    {
      if (r, c) == to {
        assert b[r, c] == captured;
      } else if (r, c) == from {
        assert b[r, c] == piece;
      } else {
        var o := old(b[r, c]);
        assert b[r, c] == o;
        ReturnedElsewhere(g, from, to, vc, r, c);
        if o != null {
          assert o in old(PiecesOf(b)) && o != piece && o != captured;
        }
      }
    }
    MirrorsAbs(b, g');
  }

  /**
   * The non-promotion branch of `undoMove`: `setPiece(from, piece)` with the
   * piece found on `to`, then `setPiece(to, capturedPiece)`.
   */
  method ReturnPiece(board: Board, piece: Piece?, fromRow: int, fromCol: int, toRow: int, toCol: int, captured: Piece?)
    requires board.Valid() && IsValidPosition(fromRow, fromCol) && IsValidPosition(toRow, toCol)
    requires piece == board.squares[toRow, toCol]
    modifies board.squares, piece, captured
    ensures board.squares[toRow, toCol] == captured
    ensures (fromRow, fromCol) != (toRow, toCol) ==> board.squares[fromRow, fromCol] == piece
    ensures forall r, c :: 0 <= r < 8 && 0 <= c < 8 && (r, c) != (fromRow, fromCol) && (r, c) != (toRow, toCol) ==>
      board.squares[r, c] == old(board.squares[r, c])
    ensures piece != null && piece != captured ==> Val(piece) == old(Val(piece)).(row := fromRow, col := fromCol)
    ensures captured != null ==> Val(captured) == old(Val(captured)).(row := toRow, col := toCol)
    ensures old(CoordsValid(board.squares)) ==> CoordsValid(board.squares)
    ensures (fromRow, fromCol) != (toRow, toCol) && old((piece == null || NotElsewhere(board.squares, piece, toRow, toCol)) &&
                (captured == null || Absent(board.squares, captured))) ==>
      var g := old(Abs(board.squares));
      var back := if (toRow, toCol) in g then g[(fromRow, fromCol) := g[(toRow, toCol)].(row := fromRow, col := fromCol)]
                  else g - {(fromRow, fromCol)};
      Abs(board.squares) == PutBack(back, (toRow, toCol), if captured == null then None else Some(old(Val(captured))))
  {
    ghost var alone := (piece == null || NotElsewhere(board.squares, piece, toRow, toCol)) &&
                       (captured == null || Absent(board.squares, captured));
    AbsMirrors(board.squares);
    board.SetPiece(fromRow, fromCol, piece);
    board.SetPiece(toRow, toCol, captured);
    if alone && (fromRow, fromCol) != (toRow, toCol) {
      ReturnedView(Return(board.squares, piece, captured, (fromRow, fromCol), (toRow, toCol)));
    }
  }

  /** `piece.hasMoved = moved`, seen on the board that holds the piece on (row, col) only. */
  method SetMoved(board: Board, piece: Piece, row: int, col: int, moved: bool)
    requires board.Valid() && IsValidPosition(row, col)
    modifies piece
    ensures Val(piece) == old(Val(piece)).(hasMoved := moved)
    ensures old(CoordsValid(board.squares)) ==> CoordsValid(board.squares)
    ensures old(board.squares[row, col] == piece && NotElsewhere(board.squares, piece, row, col)) ==>
      Abs(board.squares) == old(Abs(board.squares))[(row, col) := old(Val(piece)).(hasMoved := moved)]
  {
    ghost var g := Abs(board.squares);
    ghost var alone := board.squares[row, col] == piece && NotElsewhere(board.squares, piece, row, col);
    AbsAll(board.squares);
    piece.hasMoved := moved;
    if alone {
      ghost var g' := g[(row, col) := Val(piece)];
      forall r, c | 0 <= r < 8 && 0 <= c < 8
        ensures At(g', r, c) == if board.squares[r, c] == null then None else Some(Val(board.squares[r, c]))
      {
      }
      MirrorsAbs(board.squares, g');
    }
  }

  /**
   * `makeMove` found the castling rook where it looks for it: the piece on
   * the mover's row in the corner of the castling side, with the corner and
   * target columns recorded.
   */
  ghost predicate RookFound(board: array2<Piece?>, move: Move)
    requires Is8x8(board)
    reads board, move
  {
    move.isCastling ==>
      0 <= move.fromRow < 8 && move.rook != null && move.rook == board[move.fromRow, RookFromCol(move.toCol)] &&
      move.rookFromCol == Some(RookFromCol(move.toCol)) && move.rookToCol == Some(RookToCol(move.toCol))
  }

  /**
   * The moving half of `makeMove`: the piece found on `from` goes to `to`
   * and is marked as moved; a castling rook goes from its corner to its
   * castling column and is marked as moved.
   */
  method ShiftPieces(board: Board, move: Move, piece: Piece)
    requires board.Valid() && CoordsValid(board.squares) && Recorded(move)
    requires piece == board.squares[move.fromRow, move.fromCol]
    modifies board.squares, piece, if move.isCastling then {move.rook} else {}
    ensures CoordsValid(board.squares)
    ensures Regular(old(Abs(board.squares)), View(move)) && Proceeds(old(Abs(board.squares)), View(move)) &&
            old(RookFound(board.squares, move)) ==>
      var g1 := Shift(old(Abs(board.squares)), (move.fromRow, move.fromCol), (move.toRow, move.toCol));
      Abs(board.squares) ==
        if move.isCastling then Shift(g1, (move.fromRow, RookFromCol(move.toCol)), (move.toRow, RookToCol(move.toCol)))
        else g1
    ensures Regular(old(Abs(board.squares)), View(move)) && Proceeds(old(Abs(board.squares)), View(move)) &&
            old(RookFound(board.squares, move)) ==>
      board.squares[move.toRow, move.toCol] == piece &&
      Val(piece) == old(Val(piece)).(row := move.toRow, col := move.toCol, hasMoved := true)
    ensures Regular(old(Abs(board.squares)), View(move)) && Proceeds(old(Abs(board.squares)), View(move)) &&
            old(RookFound(board.squares, move)) && move.isCastling ==>
      board.squares[move.toRow, RookToCol(move.toCol)] == move.rook &&
      Val(move.rook) == old(Val(move.rook)).(row := move.toRow, col := RookToCol(move.toCol), hasMoved := true)
  {
    ghost var g := Abs(board.squares);
    ghost var m := View(move);
    ghost var corner := (move.fromRow, RookFromCol(move.toCol));
    ghost var regular := Regular(g, m) && Proceeds(g, m) && RookFound(board.squares, move);
    if regular {
      WellPlacedAlone(board.squares, move.fromRow, move.fromCol);
      AbsAt(board.squares, move.fromRow, move.fromCol);
      if move.isCastling {
        WellPlacedAlone(board.squares, corner.0, corner.1);
        AbsAt(board.squares, corner.0, corner.1);
      }
    }
    ShiftPiece(board, piece, move.fromRow, move.fromCol, move.toRow, move.toCol, true);
    ghost var g1 := Abs(board.squares);
    if regular {
      assert g1 == Shift(g, m.from, m.to);
    }
    if move.isCastling && move.rook != null {
      ghost var rook := move.rook;
      if regular {
        assert board.squares[corner.0, corner.1] == rook;
        forall r, c | 0 <= r < 8 && 0 <= c < 8 && (r, c) != corner
          ensures board.squares[r, c] != rook
        {
          if (r, c) != (move.fromRow, move.fromCol) && (r, c) != (move.toRow, move.toCol) {
            assert board.squares[r, c] == old(board.squares[r, c]);
          }
        }
      }
      ghost var v := Val(rook);
      ShiftPiece(board, move.rook, move.toRow, move.rookFromCol.value, move.toRow, move.rookToCol.value, true);
      if regular {
        assert v == old(Val(rook));
      }
    }
  }

  /**
   * The castling lookup of `makeMove`: the piece in the corner of the
   * castling side on the mover's row becomes the move's rook, with its
   * columns and old `hasMoved`; the answer is false when the corner is empty.
   * A move that does not castle is left alone.
   */
  method FindRook(board: Board, move: Move) returns (proceed: bool)
    requires board.Valid() && Placed(move)
    modifies move
    ensures proceed == (!move.isCastling || board.squares[move.fromRow, RookFromCol(move.toCol)] != null)
    ensures proceed ==> RookFound(board.squares, move)
    ensures move.isCastling ==> move.rook == board.squares[move.fromRow, RookFromCol(move.toCol)]
    ensures proceed && move.isCastling ==> move.rook != null && move.rookPrevHasMoved == Some(move.rook.hasMoved)
    ensures !move.isCastling ==> move.rook == old(move.rook) && move.rookPrevHasMoved == old(move.rookPrevHasMoved)
    ensures !move.isCastling ==> move.rookFromCol == old(move.rookFromCol) && move.rookToCol == old(move.rookToCol)
    ensures move.prevHasMoved == old(move.prevHasMoved) && move.promotedPiece == old(move.promotedPiece)
    ensures Recorded(move)
  {
    proceed := true;
    if move.isCastling {
      var row := move.fromRow;
      if move.toCol == 6 {
        move.rook := board.GetPiece(row, 7);
        move.rookFromCol := Some(7);
        move.rookToCol := Some(5);
      } else {
        move.rook := board.GetPiece(row, 0);
        move.rookFromCol := Some(0);
        move.rookToCol := Some(3);
      }
      if move.rook == null {
        proceed := false;
      } else {
        move.rookPrevHasMoved := Some(move.rook.hasMoved);
      }
    }
  }

  /**
   * The board part of `makeMove` once it goes ahead: the pieces move as in
   * `ShiftPieces`, then a promotion puts a new, unmoved piece of the
   * promotion type and the mover's side on `to`.
   */
  method ApplyMove(board: Board, move: Move, piece: Piece) returns (promoted: Piece?)
    requires board.Valid() && CoordsValid(board.squares) && Recorded(move)
    requires piece == board.squares[move.fromRow, move.fromCol]
    modifies board.squares, piece, if move.isCastling then {move.rook} else {}
    ensures CoordsValid(board.squares)
    ensures (promoted != null) == move.promotionType.Some? && (promoted != null ==> fresh(promoted))
    ensures Regular(old(Abs(board.squares)), View(move)) && Proceeds(old(Abs(board.squares)), View(move)) &&
            old(RookFound(board.squares, move)) ==>
      Abs(board.squares) == MakeGrid(old(Abs(board.squares)), View(move))
    ensures Regular(old(Abs(board.squares)), View(move)) && Proceeds(old(Abs(board.squares)), View(move)) &&
            old(RookFound(board.squares, move)) ==>
      board.squares[move.toRow, move.toCol] == (if promoted != null then promoted else piece) &&
      Val(piece) == old(Val(piece)).(row := move.toRow, col := move.toCol, hasMoved := true)
    ensures Regular(old(Abs(board.squares)), View(move)) && Proceeds(old(Abs(board.squares)), View(move)) &&
            old(RookFound(board.squares, move)) && move.isCastling ==>
      board.squares[move.toRow, RookToCol(move.toCol)] == move.rook &&
      Val(move.rook) == old(Val(move.rook)).(row := move.toRow, col := RookToCol(move.toCol), hasMoved := true)
  {
    AbsAt(board.squares, move.fromRow, move.fromCol);
    ShiftPieces(board, move, piece);
    promoted := null;
    if move.promotionType.Some? {
      promoted := Promote(board, move.toRow, move.toCol, move.promotionType.value, piece.color);
    }
  }

  /** The promotion of `makeMove`: a new, unmoved piece of the given type and side replaces whatever stands on the square. */
  method Promote(board: Board, row: int, col: int, kind: PieceType, color: Color) returns (promoted: Piece)
    requires board.Valid() && CoordsValid(board.squares) && IsValidPosition(row, col)
    modifies board.squares
    ensures fresh(promoted) && board.squares[row, col] == promoted && CoordsValid(board.squares)
    ensures forall r, c :: 0 <= r < 8 && 0 <= c < 8 && (r, c) != (row, col) ==> board.squares[r, c] == old(board.squares[r, c])
    ensures Abs(board.squares) == old(Abs(board.squares))[(row, col) := PieceVal(kind, color, row, col, false)]
  {
    ghost var g := Abs(board.squares);
    AbsMirrors(board.squares);
    promoted := new Piece(kind, color, row, col);
    MirrorsAbs(board.squares, g);
    board.SetPiece(row, col, promoted);
  }

  /**
   * The board changes of `makeMove` (`ApplyMove`), with the promoted piece
   * recorded on the move. A move `Prepared` for a regular change leaves the
   * objects where `undoMove` expects them (`UndoReady`), and its recorded
   * bookkeeping is the undo record of the value view (`UndoAfterMake`).
   */
  method PlaceMove(board: Board, move: Move, piece: Piece)
    requires board.Valid() && CoordsValid(board.squares) && Recorded(move)
    requires piece == board.squares[move.fromRow, move.fromCol]
    modifies board.squares, piece, move, if move.isCastling then {move.rook} else {}
    ensures CoordsValid(board.squares) && Recorded(move)
    ensures move.prevHasMoved == old(move.prevHasMoved) && move.rook == old(move.rook)
    ensures Regular(old(Abs(board.squares)), View(move)) && Proceeds(old(Abs(board.squares)), View(move)) &&
            old(RookFound(board.squares, move)) ==>
      Abs(board.squares) == MakeGrid(old(Abs(board.squares)), View(move))
    ensures Regular(old(Abs(board.squares)), View(move)) && Proceeds(old(Abs(board.squares)), View(move)) &&
            old(RookFound(board.squares, move) && Prepared(board.squares, move)) ==>
      UndoReady(board.squares, move) && UndoOf(move) == UndoAfterMake(old(Abs(board.squares)), View(move))
  {
    ghost var g0 := Abs(board.squares);
    ghost var m := View(move);
    ghost var ready := Regular(g0, m) && Proceeds(g0, m) && RookFound(board.squares, move) && Prepared(board.squares, move);
    if ready {
      PreparedAt(board.squares, move);
    }
    PlaceOnBoard(board, move, piece);
    if ready {
      UndoReadyAfterMake(board.squares, move, g0);
      UndoOfAfterMake(move, g0);
    }
  }

  /** `ApplyMove`, then the promoted piece, if any, written on the move. */
  method PlaceOnBoard(board: Board, move: Move, piece: Piece)
    requires board.Valid() && CoordsValid(board.squares) && Recorded(move)
    requires piece == board.squares[move.fromRow, move.fromCol]
    modifies board.squares, piece, move, if move.isCastling then {move.rook} else {}
    ensures CoordsValid(board.squares) && Recorded(move)
    ensures move.prevHasMoved == old(move.prevHasMoved) && move.rook == old(move.rook) &&
            move.rookFromCol == old(move.rookFromCol) && move.rookToCol == old(move.rookToCol) &&
            move.rookPrevHasMoved == old(move.rookPrevHasMoved)
    ensures if move.promotionType.Some? then move.promotedPiece != null && fresh(move.promotedPiece)
            else move.promotedPiece == old(move.promotedPiece)
    ensures Regular(old(Abs(board.squares)), View(move)) && Proceeds(old(Abs(board.squares)), View(move)) &&
            old(RookFound(board.squares, move)) ==>
      Abs(board.squares) == MakeGrid(old(Abs(board.squares)), View(move)) &&
      board.squares[move.toRow, move.toCol] == (if move.promotionType.Some? then move.promotedPiece else piece) &&
      Val(piece) == old(Val(piece)).(row := move.toRow, col := move.toCol, hasMoved := true)
    ensures Regular(old(Abs(board.squares)), View(move)) && Proceeds(old(Abs(board.squares)), View(move)) &&
            old(RookFound(board.squares, move)) && move.isCastling ==>
      board.squares[move.toRow, RookToCol(move.toCol)] == move.rook &&
      Val(move.rook) == old(Val(move.rook)).(row := move.toRow, col := RookToCol(move.toCol), hasMoved := true)
  {
    var promoted := ApplyMove(board, move, piece);
    label Applied:
    if promoted != null {
      move.promotedPiece := promoted;
    }
    assert forall p :: p in PiecesOf(board.squares) ==> p as object != move;
    AbsUnchanged@Applied(board.squares);
  }

  /** A move and the board it is made on. */
  datatype MoveOn = MoveOn(b: array2<Piece?>, m: Move)

  /** A step that changes neither the board, the move nor the pieces it names keeps the move ready for `undoMove`. */
  twostate lemma UndoKept(u: MoveOn)
    requires Is8x8(u.b) && old(allocated(u))
    requires unchanged(u.b) && unchanged(u.m) && unchanged(u.m.piece)
    requires u.m.capturedPiece != null ==> unchanged(u.m.capturedPiece)
    requires u.m.rook != null ==> unchanged(u.m.rook)
    ensures UndoReady(u.b, u.m) == old(UndoReady(u.b, u.m)) && UndoOf(u.m) == old(UndoOf(u.m))
  {
  }

  /** What a move `Prepared` for a regular change says about the pieces it names, in terms of the board's value view. */
  lemma PreparedAt(b: array2<Piece?>, move: Move)
    requires Is8x8(b) && Regular(Abs(b), View(move)) && Proceeds(Abs(b), View(move)) && RookFound(b, move) && Prepared(b, move)
    ensures var mover := Abs(b)[(move.fromRow, move.fromCol)];
      Val(move.piece) == mover && move.prevHasMoved == mover.hasMoved
    ensures (if move.capturedPiece == null then None else Some(Val(move.capturedPiece))) == At(Abs(b), move.toRow, move.toCol)
    ensures move.capturedPiece != null ==>
      move.capturedPiece.row == move.toRow && move.capturedPiece.col == move.toCol && move.capturedPiece != move.piece
    ensures move.isCastling ==>
      var corner := Abs(b)[(move.fromRow, RookFromCol(move.toCol))];
      move.rook != null && Val(move.rook) == corner && move.rookPrevHasMoved == Some(corner.hasMoved) &&
      move.rook != move.piece && move.rook != move.capturedPiece
  {
    AbsAt(b, move.fromRow, move.fromCol);
    AbsAt(b, move.toRow, move.toCol);
    if move.isCastling {
      AbsAt(b, move.fromRow, RookFromCol(move.toCol));
    }
  }

  /** After the board changes of a regular move, the objects stand where `undoMove` expects them. */
  lemma UndoReadyAfterMake(b: array2<Piece?>, move: Move, g0: Grid)
    requires Is8x8(b) && Recorded(move) && Regular(g0, View(move)) && Proceeds(g0, View(move))
    requires Abs(b) == MakeGrid(g0, View(move))
    requires b[move.toRow, move.toCol] == if move.promotedPiece != null then move.promotedPiece else move.piece
    requires move.piece.row == move.toRow && move.piece.col == move.toCol
    requires move.capturedPiece != null ==>
      move.capturedPiece.row == move.toRow && move.capturedPiece.col == move.toCol &&
      move.capturedPiece != move.piece && move.capturedPiece != move.promotedPiece
    requires move.isCastling ==>
      move.rook != null && move.rookFromCol == Some(RookFromCol(move.toCol)) && move.rookToCol == Some(RookToCol(move.toCol)) &&
      b[move.toRow, RookToCol(move.toCol)] == move.rook && move.rook != move.capturedPiece &&
      move.rook.row == move.toRow && move.rook.col == RookToCol(move.toCol)
    ensures UndoReady(b, move)
  {
    MakeGridWellPlaced(g0, View(move));
    RecordsAlone(b, move.piece, move.toRow, move.toCol);
    if move.capturedPiece != null {
      RecordsAlone(b, move.capturedPiece, move.toRow, move.toCol);
    }
    if move.isCastling {
      RecordsAlone(b, move.rook, move.toRow, RookToCol(move.toCol));
    }
  }

  /** After the board changes of a regular move, the bookkeeping on the move is the value view's undo record. */
  lemma UndoOfAfterMake(move: Move, g0: Grid)
    requires Regular(g0, View(move)) && Proceeds(g0, View(move))
    requires var mover := g0[(move.fromRow, move.fromCol)];
      Val(move.piece) == mover.(row := move.toRow, col := move.toCol, hasMoved := true) &&
      move.prevHasMoved == mover.hasMoved
    requires (if move.capturedPiece == null then None else Some(Val(move.capturedPiece))) == At(g0, move.toRow, move.toCol)
    requires (move.promotedPiece != null) == move.promotionType.Some?
    requires move.isCastling ==>
      var corner := g0[(move.fromRow, RookFromCol(move.toCol))];
      move.rook != null && Val(move.rook) == corner.(row := move.toRow, col := RookToCol(move.toCol), hasMoved := true) &&
      move.rookFromCol == Some(RookFromCol(move.toCol)) && move.rookToCol == Some(RookToCol(move.toCol)) &&
      move.rookPrevHasMoved == Some(corner.hasMoved)
    requires !move.isCastling ==> move.rookFromCol == None && move.rookToCol == None && move.rookPrevHasMoved == None
    ensures UndoOf(move) == UndoAfterMake(g0, View(move))
  {
  }

  // ----- undoMove on the board -----

  /** What `undoMove` reads from a move and the pieces it refers to, as values. */
  ghost function UndoOf(m: Move): Undo
    reads m, m.piece, m.capturedPiece, m.rook
  {
    Undo(Val(m.piece), m.prevHasMoved, if m.capturedPiece == null then None else Some(Val(m.capturedPiece)),
         m.promotedPiece != null, if m.isCastling && m.rook != null then Some(Val(m.rook)) else None,
         if m.rookFromCol.Some? then m.rookFromCol.value else 0,
         if m.rookToCol.Some? then m.rookToCol.value else 0,
         m.rookPrevHasMoved == Some(true))
  }

  /**
   * The board objects stand where `undoMove` expects them, so that its board
   * changes are those of `UndoGrid`: the moving piece stands on `to` (or,
   * after a promotion, on no square other than `to`), a captured piece to
   * restore is off the board, and a castling rook stands alone on its castling
   * column away from `from` and `to`, its corner also away from both.
   */
  ghost predicate UndoReady(board: array2<Piece?>, m: Move)
    requires Is8x8(board)
    reads board, m
  {
    Recorded(m) && (m.fromRow, m.fromCol) != (m.toRow, m.toCol) && NotElsewhere(board, m.piece, m.toRow, m.toCol) &&
    (m.promotedPiece == null ==> board[m.toRow, m.toCol] == m.piece) &&
    (m.capturedPiece != null ==> m.capturedPiece != m.piece && Absent(board, m.capturedPiece)) &&
    (m.isCastling && m.rook != null ==>
       var corner := (m.toRow, m.rookFromCol.value);
       var aside := (m.toRow, m.rookToCol.value);
       corner != (m.fromRow, m.fromCol) && corner != (m.toRow, m.toCol) &&
       aside != (m.fromRow, m.fromCol) && aside != (m.toRow, m.toCol) &&
       board[aside.0, aside.1] == m.rook && NotElsewhere(board, m.rook, aside.0, aside.1) && m.rook != m.capturedPiece)
  }

  /**
   * A move as the generators build it for this board: its piece stands on
   * `from`, its captured piece is what stands on `to`, and none of the
   * bookkeeping `makeMove` writes is there yet.
   */
  ghost predicate AsBuilt(board: array2<Piece?>, m: Move)
    requires Is8x8(board)
    reads board, m
  {
    Placed(m) && board[m.fromRow, m.fromCol] == m.piece && board[m.toRow, m.toCol] == m.capturedPiece &&
    m.promotedPiece == null && m.rookFromCol == None && m.rookToCol == None && m.rookPrevHasMoved == None
  }

  /**
   * A move `AsBuilt` once the bookkeeping before the board changes of
   * `makeMove` is done: the mover's and the castling rook's old `hasMoved`
   * are recorded.
   */
  ghost predicate Prepared(board: array2<Piece?>, m: Move)
    requires Is8x8(board)
    reads board, m, m.piece, m.rook
  {
    Placed(m) && board[m.fromRow, m.fromCol] == m.piece && board[m.toRow, m.toCol] == m.capturedPiece &&
    m.promotedPiece == null && m.prevHasMoved == m.piece.hasMoved &&
    (m.isCastling && m.rook != null ==> m.rookPrevHasMoved == Some(m.rook.hasMoved)) &&
    (!m.isCastling ==> m.rookFromCol == None && m.rookToCol == None && m.rookPrevHasMoved == None)
  }

  /**
   * The first half of `undoMove` on the board: after a promotion `to` is
   * emptied and the moving piece goes back to `from`; otherwise the piece on
   * `to` goes back to `from` and the captured piece (or nothing) to `to`.
   */
  method UndoPiecesOn(board: Board, move: Move)
    requires board.Valid() && Recorded(move)
    modifies board.squares, board.squares[move.toRow, move.toCol], move.piece, move.capturedPiece
    ensures old(CoordsValid(board.squares)) ==> CoordsValid(board.squares)
    ensures (move.fromRow, move.fromCol) != (move.toRow, move.toCol) ==>
      board.squares[move.toRow, move.toCol] == (if move.promotedPiece != null then null else move.capturedPiece) &&
      board.squares[move.fromRow, move.fromCol] ==
        if move.promotedPiece != null then move.piece else old(board.squares[move.toRow, move.toCol])
    ensures forall r, c :: 0 <= r < 8 && 0 <= c < 8 && (r, c) != (move.fromRow, move.fromCol) && (r, c) != (move.toRow, move.toCol) ==>
      board.squares[r, c] == old(board.squares[r, c])
    ensures move.piece.hasMoved == old(move.piece.hasMoved)
    ensures old(UndoReady(board.squares, move)) ==>
      Abs(board.squares) == UndoPieces(old(Abs(board.squares)), View(move), old(UndoOf(move)))
  {
    var piece := board.GetPiece(move.toRow, move.toCol);
    if move.promotedPiece != null {
      RestorePromoted(board, move.piece, move.fromRow, move.fromCol, move.toRow, move.toCol);
    } else {
      ReturnPiece(board, piece, move.fromRow, move.fromCol, move.toRow, move.toCol, move.capturedPiece);
    }
  }

  /**
   * The promotion branch of `undoMove`: `setPiece(to, null)`, then
   * `setPiece(from, piece)` with the moving piece. The captured piece, if
   * any, is not put back.
   */
  method RestorePromoted(board: Board, piece: Piece, fromRow: int, fromCol: int, toRow: int, toCol: int)
    requires board.Valid() && IsValidPosition(fromRow, fromCol) && IsValidPosition(toRow, toCol)
    modifies board.squares, piece
    ensures old(CoordsValid(board.squares)) ==> CoordsValid(board.squares)
    ensures (fromRow, fromCol) != (toRow, toCol) ==>
      board.squares[toRow, toCol] == null && board.squares[fromRow, fromCol] == piece
    ensures forall r, c :: 0 <= r < 8 && 0 <= c < 8 && (r, c) != (fromRow, fromCol) && (r, c) != (toRow, toCol) ==>
      board.squares[r, c] == old(board.squares[r, c])
    ensures piece.hasMoved == old(piece.hasMoved)
    ensures (fromRow, fromCol) != (toRow, toCol) && old(NotElsewhere(board.squares, piece, toRow, toCol)) ==>
      Abs(board.squares) ==
        (old(Abs(board.squares)) - {(toRow, toCol)})[(fromRow, fromCol) := old(Val(piece)).(row := fromRow, col := fromCol)]
  {
    ghost var alone := (fromRow, fromCol) != (toRow, toCol) && NotElsewhere(board.squares, piece, toRow, toCol);
    board.SetPiece(toRow, toCol, null);
    if alone {
      forall r, c | 0 <= r < 8 && 0 <= c < 8 && (r, c) != (fromRow, fromCol)
        ensures board.squares[r, c] != piece
      {
        if (r, c) != (toRow, toCol) {
          assert board.squares[r, c] == old(board.squares[r, c]);
        }
      }
    }
    board.SetPiece(fromRow, fromCol, piece);
  }

  /**
   * Where the second half of `undoMove` expects the objects: the moving piece
   * alone on `from`, and a castling rook alone on its castling column, with
   * both of the rook's columns away from `from`.
   */
  ghost predicate RestReady(board: array2<Piece?>, m: Move)
    requires Is8x8(board)
    reads board, m
  {
    Recorded(m) && board[m.fromRow, m.fromCol] == m.piece && NotElsewhere(board, m.piece, m.fromRow, m.fromCol) &&
    (m.isCastling && m.rook != null ==>
       (m.toRow, m.rookFromCol.value) != (m.fromRow, m.fromCol) && (m.toRow, m.rookToCol.value) != (m.fromRow, m.fromCol) &&
       board[m.toRow, m.rookToCol.value] == m.rook && NotElsewhere(board, m.rook, m.toRow, m.rookToCol.value))
  }

  /**
   * The second half of `undoMove` on the board: a castling rook returns to
   * its corner with its old `hasMoved` (false when none was recorded), then
   * the moving piece gets its old `hasMoved`.
   */
  method UndoRestOn(board: Board, move: Move)
    requires board.Valid() && Recorded(move)
    modifies board.squares, move.piece, if move.isCastling then {move.rook} else {}
    ensures old(CoordsValid(board.squares)) ==> CoordsValid(board.squares)
    ensures old(RestReady(board.squares, move)) ==>
      Abs(board.squares) == UndoRest(old(Abs(board.squares)), View(move), old(UndoOf(move)))
  {
    ghost var g := Abs(board.squares);
    ghost var ready := RestReady(board.squares, move);
    ghost var from := (move.fromRow, move.fromCol);
    if ready {
      AbsAt(board.squares, move.fromRow, move.fromCol);
    }
    if move.isCastling && move.rook != null {
      ShiftPiece(board, move.rook, move.toRow, move.rookToCol.value, move.toRow, move.rookFromCol.value,
                 move.rookPrevHasMoved == Some(true));
      if ready {
        assert board.squares[from.0, from.1] == move.piece;
        forall r, c | 0 <= r < 8 && 0 <= c < 8 && (r, c) != from
          ensures board.squares[r, c] != move.piece
        {
          if (r, c) != (move.toRow, move.rookToCol.value) && (r, c) != (move.toRow, move.rookFromCol.value) {
            assert board.squares[r, c] == old(board.squares[r, c]);
          }
        }
      }
    }
    ghost var g2 := Abs(board.squares);
    if ready {
      AbsAt(board.squares, move.fromRow, move.fromCol);
    }
    SetMoved(board, move.piece, move.fromRow, move.fromCol, move.prevHasMoved);
  }

  /** The board changes of `undoMove`: `UndoPiecesOn`, then `UndoRestOn`. */
  method UndoBoard(board: Board, move: Move)
    requires board.Valid() && Recorded(move)
    modifies board.squares, board.squares[move.toRow, move.toCol], move.piece, move.capturedPiece
    modifies if move.isCastling then {move.rook} else {}
    ensures old(CoordsValid(board.squares)) ==> CoordsValid(board.squares)
    ensures old(UndoReady(board.squares, move)) ==>
      Abs(board.squares) == UndoGrid(old(Abs(board.squares)), View(move), old(UndoOf(move)))
  {
    ghost var ready := UndoReady(board.squares, move);
    ghost var u := UndoOf(move);
    ghost var atTo := board.squares[move.toRow, move.toCol];
    if ready && move.isCastling && move.rook != null {
      assert move.rook != atTo && move.rook != move.piece;
    }
    UndoPiecesOn(board, move);
    if ready {
      assert board.squares[move.fromRow, move.fromCol] == move.piece;
      forall r, c | 0 <= r < 8 && 0 <= c < 8 && (r, c) != (move.fromRow, move.fromCol)
        ensures board.squares[r, c] != move.piece
      {
        if (r, c) != (move.toRow, move.toCol) {
          assert board.squares[r, c] == old(board.squares[r, c]);
        }
      }
      if move.isCastling && move.rook != null {
        forall r, c | 0 <= r < 8 && 0 <= c < 8 && (r, c) != (move.toRow, move.rookToCol.value)
          ensures board.squares[r, c] != move.rook
        {
          if (r, c) != (move.toRow, move.toCol) && (r, c) != (move.fromRow, move.fromCol) {
            assert board.squares[r, c] == old(board.squares[r, c]);
          }
        }
        assert Val(move.rook) == old(Val(move.rook));
      }
      assert RestReady(board.squares, move);
    }
    ghost var u1 := UndoOf(move);
    UndoRestOn(board, move);
    if ready {
      assert u1.rook == u.rook && u1.prevHasMoved == u.prevHasMoved;
    }
  }

  // ----- the game object -----

  /** The captured piece as pushed onto the list of `side`: itself when it belongs to that side. */
  function CapturedOf(p: Piece?, side: Color): (l: seq<Piece>)
    ensures |l| <= 1 && (l != [] <==> p != null && p.color == side)
    ensures forall q :: q in l ==> q == p
  {
    if p != null && p.color == side then [p] else []
  }

  /** The capture list of `side` once `undoMove` has taken `p` off it, when `p` belongs to that side. */
  function Uncaptured(l: seq<Piece>, p: Piece?, side: Color): (r: seq<Piece>)
    ensures p != null && p.color == side ==> multiset(r) == multiset(l) - multiset{p}
    ensures p != null && p.color == side && p in l ==>
      exists i :: 0 <= i < |l| && l[i] == p && p !in l[..i] && r == l[..i] + l[i + 1..]
    ensures p == null || p.color != side || p !in l ==> r == l
  {
    if p != null && p.color == side then RemoveFirst<Piece>(l, p) else l
  }

  /**
   * `undoMove` takes back from a capture list what `makeMove` pushed on it,
   * provided the piece was not on the list before.
   */
  lemma {:induction false} UncapturedAfterCapture(l: seq<Piece>, p: Piece?, side: Color)
    requires p == null || p !in l
    ensures Uncaptured(l + CapturedOf(p, side), p, side) == l
  {
    if p != null && p.color == side {
      RemoveFirstLast<Piece>(l, p);
    } else {
      assert l + [] == l;
    }
  }

  /** Both squares of the move are on the board. */
  predicate Placed(m: Move)
  {
    IsValidPosition(m.fromRow, m.fromCol) && IsValidPosition(m.toRow, m.toCol)
  }

  /**
   * A move as `makeMove` leaves it in the history: both squares on the board,
   * and a castling move that found its rook records the rook's columns.
   */
  ghost predicate Recorded(m: Move)
    reads m
  {
    Placed(m) &&
    (m.isCastling && m.rook != null ==>
       m.rookFromCol.Some? && m.rookToCol.Some? && 0 <= m.rookFromCol.value < 8 && 0 <= m.rookToCol.value < 8)
  }

  /** Every move of a history is recorded as `makeMove` leaves it. */
  ghost predicate AllRecorded(h: seq<Move>)
    reads set m | m in h
  {
    forall k :: 0 <= k < |h| ==> Recorded(h[k])
  }

  class GameState {
    var board: Board
    /** The side to move. */
    var currentPlayer: Color
    var moveHistory: seq<Move>
    /** `capturedPieces.white` and `capturedPieces.black`. */
    var capturedWhite: seq<Piece>
    var capturedBlack: seq<Piece>
    var isGameOver: bool
    var winner: Outcome

    /**
     * The board is 8x8, every piece on it records a square of the board, and
     * every move in the history is recorded as `makeMove` leaves it.
     */
    ghost predicate Valid()
      reads this, board, board.squares, PiecesOf(board.squares), set m | m in moveHistory
    {
      board.Valid() && CoordsValid(board.squares) && AllRecorded(moveHistory)
    }

    /** The value view: board, side to move and end-of-game flags. */
    ghost function Position(): Pos
      requires board.Valid()
      reads this, board, board.squares, PiecesOf(board.squares)
    {
      Pos(Abs(board.squares), currentPlayer, isGameOver, winner)
    }

    /** A new game: the starting layout, White to move, nothing recorded. */
    constructor ()
      ensures Valid() && fresh(board) && fresh(board.squares)
      ensures Abs(board.squares) == InitialGrid() && currentPlayer == White
      ensures moveHistory == [] && capturedWhite == [] && capturedBlack == []
      ensures !isGameOver && winner == NoWinner
    {
      var b := new Board();
      InitialWellPlaced();
      WellPlacedCoords(b.squares);
      AbsMirrors(b.squares);
      board := b;
      currentPlayer := White;
      moveHistory := [];
      capturedWhite := [];
      capturedBlack := [];
      isGameOver := false;
      winner := NoWinner;
      new;
      MirrorsAbs(board.squares, InitialGrid());
    }

    /** `reset`: back to a new game on a fresh board. */
    method Reset()
      modifies this
      ensures Valid() && fresh(board) && fresh(board.squares)
      ensures Abs(board.squares) == InitialGrid() && currentPlayer == White
      ensures moveHistory == [] && capturedWhite == [] && capturedBlack == []
      ensures !isGameOver && winner == NoWinner
    {
      var b := new Board();
      InitialWellPlaced();
      WellPlacedCoords(b.squares);
      AbsMirrors(b.squares);
      board := b;
      currentPlayer := White;
      moveHistory := [];
      capturedWhite := [];
      capturedBlack := [];
      isGameOver := false;
      winner := NoWinner;
      MirrorsAbs(board.squares, InitialGrid());
    }

    /** `switchPlayer`: the turn passes to the other side; nothing else changes. */
    method SwitchPlayer()
      modifies this
      ensures currentPlayer == Opponent(old(currentPlayer)) && Opponent(currentPlayer) == old(currentPlayer)
      ensures board == old(board) && moveHistory == old(moveHistory)
      ensures capturedWhite == old(capturedWhite) && capturedBlack == old(capturedBlack)
      ensures isGameOver == old(isGameOver) && winner == old(winner)
    {
      currentPlayer := if currentPlayer == White then Black else White;
    }

    /**
     * The bookkeeping `makeMove` does before moving anything: the mover's old
     * `hasMoved`, the captured piece pushed onto its side's list, and for a
     * castling move the piece in the corner of the castling side with its
     * columns and old `hasMoved`. The answer is false exactly when castling
     * finds its corner empty, and then the move stops there.
     */
    method Prepare(move: Move, piece: Piece) returns (proceed: bool)
      requires Valid() && Placed(move)
      modifies this, move
      ensures board == old(board) && currentPlayer == old(currentPlayer) && moveHistory == old(moveHistory)
      ensures isGameOver == old(isGameOver) && winner == old(winner)
      ensures capturedWhite == old(capturedWhite) + CapturedOf(move.capturedPiece, White)
      ensures capturedBlack == old(capturedBlack) + CapturedOf(move.capturedPiece, Black)
      ensures move.prevHasMoved == piece.hasMoved && move.promotedPiece == old(move.promotedPiece)
      ensures Abs(board.squares) == old(Abs(board.squares))
      ensures proceed == (!move.isCastling || board.squares[move.fromRow, RookFromCol(move.toCol)] != null)
      ensures proceed ==> RookFound(board.squares, move)
      ensures move.isCastling ==> move.rook == board.squares[move.fromRow, RookFromCol(move.toCol)]
      ensures proceed && move.isCastling ==> move.rook != null && move.rookPrevHasMoved == Some(move.rook.hasMoved)
      ensures !move.isCastling ==> move.rook == old(move.rook) && move.rookPrevHasMoved == old(move.rookPrevHasMoved)
      ensures !move.isCastling ==> move.rookFromCol == old(move.rookFromCol) && move.rookToCol == old(move.rookToCol)
      ensures Valid() && Recorded(move)
      ensures proceed && piece == move.piece && old(AsBuilt(board.squares, move)) ==> Prepared(board.squares, move)
    {
      ghost var g := Abs(board.squares);
      AbsMirrors(board.squares);
      move.prevHasMoved := piece.hasMoved;
      if move.capturedPiece != null {
        if move.capturedPiece.color == White {
          capturedWhite := capturedWhite + [move.capturedPiece];
        } else {
          capturedBlack := capturedBlack + [move.capturedPiece];
        }
      }
      proceed := FindRook(board, move);
      MirrorsAbs(board.squares, g);
      forall k | 0 <= k < |moveHistory|
        ensures Recorded(moveHistory[k])
      {
        if moveHistory[k] != move {
          assert old(Recorded(moveHistory[k]));
        }
      }
    }

    /**
     * `makeMove`: nothing happens without a piece on `from`; otherwise the
     * bookkeeping of `Prepare` is done, and unless castling finds its corner
     * empty the pieces move (`ApplyMove`), the move is recorded, the turn
     * passes, and a side left without legal moves ends the game: lost when
     * its king is attacked, drawn otherwise.
     */
    method MakeMove(move: Move)
      requires Valid() && Placed(move)
      modifies this, board.squares, PiecesOf(board.squares), move
      ensures board == old(board) && Valid()
      ensures !Proceeds(old(Abs(board.squares)), View(move)) ==>
        Abs(board.squares) == old(Abs(board.squares)) && moveHistory == old(moveHistory) &&
        currentPlayer == old(currentPlayer) && isGameOver == old(isGameOver) && winner == old(winner)
      ensures Proceeds(old(Abs(board.squares)), View(move)) ==> moveHistory == old(moveHistory) + [move]
      ensures old(board.squares[move.fromRow, move.fromCol]) == null ==>
        capturedWhite == old(capturedWhite) && capturedBlack == old(capturedBlack)
      ensures old(board.squares[move.fromRow, move.fromCol]) != null ==>
        capturedWhite == old(capturedWhite) + CapturedOf(move.capturedPiece, White) &&
        capturedBlack == old(capturedBlack) + CapturedOf(move.capturedPiece, Black)
      ensures Regular(old(Abs(board.squares)), View(move)) ==> Position() == Play(old(Position()), View(move))
      ensures Regular(old(Abs(board.squares)), View(move)) && Proceeds(old(Abs(board.squares)), View(move)) &&
              old(AsBuilt(board.squares, move)) ==>
        UndoReady(board.squares, move) && UndoOf(move) == UndoAfterMake(old(Abs(board.squares)), View(move))
    {
      ghost var g := Abs(board.squares);
      AbsAt(board.squares, move.fromRow, move.fromCol);
      AbsAt(board.squares, move.fromRow, RookFromCol(move.toCol));
      var piece := board.GetPiece(move.fromRow, move.fromCol);
      if piece != null {
        var proceed := Prepare(move, piece);
        if proceed {
          Perform(move, piece);
          Conclude(move);
        }
      }
    }

    /**
     * The moving part of `makeMove` (`PlaceMove`): the board becomes
     * `MakeGrid`, the promoted piece is recorded on the move, and a prepared
     * move is left ready for `undoMove`.
     */
    method Perform(move: Move, piece: Piece)
      requires Valid() && Recorded(move) && piece == board.squares[move.fromRow, move.fromCol]
      requires move.isCastling ==> move.rook in PiecesOf(board.squares)
      modifies board.squares, PiecesOf(board.squares), move
      ensures Valid() && Recorded(move)
      ensures currentPlayer == old(currentPlayer) && moveHistory == old(moveHistory)
      ensures capturedWhite == old(capturedWhite) && capturedBlack == old(capturedBlack)
      ensures isGameOver == old(isGameOver) && winner == old(winner)
      ensures Regular(old(Abs(board.squares)), View(move)) && Proceeds(old(Abs(board.squares)), View(move)) &&
              old(RookFound(board.squares, move)) ==>
        Abs(board.squares) == MakeGrid(old(Abs(board.squares)), View(move))
      ensures Regular(old(Abs(board.squares)), View(move)) && Proceeds(old(Abs(board.squares)), View(move)) &&
              old(RookFound(board.squares, move) && Prepared(board.squares, move)) ==>
        UndoReady(board.squares, move) && UndoOf(move) == UndoAfterMake(old(Abs(board.squares)), View(move))
    {
      PlaceMove(board, move, piece);
      forall k | 0 <= k < |moveHistory|
        ensures Recorded(moveHistory[k])
      {
        assert old(Recorded(moveHistory[k]));
      }
    }

    /**
     * The end of `makeMove`: the move is recorded, the turn passes, and a
     * side left without legal moves ends the game, lost when its king is
     * attacked and drawn otherwise.
     */
    method Conclude(move: Move)
      requires Valid() && Recorded(move)
      modifies this
      ensures Valid() && board == old(board) && Abs(board.squares) == old(Abs(board.squares))
      ensures moveHistory == old(moveHistory) + [move] && currentPlayer == Opponent(old(currentPlayer))
      ensures capturedWhite == old(capturedWhite) && capturedBlack == old(capturedBlack)
      ensures LegalMoves(Abs(board.squares), currentPlayer) == [] ==>
        isGameOver && winner == if KingInCheck(Abs(board.squares), currentPlayer) then Winner(Opponent(currentPlayer)) else Draw
      ensures LegalMoves(Abs(board.squares), currentPlayer) != [] ==>
        isGameOver == old(isGameOver) && winner == old(winner)
      ensures UndoReady(board.squares, move) == old(UndoReady(board.squares, move)) && UndoOf(move) == old(UndoOf(move))
    {
      assert move.piece as object != this && move.capturedPiece as object? != this && move.rook as object? != this;
      label Start:
      Record(move);
      var stuck, result := GameEnd();
      if stuck {
        EndGame(result);
      }
      UndoKept@Start(MoveOn(board.squares, move));
    }

    /** The move joins the history and the turn passes. */
    method Record(move: Move)
      requires Valid() && Recorded(move)
      modifies this
      ensures Valid() && board == old(board) && Abs(board.squares) == old(Abs(board.squares))
      ensures moveHistory == old(moveHistory) + [move] && currentPlayer == Opponent(old(currentPlayer))
      ensures capturedWhite == old(capturedWhite) && capturedBlack == old(capturedBlack)
      ensures isGameOver == old(isGameOver) && winner == old(winner)
    {
      ghost var g := Abs(board.squares);
      AbsMirrors(board.squares);
      moveHistory := moveHistory + [move];
      SwitchPlayer();
      MirrorsAbs(board.squares, g);
    }

    /**
     * The end-of-game test of `makeMove` for the side to move: stuck when it
     * has no legal move, and then lost when its king is attacked, drawn
     * otherwise.
     */
    method GameEnd() returns (stuck: bool, result: Outcome)
      requires Valid()
      ensures stuck == (LegalMoves(Abs(board.squares), currentPlayer) == [])
      ensures stuck ==>
        result == if KingInCheck(Abs(board.squares), currentPlayer) then Winner(Opponent(currentPlayer)) else Draw
      ensures Abs(board.squares) == old(Abs(board.squares)) && Valid()
    {
      var legalMoves := GetAllLegalMoves(currentPlayer);
      ViewsAt(legalMoves);
      stuck := |legalMoves| == 0;
      result := NoWinner;
      if stuck {
        CoordsValidOnBoard(board.squares);
        var inCheck := IsKingInCheck(board.squares, currentPlayer);
        CoordsValidOnBoard(board.squares);
        result := if inCheck then Winner(Opponent(currentPlayer)) else Draw;
      }
    }

    /** The game is over with the given result. */
    method EndGame(result: Outcome)
      requires Valid()
      modifies this
      ensures Valid() && board == old(board) && Abs(board.squares) == old(Abs(board.squares))
      ensures moveHistory == old(moveHistory) && currentPlayer == old(currentPlayer)
      ensures capturedWhite == old(capturedWhite) && capturedBlack == old(capturedBlack)
      ensures isGameOver && winner == result
    {
      ghost var g := Abs(board.squares);
      AbsMirrors(board.squares);
      isGameOver := true;
      winner := result;
      MirrorsAbs(board.squares, g);
    }

    /**
     * `undoMove`: with an empty history nothing happens; otherwise the last
     * move is popped, its board changes are taken back (`UndoBoard`; after
     * a capturing promotion the captured piece is not put back), the captured
     * piece leaves its side's list, the turn passes back and the game is no
     * longer over.
     */
    method UndoMove()
      requires Valid()
      modifies this, board.squares, PiecesOf(board.squares)
      modifies if moveHistory == [] then {} else
        {moveHistory[|moveHistory| - 1].piece, moveHistory[|moveHistory| - 1].capturedPiece, moveHistory[|moveHistory| - 1].rook}
      ensures board == old(board) && Valid()
      ensures old(moveHistory) == [] ==>
        Abs(board.squares) == old(Abs(board.squares)) && moveHistory == [] && currentPlayer == old(currentPlayer) &&
        capturedWhite == old(capturedWhite) && capturedBlack == old(capturedBlack) &&
        isGameOver == old(isGameOver) && winner == old(winner)
      ensures old(moveHistory) == [] ==> unchanged(this) && unchanged(board.squares) && unchanged(PiecesOf(board.squares))
      ensures old(moveHistory) != [] ==>
        moveHistory == old(moveHistory[..|moveHistory| - 1]) && currentPlayer == Opponent(old(currentPlayer)) &&
        !isGameOver && winner == NoWinner &&
        capturedWhite == Uncaptured(old(capturedWhite), old(moveHistory[|moveHistory| - 1]).capturedPiece, White) &&
        capturedBlack == Uncaptured(old(capturedBlack), old(moveHistory[|moveHistory| - 1]).capturedPiece, Black)
      ensures old(moveHistory) != [] && old(UndoReady(board.squares, moveHistory[|moveHistory| - 1])) ==>
        Abs(board.squares) ==
          UndoGrid(old(Abs(board.squares)), View(old(moveHistory[|moveHistory| - 1])), old(UndoOf(moveHistory[|moveHistory| - 1])))
    {
      if moveHistory == [] {
        return;
      }
      var move := PopMove();
      UndoBoard(board, move);
      Unwind(move);
    }

    /** `moveHistory.pop()`. */
    method PopMove() returns (move: Move)
      requires Valid() && moveHistory != []
      modifies this
      ensures move == old(moveHistory[|moveHistory| - 1]) && moveHistory == old(moveHistory[..|moveHistory| - 1])
      ensures Valid() && Recorded(move) && board == old(board) && Abs(board.squares) == old(Abs(board.squares))
      ensures currentPlayer == old(currentPlayer) && capturedWhite == old(capturedWhite) && capturedBlack == old(capturedBlack)
      ensures isGameOver == old(isGameOver) && winner == old(winner)
    {
      ghost var g := Abs(board.squares);
      AbsMirrors(board.squares);
      move := moveHistory[|moveHistory| - 1];
      moveHistory := moveHistory[..|moveHistory| - 1];
      MirrorsAbs(board.squares, g);
    }

    /**
     * The end of `undoMove`: the captured piece leaves its side's list, the
     * turn passes back, and the game is no longer over.
     */
    method Unwind(move: Move)
      requires Valid()
      modifies this
      ensures Valid() && board == old(board) && Abs(board.squares) == old(Abs(board.squares))
      ensures moveHistory == old(moveHistory) && currentPlayer == Opponent(old(currentPlayer))
      ensures capturedWhite == Uncaptured(old(capturedWhite), move.capturedPiece, White)
      ensures capturedBlack == Uncaptured(old(capturedBlack), move.capturedPiece, Black)
      ensures !isGameOver && winner == NoWinner
    {
      assert forall p :: p in PiecesOf(board.squares) ==> p as object != this;
      label Start:
      Uncapture(move.capturedPiece);
      SwitchPlayer();
      isGameOver := false;
      winner := NoWinner;
      AbsUnchanged@Start(board.squares);
    }

    /** `indexOf` and `splice` on the captured piece's side's list; the other list is left alone. */
    method Uncapture(p: Piece?)
      modifies this
      ensures capturedWhite == Uncaptured(old(capturedWhite), p, White)
      ensures capturedBlack == Uncaptured(old(capturedBlack), p, Black)
      ensures board == old(board) && moveHistory == old(moveHistory) && currentPlayer == old(currentPlayer)
      ensures isGameOver == old(isGameOver) && winner == old(winner)
    {
      var white, black := Uncaptured(capturedWhite, p, White), Uncaptured(capturedBlack, p, Black);
      capturedWhite, capturedBlack := white, black;
    }

    /**
     * `wouldBeInCheckAfterMove`: on a copy of the board, the move is played
     * and the mover's side is checked for check.
     */
    method WouldBeInCheckAfterMove(move: Move) returns (inCheck: bool)
      requires board.Valid() && IsValidPosition(move.fromRow, move.fromCol) && IsValidPosition(move.toRow, move.toCol)
      ensures inCheck == LeavesInCheck(Abs(board.squares), View(move))
    {
      inCheck := InCheckAfter(board.squares, move);
    }

    /** `getAllLegalMoves(color)`: square by square in row-major order. */
    method GetAllLegalMoves(color: Color) returns (moves: seq<Move>)
      requires Valid()
      ensures Views(moves) == LegalMoves(Abs(board.squares), color)
      ensures forall k :: 0 <= k < |moves| ==> fresh(moves[k])
      ensures Abs(board.squares) == old(Abs(board.squares)) && Valid()
    {
      CoordsValidOnBoard(board.squares);
      moves := LegalMovesOn(board.squares, color);
    }
  }

  /** The body of `wouldBeInCheckAfterMove`, on the board array. */
  method InCheckAfter(board: array2<Piece?>, move: Move) returns (inCheck: bool)
    requires Is8x8(board) && IsValidPosition(move.fromRow, move.fromCol) && IsValidPosition(move.toRow, move.toCol)
    ensures inCheck == LeavesInCheck(Abs(board), View(move))
    ensures Abs(board) == old(Abs(board))
  {
    ghost var g := Abs(board);
    AbsMirrors(board);
    var tempBoard := CloneBoard(board);
    MirrorsAbs(board, g);
    assert Abs(tempBoard) == Restamp(g);
    MoveOnCopy(tempBoard, move.fromRow, move.fromCol, move.toRow, move.toCol);
    assert Abs(tempBoard) == Simulate(g, (move.fromRow, move.fromCol), (move.toRow, move.toCol));
    inCheck := IsKingInCheck(tempBoard, move.piece.color);
    MirrorsAbs(board, g);
  }

  /** The `filter` of `getAllLegalMoves`: the moves that do not leave the mover in check, in order. */
  method FilterLegal(board: array2<Piece?>, pieceMoves: seq<Move>) returns (legal: seq<Move>)
    requires Is8x8(board)
    requires forall k :: 0 <= k < |pieceMoves| ==>
      IsValidPosition(pieceMoves[k].fromRow, pieceMoves[k].fromCol) && IsValidPosition(pieceMoves[k].toRow, pieceMoves[k].toCol)
    ensures Views(legal) == Legal(Abs(board), Views(pieceMoves))
    ensures forall k :: 0 <= k < |legal| ==> legal[k] in pieceMoves
    ensures Abs(board) == old(Abs(board))
  {
    ghost var g := Abs(board);
    legal := [];
    for i := 0 to |pieceMoves|
      invariant Abs(board) == g
      invariant Views(legal) == Legal(g, Views(pieceMoves[..i]))
      invariant forall k :: 0 <= k < |legal| ==> legal[k] in pieceMoves
    {
      var inCheck := InCheckAfter(board, pieceMoves[i]);
      LegalStep(g, pieceMoves, i);
      if !inCheck {
        ViewsAppend(legal, pieceMoves[i]);
        legal := legal + [pieceMoves[i]];
      }
    }
    assert pieceMoves[..|pieceMoves|] == pieceMoves;
  }

  /** One more move through the filter of `getAllLegalMoves`. */
  lemma LegalStep(g: Grid, ms: seq<Move>, i: int)
    requires 0 <= i < |ms|
    ensures Legal(g, Views(ms[..i + 1])) ==
      Legal(g, Views(ms[..i])) + if LeavesInCheck(g, View(ms[i])) then [] else [View(ms[i])]
  {
    assert ms[..i + 1] == ms[..i] + [ms[i]];
    ViewsAppend(ms[..i], ms[i]);
  }

  /** The legal moves of the piece on (row, col) when it belongs to `color`. */
  method SquareLegalMoves(board: array2<Piece?>, color: Color, row: int, col: int) returns (legal: seq<Move>)
    requires Is8x8(board) && IsValidPosition(row, col) && CoordsOnBoard(Abs(board))
    ensures Views(legal) == SquareLegal(Abs(board), color, row, col)
    ensures forall k :: 0 <= k < |legal| ==> fresh(legal[k])
    ensures Abs(board) == old(Abs(board))
  {
    ghost var g := Abs(board);
    AbsAt(board, row, col);
    var piece := board[row, col];
    legal := [];
    if piece != null && piece.color == color {
      var pieceMoves := GenerateMovesForPiece(board, piece);
      GeneratedMovesSound(g, Val(piece), false);
      ViewsAt(pieceMoves);
      forall k | 0 <= k < |pieceMoves|
        ensures IsValidPosition(pieceMoves[k].fromRow, pieceMoves[k].fromCol)
      {
        assert Views(pieceMoves)[k] == View(pieceMoves[k]);
      }
      legal := FilterLegal(board, pieceMoves);
    }
  }

  /** The loops of `getAllLegalMoves`, on the board array. */
  method LegalMovesOn(board: array2<Piece?>, color: Color) returns (moves: seq<Move>)
    requires Is8x8(board) && CoordsOnBoard(Abs(board))
    ensures Views(moves) == LegalMoves(Abs(board), color)
    ensures forall k :: 0 <= k < |moves| ==> fresh(moves[k])
    ensures Abs(board) == old(Abs(board))
  {
    ghost var g := Abs(board);
    ghost var f := SquareLegalAt(g, color);
    moves := [];
    for row := 0 to 8
      invariant Abs(board) == g
      invariant Views(moves) == BoardScan(f, row, Width())
      invariant forall k :: 0 <= k < |moves| ==> fresh(moves[k])
    {
      var rowMoves := RowLegalMoves(board, color, row);
      ViewsConcat(moves, rowMoves);
      moves := moves + rowMoves;
    }
  }

  /** The inner loop of `getAllLegalMoves`: the squares of one row, in column order. */
  method RowLegalMoves(board: array2<Piece?>, color: Color, row: int) returns (moves: seq<Move>)
    requires Is8x8(board) && CoordsOnBoard(Abs(board)) && 0 <= row < 8
    ensures Views(moves) == RowScan(SquareLegalAt(Abs(board), color), row, Width())
    ensures forall k :: 0 <= k < |moves| ==> fresh(moves[k])
    ensures Abs(board) == old(Abs(board))
  {
    ghost var g := Abs(board);
    ghost var f := SquareLegalAt(g, color);
    moves := [];
    for col := 0 to 8
      invariant Abs(board) == g
      invariant Views(moves) == RowScan(f, row, col)
      invariant forall k :: 0 <= k < |moves| ==> fresh(moves[k])
    {
      var legal := SquareLegalMoves(board, color, row, col);
      ViewsConcat(moves, legal);
      moves := moves + legal;
    }
  }

  /** A state none of whose objects, pieces or recorded moves changed keeps its validity and its value view. */
  twostate lemma StateUnchanged(gs: GameState)
    requires old(gs.Valid()) && unchanged(gs) && unchanged(gs.board) && unchanged(gs.board.squares)
    requires unchanged(old(PiecesOf(gs.board.squares))) && unchanged(old(set m | m in gs.moveHistory))
    ensures gs.Valid() && gs.Position() == old(gs.Position())
  {
  }
}
