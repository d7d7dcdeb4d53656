/**
 * The move generators and attack queries of js/game/rules.js, over the board
 * array. Each generator appends `Move` objects to the list it is given and is
 * proved to append exactly the moves `RulesSpec` describes, in the same
 * order; none of them changes the board or any piece (no `modifies`), and
 * each says so of the board's and the mover's value.
 */
module Rules {
  import opened Types
  import opened Pieces
  import opened Grids
  import opened Helpers
  import opened Moves
  import opened RulesSpec

  /**
   * A move made for `piece` on `board`: it carries the piece, lands on the
   * board, and its `capturedPiece` is whatever object stands on its target.
   */
  ghost predicate Made(board: array2<Piece?>, piece: Piece, m: Move)
    requires Is8x8(board)
    reads board
  {
    m.piece == piece && IsValidPosition(m.toRow, m.toCol) && m.capturedPiece == board[m.toRow, m.toCol]
  }

  /** Every move of `ms` from index `from` on was made for `piece` on `board`. */
  ghost predicate AllMade(board: array2<Piece?>, piece: Piece, ms: seq<Move>, from: int)
    requires Is8x8(board)
    reads board
  {
    forall k :: 0 <= from <= k < |ms| ==> Made(board, piece, ms[k])
  }

  lemma Assoc(a: seq<MoveVal>, b: seq<MoveVal>, c: seq<MoveVal>)
    ensures (a + b) + c == a + (b + c)
  {
  }

  /**
   * `moves.push(new Move(...))`: appends a fresh move with these fields (never
   * an en passant one; no generator sets that flag). The board and the mover
   * keep their values.
   */
  method PushMove(board: array2<Piece?>, moves: seq<Move>, ghost from: int,
                  fromRow: int, fromCol: int, toRow: int, toCol: int, piece: Piece,
                  captured: Piece? := null, isCastling: bool := false, promotionType: Option<PieceType> := None)
    returns (out: seq<Move>)
    requires Is8x8(board) && 0 <= from <= |moves| && AllMade(board, piece, moves, from)
    requires IsValidPosition(toRow, toCol) && captured == board[toRow, toCol]
    ensures |out| == |moves| + 1 && out == moves + [out[|moves|]] && fresh(out[|moves|])
    ensures Views(out) == Views(moves) + [MoveVal(Figure(piece.kind, piece.color), (fromRow, fromCol), (toRow, toCol),
      if captured == null then None else Some(Figure(captured.kind, captured.color)), false, isCastling, promotionType)]
    ensures AllMade(board, piece, out, from)
    ensures Abs(board) == old(Abs(board)) && Val(piece) == old(Val(piece))
  {
    ghost var g := Abs(board);
    AbsMirrors(board);
    var m := new Move(fromRow, fromCol, toRow, toCol, piece, captured, false, isCastling, promotionType);
    ViewsAppend(moves, m);
    out := moves + [m];
    MirrorsAbs(board, g);
  }

  /** `generateMovesForPiece`: the moves of `piece`, dispatched on its type. */
  method GenerateMovesForPiece(board: array2<Piece?>, piece: Piece, forAttack: bool := false) returns (moves: seq<Move>)
    requires Is8x8(board)
    requires !forAttack && piece.kind == King && !piece.hasMoved ==> 0 <= piece.row < 8
    ensures Views(moves) == PieceMoves(Abs(board), Val(piece), forAttack)
    ensures forall k :: 0 <= k < |moves| ==> fresh(moves[k])
    ensures AllMade(board, piece, moves, 0)
    ensures Abs(board) == old(Abs(board)) && Val(piece) == old(Val(piece))
    decreases if forAttack then 1 else 8
  {
    match piece.kind
    case Pawn => moves := GeneratePawnMoves(board, piece, []);
    case Rook => moves := GenerateRookMoves(board, piece, []);
    case Knight => moves := GenerateKnightMoves(board, piece, []);
    case Bishop => moves := GenerateBishopMoves(board, piece, []);
    case Queen => moves := GenerateQueenMoves(board, piece, []);
    case King => moves := GenerateKingMoves(board, piece, [], forAttack);
  }

  /** Pushes, then the captures towards column -1 and +1. */
  method GeneratePawnMoves(board: array2<Piece?>, pawn: Piece, moves: seq<Move>) returns (out: seq<Move>)
    requires Is8x8(board)
    ensures Views(out) == Views(moves) + PawnMoves(Abs(board), Val(pawn))
    ensures |out| >= |moves| && out[..|moves|] == moves
    ensures forall k :: |moves| <= k < |out| ==> fresh(out[k])
    ensures AllMade(board, pawn, out, |moves|)
    ensures Abs(board) == old(Abs(board)) && Val(pawn) == old(Val(pawn))
  {
    ghost var g := Abs(board);
    ghost var p := Val(pawn);
    out := GeneratePawnPushes(board, pawn, moves, |moves|, g, p);
    ghost var acc := PawnPushes(g, p);
    var offsets := [-1, 1];
    for i := 0 to 2
      invariant Abs(board) == g && Val(pawn) == p
      invariant |out| >= |moves| && out[..|moves|] == moves
      invariant forall k :: |moves| <= k < |out| ==> fresh(out[k])
      invariant AllMade(board, pawn, out, |moves|)
      invariant Views(out) == Views(moves) + acc
      invariant acc == PawnPushes(g, p) + (if i == 0 then [] else PawnCapture(g, p, -1)) + (if i == 2 then PawnCapture(g, p, 1) else [])
    {
      ghost var before := out;
      out := GeneratePawnCapture(board, pawn, out, |moves|, offsets[i]);
      Assoc(Views(moves), acc, PawnCapture(g, p, offsets[i]));
      acc := acc + PawnCapture(g, p, offsets[i]);
      assert out[..|moves|] == before[..|before|][..|moves|];
    }
  }

  /** The pawn's single step onto an empty square and, from its start row, the double step. */
  method GeneratePawnPushes(board: array2<Piece?>, pawn: Piece, moves: seq<Move>, ghost from: int, ghost g: Grid, ghost p: PieceVal)
    returns (out: seq<Move>)
    requires Is8x8(board) && 0 <= from <= |moves| && AllMade(board, pawn, moves, from)
    requires Abs(board) == g && Val(pawn) == p
    ensures Views(out) == Views(moves) + PawnPushes(g, p)
    ensures |out| >= |moves| && out[..|moves|] == moves
    ensures forall k :: |moves| <= k < |out| ==> fresh(out[k])
    ensures AllMade(board, pawn, out, from)
    ensures Abs(board) == g && Val(pawn) == p
  {
    var direction := if pawn.color == White then -1 else 1;
    var startRow := if pawn.color == White then 6 else 1;
    var row := pawn.row;
    var col := pawn.col;
    var newRow := row + direction;
    out := moves;
    if IsValidPosition(newRow, col) {
      AbsAt(board, newRow, col);
    }
    if IsValidPosition(newRow, col) && board[newRow, col] == null {
      out := PushSingle(board, pawn, out, from, newRow, g, p);
      if row == startRow {
        ghost var once := out;
        out := PushDouble(board, pawn, out, from, g, p);
        assert out[..|moves|] == once[..|once|][..|moves|];
      }
    }
  }

  /** The single step onto the empty square `(toRow, pawn.col)`, promoting to a queen on the last row. */
  method PushSingle(board: array2<Piece?>, pawn: Piece, moves: seq<Move>, ghost from: int, toRow: int, ghost g: Grid, ghost p: PieceVal)
    returns (out: seq<Move>)
    requires Is8x8(board) && 0 <= from <= |moves| && AllMade(board, pawn, moves, from)
    requires Abs(board) == g && Val(pawn) == p
    requires IsValidPosition(toRow, p.col) && board[toRow, p.col] == null
    ensures Views(out) == Views(moves) + [Step(p, (toRow, p.col), None, PromotionOn(p.color, toRow))]
    ensures |out| == |moves| + 1 && out[..|moves|] == moves && fresh(out[|moves|])
    ensures AllMade(board, pawn, out, from)
    ensures Abs(board) == g && Val(pawn) == p
  {
    var promotionRow := if pawn.color == White then 0 else 7;
    if toRow == promotionRow {
      out := PushMove(board, moves, from, pawn.row, pawn.col, toRow, pawn.col, pawn, null, false, Some(Queen));
    } else {
      out := PushMove(board, moves, from, pawn.row, pawn.col, toRow, pawn.col, pawn);
    }
  }

  /** From the start row, the double step when its target square is empty. */
  method PushDouble(board: array2<Piece?>, pawn: Piece, moves: seq<Move>, ghost from: int, ghost g: Grid, ghost p: PieceVal)
    returns (out: seq<Move>)
    requires Is8x8(board) && 0 <= from <= |moves| && AllMade(board, pawn, moves, from)
    requires Abs(board) == g && Val(pawn) == p && p.row == StartRow(p.color) && 0 <= p.col < 8
    ensures var to := (p.row + 2 * Forward(p.color), p.col);
      Views(out) == Views(moves) + if At(g, to.0, to.1).None? then [Step(p, to, None)] else []
    ensures |out| >= |moves| && out[..|moves|] == moves
    ensures forall k :: |moves| <= k < |out| ==> fresh(out[k])
    ensures AllMade(board, pawn, out, from)
    ensures Abs(board) == g && Val(pawn) == p
  {
    var direction := if pawn.color == White then -1 else 1;
    var doubleRow := pawn.row + 2 * direction;
    out := moves;
    AbsAt(board, doubleRow, pawn.col);
    if board[doubleRow, pawn.col] == null {
      out := PushMove(board, out, from, pawn.row, pawn.col, doubleRow, pawn.col, pawn);
    }
  }

  /** The capture towards column offset `dc`: an enemy piece on the forward diagonal. */
  method GeneratePawnCapture(board: array2<Piece?>, pawn: Piece, moves: seq<Move>, ghost from: int, dc: int)
    returns (out: seq<Move>)
    requires Is8x8(board) && 0 <= from <= |moves| && AllMade(board, pawn, moves, from)
    ensures Views(out) == Views(moves) + PawnCapture(Abs(board), Val(pawn), dc)
    ensures |out| >= |moves| && out[..|moves|] == moves
    ensures forall k :: |moves| <= k < |out| ==> fresh(out[k])
    ensures AllMade(board, pawn, out, from)
    ensures Abs(board) == old(Abs(board)) && Val(pawn) == old(Val(pawn))
  {
    var direction := if pawn.color == White then -1 else 1;
    var promotionRow := if pawn.color == White then 0 else 7;
    var newRow := pawn.row + direction;
    var newCol := pawn.col + dc;
    out := moves;
    if IsValidPosition(newRow, newCol) {
      AbsAt(board, newRow, newCol);
      var target := board[newRow, newCol];
      if target != null && target.color != pawn.color {
        if newRow == promotionRow {
          out := PushMove(board, out, from, pawn.row, pawn.col, newRow, newCol, pawn, target, false, Some(Queen));
        } else {
          out := PushMove(board, out, from, pawn.row, pawn.col, newRow, newCol, pawn, target);
        }
      }
    }
  }

  method GenerateRookMoves(board: array2<Piece?>, rook: Piece, moves: seq<Move>) returns (out: seq<Move>)
    requires Is8x8(board)
    ensures Views(out) == Views(moves) + Slides(Abs(board), Val(rook), RookDirections)
    ensures |out| >= |moves| && out[..|moves|] == moves
    ensures forall k :: |moves| <= k < |out| ==> fresh(out[k])
    ensures AllMade(board, rook, out, |moves|)
    ensures Abs(board) == old(Abs(board)) && Val(rook) == old(Val(rook))
  {
    out := GenerateSlidingMoves(board, rook, moves, RookDirections);
  }

  method GenerateBishopMoves(board: array2<Piece?>, bishop: Piece, moves: seq<Move>) returns (out: seq<Move>)
    requires Is8x8(board)
    ensures Views(out) == Views(moves) + Slides(Abs(board), Val(bishop), BishopDirections)
    ensures |out| >= |moves| && out[..|moves|] == moves
    ensures forall k :: |moves| <= k < |out| ==> fresh(out[k])
    ensures AllMade(board, bishop, out, |moves|)
    ensures Abs(board) == old(Abs(board)) && Val(bishop) == old(Val(bishop))
  {
    out := GenerateSlidingMoves(board, bishop, moves, BishopDirections);
  }

  method GenerateQueenMoves(board: array2<Piece?>, queen: Piece, moves: seq<Move>) returns (out: seq<Move>)
    requires Is8x8(board)
    ensures Views(out) == Views(moves) + Slides(Abs(board), Val(queen), QueenDirections)
    ensures |out| >= |moves| && out[..|moves|] == moves
    ensures forall k :: |moves| <= k < |out| ==> fresh(out[k])
    ensures AllMade(board, queen, out, |moves|)
    ensures Abs(board) == old(Abs(board)) && Val(queen) == old(Val(queen))
  {
    out := GenerateSlidingMoves(board, queen, moves, QueenDirections);
  }

  /** One more square of a ray: the ray from (r, c) is its first move and the ray beyond. */
  lemma RayStep(acc: seq<MoveVal>, g: Grid, p: PieceVal, r: int, c: int, dr: int, dc: int)
    requires IsDirection((dr, dc)) && IsValidPosition(r, c) && At(g, r, c).None?
    ensures acc + Ray(g, p, r, c, dr, dc) == (acc + [Step(p, (r, c), None)]) + Ray(g, p, r + dr, c + dc, dr, dc)
  {
  }

  /** A ray stops at the first occupied square: a capture of an enemy there, or nothing. */
  lemma RayStop(g: Grid, p: PieceVal, r: int, c: int, dr: int, dc: int)
    requires IsDirection((dr, dc)) && IsValidPosition(r, c) && At(g, r, c).Some?
    ensures Ray(g, p, r, c, dr, dc) ==
      if At(g, r, c).value.color != p.color then [Step(p, (r, c), Captured(At(g, r, c)))] else []
  {
  }

  /** The rays of `directions`, in the order given. */
  method GenerateSlidingMoves(board: array2<Piece?>, piece: Piece, moves: seq<Move>, directions: seq<(int, int)>)
    returns (out: seq<Move>)
    requires Is8x8(board)
    requires forall i :: 0 <= i < |directions| ==> IsDirection(directions[i])
    ensures Views(out) == Views(moves) + Slides(Abs(board), Val(piece), directions)
    ensures |out| >= |moves| && out[..|moves|] == moves
    ensures forall k :: |moves| <= k < |out| ==> fresh(out[k])
    ensures AllMade(board, piece, out, |moves|)
    ensures Abs(board) == old(Abs(board)) && Val(piece) == old(Val(piece))
  {
    ghost var g := Abs(board);
    ghost var p := Val(piece);
    ghost var acc: seq<MoveVal> := [];
    out := moves;
    for i := 0 to |directions|
      invariant Abs(board) == g && Val(piece) == p
      invariant |out| >= |moves| && out[..|moves|] == moves
      invariant forall k :: |moves| <= k < |out| ==> fresh(out[k])
      invariant AllMade(board, piece, out, |moves|)
      invariant Views(out) == Views(moves) + acc
      invariant acc == Slides(g, p, directions[..i])
    {
      ghost var before := out;
      var (dr, dc) := directions[i];
      out := SlideRay(board, piece, out, |moves|, dr, dc);
      Assoc(Views(moves), acc, Ray(g, p, p.row + dr, p.col + dc, dr, dc));
      acc := acc + Ray(g, p, p.row + dr, p.col + dc, dr, dc);
      assert out[..|moves|] == before[..|before|][..|moves|];
      assert directions[..i + 1][..i] == directions[..i];
    }
    assert directions[..|directions|] == directions;
  }

  /**
   * One direction: steps from the piece's recorded square while on the
   * board; an empty square is a move, an enemy square is a capture that ends
   * the direction, a friendly square ends it without a move.
   */
  method SlideRay(board: array2<Piece?>, piece: Piece, moves: seq<Move>, ghost from: int, dr: int, dc: int)
    returns (out: seq<Move>)
    requires Is8x8(board) && IsDirection((dr, dc))
    requires 0 <= from <= |moves| && AllMade(board, piece, moves, from)
    ensures Views(out) == Views(moves) + Ray(Abs(board), Val(piece), piece.row + dr, piece.col + dc, dr, dc)
    ensures |out| >= |moves| && out[..|moves|] == moves
    ensures forall k :: |moves| <= k < |out| ==> fresh(out[k])
    ensures AllMade(board, piece, out, from)
    ensures Abs(board) == old(Abs(board)) && Val(piece) == old(Val(piece))
  {
    ghost var g := Abs(board);
    ghost var p := Val(piece);
    ghost var whole := Views(moves) + Ray(g, p, p.row + dr, p.col + dc, dr, dc);
    var row := piece.row + dr;
    var col := piece.col + dc;
    out := moves;
    while IsValidPosition(row, col)
      invariant Abs(board) == g && Val(piece) == p
      invariant |out| >= |moves| && out[..|moves|] == moves
      invariant forall k :: |moves| <= k < |out| ==> fresh(out[k])
      invariant AllMade(board, piece, out, from)
      invariant Views(out) + Ray(g, p, row, col, dr, dc) == whole
      decreases RayMeasure(row, col, dr, dc)
    {
      AbsAt(board, row, col);
      var target := board[row, col];
      if target == null {
        RayStep(Views(out), g, p, row, col, dr, dc);
        out := PushMove(board, out, from, piece.row, piece.col, row, col, piece);
      } else {
        RayStop(g, p, row, col, dr, dc);
        if target.color != piece.color {
          out := PushMove(board, out, from, piece.row, piece.col, row, col, piece, target);
        }
        assert Views(out) == whole;
        break;
      }
      row := row + dr;
      col := col + dc;
    }
    assert Views(out) == whole by {
      if !IsValidPosition(row, col) {
        assert Views(out) + [] == Views(out);
      }
    }
    assert piece.row == p.row && piece.col == p.col;
  }

  method GenerateKnightMoves(board: array2<Piece?>, knight: Piece, moves: seq<Move>) returns (out: seq<Move>)
    requires Is8x8(board)
    ensures Views(out) == Views(moves) + Jumps(Abs(board), Val(knight), KnightOffsets)
    ensures |out| >= |moves| && out[..|moves|] == moves
    ensures forall k :: |moves| <= k < |out| ==> fresh(out[k])
    ensures AllMade(board, knight, out, |moves|)
    ensures Abs(board) == old(Abs(board)) && Val(knight) == old(Val(knight))
  {
    out := GenerateJumps(board, knight, moves, KnightOffsets);
  }

  /**
   * The offset loop shared by the knight and the (non-castling) king: each
   * on-board target that is empty or holds an enemy is a move, recording the
   * target's content as captured.
   */
  method GenerateJumps(board: array2<Piece?>, piece: Piece, moves: seq<Move>, offsets: seq<(int, int)>)
    returns (out: seq<Move>)
    requires Is8x8(board)
    ensures Views(out) == Views(moves) + Jumps(Abs(board), Val(piece), offsets)
    ensures |out| >= |moves| && out[..|moves|] == moves
    ensures forall k :: |moves| <= k < |out| ==> fresh(out[k])
    ensures AllMade(board, piece, out, |moves|)
    ensures Abs(board) == old(Abs(board)) && Val(piece) == old(Val(piece))
  {
    ghost var g := Abs(board);
    ghost var p := Val(piece);
    ghost var acc: seq<MoveVal> := [];
    out := moves;
    for i := 0 to |offsets|
      invariant Abs(board) == g && Val(piece) == p
      invariant |out| >= |moves| && out[..|moves|] == moves
      invariant forall k :: |moves| <= k < |out| ==> fresh(out[k])
      invariant AllMade(board, piece, out, |moves|)
      invariant Views(out) == Views(moves) + acc
      invariant acc == Jumps(g, p, offsets[..i])
    {
      ghost var acc0 := acc;
      var (dr, dc) := offsets[i];
      var newRow := piece.row + dr;
      var newCol := piece.col + dc;
      if IsValidPosition(newRow, newCol) {
        AbsAt(board, newRow, newCol);
        var target := board[newRow, newCol];
        if target == null || target.color != piece.color {
          ghost var v := Step(p, (newRow, newCol), Captured(At(g, newRow, newCol)));
          Assoc(Views(moves), acc, [v]);
          out := PushMove(board, out, |moves|, piece.row, piece.col, newRow, newCol, piece, target);
          acc := acc + [v];
        }
      }
      assert acc == acc0 + Jump(g, p, offsets[i]);
      assert offsets[..i + 1][..i] == offsets[..i];
    }
    assert offsets[..|offsets|] == offsets;
  }

  /**
   * The eight king steps; then, unless `forAttack`, the castling moves.
   */
  method GenerateKingMoves(board: array2<Piece?>, king: Piece, moves: seq<Move>, forAttack: bool := false)
    returns (out: seq<Move>)
    requires Is8x8(board)
    requires !forAttack && !king.hasMoved ==> 0 <= king.row < 8
    ensures Views(out) == Views(moves) + KingMoves(Abs(board), Val(king), forAttack)
    ensures |out| >= |moves| && out[..|moves|] == moves
    ensures forall k :: |moves| <= k < |out| ==> fresh(out[k])
    ensures AllMade(board, king, out, |moves|)
    ensures Abs(board) == old(Abs(board)) && Val(king) == old(Val(king))
    decreases if forAttack then 0 else 7
  {
    out := GenerateJumps(board, king, moves, KingOffsets);
    if forAttack {
      return;
    }
    ghost var jumps := out;
    out := GenerateCastles(board, king, out, |moves|);
    assert out[..|moves|] == jumps[..|jumps|][..|moves|];
    Assoc(Views(moves), Jumps(Abs(board), Val(king), KingOffsets), Castles(Abs(board), Val(king)));
  }

  /**
   * Castling for an unmoved king that is not in check: short before long.
   */
  method GenerateCastles(board: array2<Piece?>, king: Piece, moves: seq<Move>, ghost from: int) returns (out: seq<Move>)
    requires Is8x8(board) && (!king.hasMoved ==> 0 <= king.row < 8)
    requires 0 <= from <= |moves| && AllMade(board, king, moves, from)
    ensures Views(out) == Views(moves) + Castles(Abs(board), Val(king))
    ensures |out| >= |moves| && out[..|moves|] == moves
    ensures forall k :: |moves| <= k < |out| ==> fresh(out[k])
    ensures AllMade(board, king, out, from)
    ensures Abs(board) == old(Abs(board)) && Val(king) == old(Val(king))
    decreases 6
  {
    ghost var g := Abs(board);
    ghost var p := Val(king);
    out := moves;
    if king.hasMoved {
      return;
    }
    var inCheck := IsKingInCheck(board, king.color);
    if inCheck {
      ValKept(king);
      return;
    }
    out := AddShortCastle(board, king, out, from);
    ghost var short := out;
    out := AddLongCastle(board, king, out, from);
    assert out[..|moves|] == short[..|short|][..|moves|];
    Assoc(Views(moves), if ShortCastleAllowed(g, p) then [CastleMove(p, 6)] else [],
      if LongCastleAllowed(g, p) then [CastleMove(p, 2)] else []);
  }

  /**
   * Short castling: an unmoved Rook-type piece on column 7, columns 5 and 6
   * empty and neither attacked by the other side.
   */
  method AddShortCastle(board: array2<Piece?>, king: Piece, moves: seq<Move>, ghost from: int) returns (out: seq<Move>)
    requires Is8x8(board) && 0 <= king.row < 8
    requires 0 <= from <= |moves| && AllMade(board, king, moves, from)
    ensures Views(out) == Views(moves) + (if ShortCastleAllowed(Abs(board), Val(king)) then [CastleMove(Val(king), 6)] else [])
    ensures |out| >= |moves| && out[..|moves|] == moves
    ensures forall k :: |moves| <= k < |out| ==> fresh(out[k])
    ensures AllMade(board, king, out, from)
    ensures Abs(board) == old(Abs(board)) && Val(king) == old(Val(king))
    decreases 5
  {
    var enemyColor := if king.color == White then Black else White;
    var row := king.row;
    AbsAt(board, row, 7);
    AbsAt(board, row, 5);
    AbsAt(board, row, 6);
    out := moves;
    var rook := board[row, 7];
    if rook != null && rook.kind == Rook && !rook.hasMoved && board[row, 5] == null && board[row, 6] == null {
      var attacked5 := IsSquareAttacked(board, row, 5, enemyColor);
      if !attacked5 {
        var attacked6 := IsSquareAttacked(board, row, 6, enemyColor);
        if !attacked6 {
          out := PushMove(board, out, from, row, 4, row, 6, king, null, true);
        }
      }
    }
    ValKept(king);
  }

  /**
   * Long castling: an unmoved Rook-type piece on column 0, columns 1 to 3
   * empty and columns 3 and 2 not attacked by the other side.
   */
  method AddLongCastle(board: array2<Piece?>, king: Piece, moves: seq<Move>, ghost from: int) returns (out: seq<Move>)
    requires Is8x8(board) && 0 <= king.row < 8
    requires 0 <= from <= |moves| && AllMade(board, king, moves, from)
    ensures Views(out) == Views(moves) + (if LongCastleAllowed(Abs(board), Val(king)) then [CastleMove(Val(king), 2)] else [])
    ensures |out| >= |moves| && out[..|moves|] == moves
    ensures forall k :: |moves| <= k < |out| ==> fresh(out[k])
    ensures AllMade(board, king, out, from)
    ensures Abs(board) == old(Abs(board)) && Val(king) == old(Val(king))
    decreases 5
  {
    var enemyColor := if king.color == White then Black else White;
    var row := king.row;
    AbsAt(board, row, 0);
    AbsAt(board, row, 1);
    AbsAt(board, row, 2);
    AbsAt(board, row, 3);
    out := moves;
    var rook := board[row, 0];
    if rook != null && rook.kind == Rook && !rook.hasMoved &&
       board[row, 1] == null && board[row, 2] == null && board[row, 3] == null {
      var attacked3 := IsSquareAttacked(board, row, 3, enemyColor);
      if !attacked3 {
        var attacked2 := IsSquareAttacked(board, row, 2, enemyColor);
        if !attacked2 {
          out := PushMove(board, out, from, row, 4, row, 2, king, null, true);
        }
      }
    }
    ValKept(king);
  }

  /** One step of the row-major king search, at square (r, c). */
  lemma FindKingStep(g: Grid, color: Color, r: int, c: int)
    requires 0 <= r < 8 && 0 <= c < 8
    ensures FindKingFrom(g, color, 8 * r + c) ==
      if IsKingOf(At(g, r, c), color) then Some((r, c)) else FindKingFrom(g, color, 8 * r + c + 1)
  {
    assert (8 * r + c) / 8 == r && (8 * r + c) % 8 == c;
  }

  /**
   * `isKingInCheck`: finds the first king of `color` in row-major order; with
   * none, false; otherwise whether some piece of the other side attacks the
   * king's square, by the same scan `isSquareAttacked` performs.
   */
  method IsKingInCheck(board: array2<Piece?>, color: Color) returns (inCheck: bool)
    requires Is8x8(board)
    ensures inCheck == KingInCheck(Abs(board), color)
    ensures Abs(board) == old(Abs(board))
    decreases 4
  {
    ghost var g := Abs(board);
    var kingPos: Option<Square> := None;
    for r := 0 to 8
      invariant Abs(board) == g
      invariant kingPos.None? && FindKing(g, color) == FindKingFrom(g, color, 8 * r)
    {
      for c := 0 to 8
        invariant Abs(board) == g
        invariant kingPos.None? && FindKing(g, color) == FindKingFrom(g, color, 8 * r + c)
      {
        AbsAt(board, r, c);
        FindKingStep(g, color, r, c);
        var p := board[r, c];
        if p != null && p.kind == King && p.color == color {
          assert IsKingOf(At(g, r, c), color);
          kingPos := Some((r, c));
          break;
        }
      }
      if kingPos.Some? {
        break;
      }
    }

    if kingPos.None? {
      assert FindKing(g, color).None?;
      return false;
    }

    var enemyColor := if color == White then Black else White;
    assert kingPos == FindKing(g, color);
    inCheck := IsSquareAttacked(board, kingPos.value.0, kingPos.value.1, enemyColor);
    assert inCheck == SquareAttacked(g, kingPos.value.0, kingPos.value.1, enemyColor);
    assert enemyColor == Opponent(color);
    assert KingInCheck(g, color) == SquareAttacked(g, kingPos.value.0, kingPos.value.1, Opponent(color));
  }

  /**
   * `isSquareAttacked`: each piece of `byColor`, in row-major order, has its
   * attack moves generated and searched for one landing on (row, col); the
   * first hit answers true.
   */
  method IsSquareAttacked(board: array2<Piece?>, row: int, col: int, byColor: Color) returns (attacked: bool)
    requires Is8x8(board)
    ensures attacked == SquareAttacked(Abs(board), row, col, byColor)
    ensures Abs(board) == old(Abs(board))
    decreases 3
  {
    ghost var g := Abs(board);
    for r := 0 to 8
      invariant Abs(board) == g
      invariant forall r', c' :: 0 <= r' < r && 0 <= c' < 8 ==> !AttackerAt(g, r', c', (row, col), byColor)
    {
      for c := 0 to 8
        invariant Abs(board) == g
        invariant forall r', c' :: 0 <= r' < r && 0 <= c' < 8 ==> !AttackerAt(g, r', c', (row, col), byColor)
        invariant forall c' :: 0 <= c' < c ==> !AttackerAt(g, r, c', (row, col), byColor)
      {
        var hit := AttackerOn(board, r, c, row, col, byColor, g);
        if hit {
          return true;
        }
      }
    }
    return false;
  }

  /** One square of the `isSquareAttacked` scan: a piece of `byColor` there whose attack moves reach (row, col). */
  method AttackerOn(board: array2<Piece?>, r: int, c: int, row: int, col: int, byColor: Color, ghost g: Grid)
    returns (hit: bool)
    requires Is8x8(board) && 0 <= r < 8 && 0 <= c < 8 && Abs(board) == g
    ensures hit == AttackerAt(g, r, c, (row, col), byColor)
    ensures Abs(board) == g
    decreases 2
  {
    AbsAt(board, r, c);
    var piece := board[r, c];
    hit := false;
    if piece != null && piece.color == byColor {
      var ms := GenerateMovesForPiece(board, piece, true);
      label Generated:
      hit := LandsOn(ms, row, col);
      AbsUnchanged@Generated(board);
    }
  }

  /** The `some` search over a piece's attack moves: one of them lands on (row, col). */
  method LandsOn(ms: seq<Move>, row: int, col: int) returns (found: bool)
    ensures found == Targets(Views(ms), (row, col))
  {
    ViewsAt(ms);
    for j := 0 to |ms|
      invariant forall j' :: 0 <= j' < j ==> Views(ms)[j'].to != (row, col)
    {
      if ms[j].toRow == row && ms[j].toCol == col {
        assert Views(ms)[j].to == (row, col);
        return true;
      }
    }
    return false;
  }
}
