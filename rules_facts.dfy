/**
 * What the move rules promise, proved about the functions of `RulesSpec`.
 */
module RuleFacts {
  import opened Types
  import opened Helpers
  import opened RulesSpec

  /**
   * An ordinary (non-castling) move of `p`: it carries p's type and side,
   * starts at p's recorded square, lands on the board on a square that is
   * empty or holds an enemy, and records exactly that enemy as captured.
   */
  predicate StepSound(g: Grid, p: PieceVal, m: MoveVal)
  {
    !m.castling && !m.enPassant && m.mover == FigureOf(p) && m.from == (p.row, p.col) &&
    IsValidPosition(m.to.0, m.to.1) && Enterable(At(g, m.to.0, m.to.1), p.color) &&
    m.captured == Captured(At(g, m.to.0, m.to.1))
  }

  lemma {:induction false} RaySound(g: Grid, p: PieceVal, r: int, c: int, dr: int, dc: int)
    requires IsDirection((dr, dc))
    ensures forall m :: m in Ray(g, p, r, c, dr, dc) ==> StepSound(g, p, m) && m.promotion.None?
    decreases RayMeasure(r, c, dr, dc)
  {
    if IsValidPosition(r, c) && At(g, r, c).None? {
      RaySound(g, p, r + dr, c + dc, dr, dc);
    }
  }

  /**
   * One direction of a sliding piece: the i-th move lands i steps from the
   * start; every square before the last is empty; and unless the run ends on
   * an enemy, the square after it is off the board or holds a friend.
   */
  lemma {:induction false} RayShape(g: Grid, p: PieceVal, r: int, c: int, dr: int, dc: int)
    requires IsDirection((dr, dc))
    ensures var ray := Ray(g, p, r, c, dr, dc);
      forall i :: 0 <= i < |ray| ==> ray[i].to == (r + i * dr, c + i * dc)
    ensures var ray := Ray(g, p, r, c, dr, dc);
      forall i :: 0 <= i < |ray| - 1 ==> At(g, ray[i].to.0, ray[i].to.1).None?
    ensures var ray := Ray(g, p, r, c, dr, dc); var n := |ray|;
      (n == 0 || At(g, ray[n - 1].to.0, ray[n - 1].to.1).None?) ==>
        !IsValidPosition(r + n * dr, c + n * dc) ||
        (At(g, r + n * dr, c + n * dc).Some? && At(g, r + n * dr, c + n * dc).value.color == p.color)
    decreases RayMeasure(r, c, dr, dc)
  {
    if IsValidPosition(r, c) && At(g, r, c).None? {
      RayShape(g, p, r + dr, c + dc, dr, dc);
      var rest := Ray(g, p, r + dr, c + dc, dr, dc);
      var ray := Ray(g, p, r, c, dr, dc);
      assert ray == [Step(p, (r, c), None)] + rest;
      forall i | 1 <= i < |ray|
        ensures ray[i].to == (r + i * dr, c + i * dc)
      {
        assert ray[i] == rest[i - 1];
        assert (r + dr) + (i - 1) * dr == r + i * dr;
        assert (c + dc) + (i - 1) * dc == c + i * dc;
      }
      var n := |rest|;
      assert (r + dr) + n * dr == r + (n + 1) * dr;
      assert (c + dc) + n * dc == c + (n + 1) * dc;
    }
  }

  lemma {:induction false} SlidesSound(g: Grid, p: PieceVal, directions: seq<(int, int)>)
    requires forall i :: 0 <= i < |directions| ==> IsDirection(directions[i])
    ensures forall m :: m in Slides(g, p, directions) ==> StepSound(g, p, m) && m.promotion.None?
  {
    if directions != [] {
      var d := directions[|directions| - 1];
      SlidesSound(g, p, directions[..|directions| - 1]);
      RaySound(g, p, p.row + d.0, p.col + d.1, d.0, d.1);
    }
  }

  lemma {:induction false} JumpsSound(g: Grid, p: PieceVal, offsets: seq<(int, int)>)
    ensures forall m :: m in Jumps(g, p, offsets) ==> StepSound(g, p, m) && m.promotion.None?
  {
    if offsets != [] {
      JumpsSound(g, p, offsets[..|offsets| - 1]);
    }
  }

  /**
   * The shape of a pawn move: a move along the pawn's column lands on an
   * empty square, one step forward or, from the start row over an empty
   * square, two; any other move is a one-step diagonal onto an enemy piece;
   * and exactly the moves reaching the last row promote, always to a queen.
   */
  predicate PawnShape(g: Grid, p: PieceVal, m: MoveVal)
  {
    && StepSound(g, p, m)
    && m.promotion == PromotionOn(p.color, m.to.0)
    && (m.to.1 == p.col ==>
          At(g, m.to.0, m.to.1).None? &&
          (m.to.0 == p.row + Forward(p.color) ||
           (m.to.0 == p.row + 2 * Forward(p.color) && p.row == StartRow(p.color) &&
            At(g, p.row + Forward(p.color), p.col).None?)))
    && (m.to.1 != p.col ==>
          m.to.0 == p.row + Forward(p.color) && (m.to.1 == p.col - 1 || m.to.1 == p.col + 1) &&
          At(g, m.to.0, m.to.1).Some? && At(g, m.to.0, m.to.1).value.color != p.color)
  }

  /** Every pawn move has the shape above. */
  lemma PawnMoveRules(g: Grid, p: PieceVal)
    ensures forall m :: m in PawnMoves(g, p) ==> PawnShape(g, p, m)
  {
    PawnPushShape(g, p);
    PawnCaptureShape(g, p, -1);
    PawnCaptureShape(g, p, 1);
  }

  lemma PawnPushShape(g: Grid, p: PieceVal)
    ensures forall m :: m in PawnPushes(g, p) ==> PawnShape(g, p, m)
  {
  }

  lemma PawnCaptureShape(g: Grid, p: PieceVal, dc: int)
    requires dc == -1 || dc == 1
    ensures forall m :: m in PawnCapture(g, p, dc) ==> PawnShape(g, p, m)
  {
  }

  /**
   * The converse for single steps: the step forward is generated exactly when
   * its square is on the board and empty.
   */
  lemma PawnStepComplete(g: Grid, p: PieceVal)
    ensures var front := (p.row + Forward(p.color), p.col);
      Targets(PawnMoves(g, p), front) <==> IsValidPosition(front.0, front.1) && At(g, front.0, front.1).None?
  {
    var front := (p.row + Forward(p.color), p.col);
    var ms := PawnMoves(g, p);
    if IsValidPosition(front.0, front.1) && At(g, front.0, front.1).None? {
      assert ms[0].to == front;
    }
    if Targets(ms, front) {
      PawnMoveRules(g, p);
      var i :| 0 <= i < |ms| && ms[i].to == front;
      assert ms[i] in ms;
    }
  }

  /**
   * The converse for double steps: the step two squares forward is generated
   * exactly when the pawn stands on its start row and both the square in
   * front and the one beyond it are on the board and empty.
   */
  lemma PawnDoubleStepComplete(g: Grid, p: PieceVal)
    ensures var front, beyond := (p.row + Forward(p.color), p.col), (p.row + 2 * Forward(p.color), p.col);
      Targets(PawnMoves(g, p), beyond) <==>
        p.row == StartRow(p.color) && IsValidPosition(front.0, front.1) && At(g, front.0, front.1).None? &&
        IsValidPosition(beyond.0, beyond.1) && At(g, beyond.0, beyond.1).None?
  {
    var front, beyond := (p.row + Forward(p.color), p.col), (p.row + 2 * Forward(p.color), p.col);
    var ms := PawnMoves(g, p);
    if p.row == StartRow(p.color) && IsValidPosition(front.0, front.1) && At(g, front.0, front.1).None? &&
       At(g, beyond.0, beyond.1).None? {
      assert ms[1].to == beyond;
    }
    if Targets(ms, beyond) {
      PawnMoveRules(g, p);
      var i :| 0 <= i < |ms| && ms[i].to == beyond;
      assert ms[i] in ms;
    }
  }

  /**
   * The converse for captures: the diagonal towards `dc` is generated exactly
   * when its square is on the board and holds an enemy.
   */
  lemma PawnCaptureComplete(g: Grid, p: PieceVal, dc: int)
    requires dc == -1 || dc == 1
    ensures var diagonal := (p.row + Forward(p.color), p.col + dc);
      Targets(PawnMoves(g, p), diagonal) <==>
        IsValidPosition(diagonal.0, diagonal.1) && At(g, diagonal.0, diagonal.1).Some? &&
        At(g, diagonal.0, diagonal.1).value.color != p.color
  {
    var diagonal := (p.row + Forward(p.color), p.col + dc);
    var ms := PawnMoves(g, p);
    if IsValidPosition(diagonal.0, diagonal.1) && At(g, diagonal.0, diagonal.1).Some? &&
       At(g, diagonal.0, diagonal.1).value.color != p.color {
      var cap := PawnCapture(g, p, dc);
      assert cap[0].to == diagonal;
      if dc == -1 {
        assert ms == PawnPushes(g, p) + cap + PawnCapture(g, p, 1);
        assert ms[|PawnPushes(g, p)|] == cap[0];
      } else {
        assert ms == PawnPushes(g, p) + PawnCapture(g, p, -1) + cap;
        assert ms[|PawnPushes(g, p)| + |PawnCapture(g, p, -1)|] == cap[0];
      }
    }
    if Targets(ms, diagonal) {
      PawnMoveRules(g, p);
      var i :| 0 <= i < |ms| && ms[i].to == diagonal;
      assert ms[i] in ms;
    }
  }

  /**
   * Because the pawn generator ignores `forAttack`, a pawn "attacks" an
   * empty square only along its own column (a push), never diagonally, and it
   * always attacks the empty square in front of it.
   */
  lemma PawnAttacksOnEmptySquares(g: Grid, p: PieceVal, sq: Square)
    requires p.kind == Pawn && At(g, sq.0, sq.1).None?
    ensures Targets(PieceMoves(g, p, true), sq) ==> sq.1 == p.col
    ensures sq == (p.row + Forward(p.color), p.col) && IsValidPosition(sq.0, sq.1) ==>
      Targets(PieceMoves(g, p, true), sq)
  {
    PawnMoveRules(g, p);
    PawnStepComplete(g, p);
    if Targets(PieceMoves(g, p, true), sq) {
      var i :| 0 <= i < |PawnMoves(g, p)| && PawnMoves(g, p)[i].to == sq;
      assert PawnMoves(g, p)[i] in PawnMoves(g, p);
    }
  }

  /**
   * The same quirk seen from `isSquareAttacked`: an empty on-board square
   * directly in front of a pawn of `side` (standing where it records) is
   * attacked by `side`, and no pawn attacks an empty square diagonally.
   */
  lemma EmptySquarePawnAttacks(g: Grid, row: int, col: int, side: Color)
    requires IsValidPosition(row, col) && At(g, row, col).None?
    ensures forall r, c ::
      (0 <= r < 8 && 0 <= c < 8 && AttackerAt(g, r, c, (row, col), side) && At(g, r, c).value.kind == Pawn) ==>
      col == At(g, r, c).value.col
    ensures forall r, c ::
      (0 <= r < 8 && 0 <= c < 8 && At(g, r, c).Some? && At(g, r, c).value.kind == Pawn &&
       At(g, r, c).value.color == side && At(g, r, c).value.row == r && At(g, r, c).value.col == c &&
       (row, col) == (r + Forward(side), c)) ==>
      SquareAttacked(g, row, col, side)
  {
    forall r, c | 0 <= r < 8 && 0 <= c < 8 && AttackerAt(g, r, c, (row, col), side) && At(g, r, c).value.kind == Pawn
      ensures col == At(g, r, c).value.col
    {
      PawnAttacksOnEmptySquares(g, At(g, r, c).value, (row, col));
    }
    forall r, c | 0 <= r < 8 && 0 <= c < 8 && At(g, r, c).Some? && At(g, r, c).value.kind == Pawn &&
      At(g, r, c).value.color == side && At(g, r, c).value.row == r && At(g, r, c).value.col == c &&
      (row, col) == (r + Forward(side), c)
      ensures SquareAttacked(g, row, col, side)
    {
      PawnAttacksOnEmptySquares(g, At(g, r, c).value, (row, col));
      assert AttackerAt(g, r, c, (row, col), side);
    }
  }

  /** With `forAttack` the king's list loses exactly its castling moves. */
  lemma AttackMovesOmitCastling(g: Grid, p: PieceVal)
    ensures PieceMoves(g, p, false) == PieceMoves(g, p, true) + (if p.kind == King then Castles(g, p) else [])
    ensures forall m :: m in PieceMoves(g, p, true) ==> !m.castling
  {
    match p.kind
    case Pawn => PawnMoveRules(g, p);
    case Rook => SlidesSound(g, p, RookDirections);
    case Knight => JumpsSound(g, p, KnightOffsets);
    case Bishop => SlidesSound(g, p, BishopDirections);
    case Queen => SlidesSound(g, p, QueenDirections);
    case King => JumpsSound(g, p, KingOffsets);
  }

  /**
   * Every generated move is sound: a non-castling move is a `StepSound` move
   * of `p` (only pawns promote, and only to a queen on the last row); a
   * castling move belongs to an unmoved king that is not in check, starts on
   * column 4 of the king's row whatever the king's column, and lands on
   * column 6 with the short-side conditions or on column 2 with the long-side
   * conditions. No move lands on a friendly piece.
   */
  lemma GeneratedMovesSound(g: Grid, p: PieceVal, forAttack: bool)
    ensures forall m :: m in PieceMoves(g, p, forAttack) && !m.castling ==>
      StepSound(g, p, m) &&
      (m.promotion.Some? ==> p.kind == Pawn && m.promotion == Some(Queen) && m.to.0 == PromotionRow(p.color))
    ensures forall m :: m in PieceMoves(g, p, forAttack) && m.castling ==>
      !forAttack && p.kind == King && !p.hasMoved && !KingInCheck(g, p.color) &&
      m.mover == FigureOf(p) && m.from == (p.row, 4) && m.captured.None? && m.promotion.None? &&
      ((m.to == (p.row, 6) && ShortCastleAllowed(g, p)) || (m.to == (p.row, 2) && LongCastleAllowed(g, p)))
    ensures forall m :: m in PieceMoves(g, p, forAttack) ==>
      Enterable(At(g, m.to.0, m.to.1), p.color) && m.captured == Captured(At(g, m.to.0, m.to.1))
  {
    AttackMovesOmitCastling(g, p);
    match p.kind
    case Pawn => PawnMoveRules(g, p);
    case Rook => SlidesSound(g, p, RookDirections);
    case Knight => JumpsSound(g, p, KnightOffsets);
    case Bishop => SlidesSound(g, p, BishopDirections);
    case Queen => SlidesSound(g, p, QueenDirections);
    case King => JumpsSound(g, p, KingOffsets);
  }

  /**
   * Castling completeness: an unmoved king not in check gets the short
   * (long) castling move whenever the short-side (long-side) conditions hold.
   * Those conditions ask for an unmoved piece of type Rook on the corner and
   * never look at its side: an unmoved enemy rook there serves as well.
   */
  lemma CastlingComplete(g: Grid, k: PieceVal)
    requires k.kind == King && !k.hasMoved && !KingInCheck(g, k.color)
    ensures ShortCastleAllowed(g, k) ==> CastleMove(k, 6) in PieceMoves(g, k, false)
    ensures LongCastleAllowed(g, k) ==> CastleMove(k, 2) in PieceMoves(g, k, false)
    ensures var corner, e := At(g, k.row, 7), Opponent(k.color);
      corner.Some? && corner.value == PieceVal(Rook, e, k.row, 7, false) &&
      At(g, k.row, 5).None? && At(g, k.row, 6).None? &&
      !SquareAttacked(g, k.row, 5, e) && !SquareAttacked(g, k.row, 6, e) ==>
      CastleMove(k, 6) in PieceMoves(g, k, false)
  {
  }

  /** `isKingInCheck` is false for a side without a king. */
  lemma NoKingNoCheck(g: Grid, color: Color)
    requires forall sq :: sq in g ==> !(g[sq].kind == King && g[sq].color == color)
    ensures !KingInCheck(g, color)
  {
    FindKingFromSpec(g, color, 0);
    assert forall r, c :: At(g, r, c).Some? ==> (r, c) in g;
  }

  /** Otherwise it is `isSquareAttacked` on the first king's square by the other side. */
  lemma CheckIsAttackOnKing(g: Grid, color: Color)
    requires FindKing(g, color).Some?
    ensures var k := FindKing(g, color).value;
      IsKingOf(At(g, k.0, k.1), color) &&
      KingInCheck(g, color) == SquareAttacked(g, k.0, k.1, Opponent(color))
  {
    FindKingFromSpec(g, color, 0);
  }
}
