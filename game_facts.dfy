/**
 * Properties of the value view of js/game/GameState.js: undoing a move
 * restores the board, except after a capturing promotion (a defect of the
 * source, with the corrected undo proved instead), and the legal moves are
 * exactly the generated moves that do not leave the mover in check.
 */
module GameFacts {
  import opened Types
  import opened Helpers
  import opened Grids
  import opened RulesSpec
  import opened RuleFacts
  import opened GameSpec
  import opened Scans

  /**
   * `undoMove` after `makeMove` gives back the board it started from, for a
   * regular move that goes ahead and is not a capturing promotion (a castling
   * rook's target must be empty, as castling requires).
   */
  lemma UndoAfterMakeRestores(g: Grid, m: MoveVal)
    requires Regular(g, m) && Proceeds(g, m)
    requires m.castling ==> (m.to.0, RookToCol(m.to.1)) !in g
    requires m.promotion.Some? ==> m.to !in g
    ensures UndoGrid(MakeGrid(g, m), m, UndoAfterMake(g, m)) == g
  {
    var u := UndoAfterMake(g, m);
    var after := UndoGrid(MakeGrid(g, m), m, u);
    forall k | k in g
      ensures k in after && after[k] == g[k]
    {
    }
    forall k | k in after
      ensures k in g
    {
    }
  }

  /**
   * After a promotion that captured, `undoMove` leaves the target square
   * empty: the captured piece does not come back.
   */
  lemma CapturingPromotionLosesCapture(g: Grid, m: MoveVal)
    requires Regular(g, m) && Proceeds(g, m)
    requires m.promotion.Some? && m.to in g
    ensures m.to !in UndoGrid(MakeGrid(g, m), m, UndoAfterMake(g, m))
    ensures UndoGrid(MakeGrid(g, m), m, UndoAfterMake(g, m)) != g
  {
  }

  /** The corrected undo restores the board after every regular move that goes ahead. */
  lemma UndoFixedAfterMakeRestores(g: Grid, m: MoveVal)
    requires Regular(g, m) && Proceeds(g, m)
    requires m.castling ==> (m.to.0, RookToCol(m.to.1)) !in g
    ensures UndoGridFixed(MakeGrid(g, m), m, UndoAfterMake(g, m)) == g
  {
    var u := UndoAfterMake(g, m);
    var after := UndoGridFixed(MakeGrid(g, m), m, u);
    forall k | k in g
      ensures k in after && after[k] == g[k]
    {
    }
    forall k | k in after
      ensures k in g
    {
    }
  }

  // ----- legal moves -----

  /** The filter keeps exactly the moves that do not leave the mover in check, in order. */
  lemma {:induction false} LegalFilter(g: Grid, ms: seq<MoveVal>)
    ensures |Legal(g, ms)| <= |ms|
    ensures forall m :: m in Legal(g, ms) <==> m in ms && !LeavesInCheck(g, m)
  {
    if ms != [] {
      var init := ms[..|ms| - 1];
      LegalFilter(g, init);
      assert ms == init + [ms[|ms| - 1]];
    }
  }

  /**
   * Every move `getAllLegalMoves(color)` returns was generated for a piece of
   * `color` standing on the board and does not leave that side's king attacked.
   */
  lemma LegalMoveSource(g: Grid, color: Color, m: MoveVal) returns (r: int, c: int)
    requires m in LegalMoves(g, color)
    ensures 0 <= r < 8 && 0 <= c < 8 && At(g, r, c).Some? && At(g, r, c).value.color == color
    ensures m in PieceMoves(g, At(g, r, c).value, false) && !LeavesInCheck(g, m)
  {
    r, c := BoardScanSource(SquareLegalAt(g, color), Width(), Width(), m);
    var o := At(g, r, c);
    assert m in SquareLegal(g, color, r, c);
    assert o.Some? && o.value.color == color;
    LegalFilter(g, PieceMoves(g, o.value, false));
  }

  /**
   * Every move generated for a piece of `color` on the board that does not
   * leave that side's king attacked is among `getAllLegalMoves(color)`.
   */
  lemma LegalMoveIncluded(g: Grid, color: Color, r: int, c: int, m: MoveVal)
    requires 0 <= r < 8 && 0 <= c < 8 && At(g, r, c).Some? && At(g, r, c).value.color == color
    requires m in PieceMoves(g, At(g, r, c).value, false) && !LeavesInCheck(g, m)
    ensures m in LegalMoves(g, color)
  {
    LegalFilter(g, PieceMoves(g, At(g, r, c).value, false));
    BoardScanHas(SquareLegalAt(g, color), Width(), Width(), r, c, m);
  }

  /**
   * On a board whose pieces record their own squares, every legal move of
   * `color` is a move of that side, regular in the sense of `makeMove`'s
   * value view, and a castling move finds its rook's target empty; so making
   * and undoing it restores the board unless it is a capturing promotion.
   */
  lemma LegalMovesRegular(g: Grid, color: Color)
    requires WellPlaced(g)
    ensures forall m :: m in LegalMoves(g, color) ==>
      m.mover.color == color && Regular(g, m) && (m.castling ==> (m.to.0, RookToCol(m.to.1)) !in g) &&
      (!m.castling ==> m.from in g && FigureOf(g[m.from]) == m.mover)
  {
    forall m | m in LegalMoves(g, color)
      ensures m.mover.color == color && Regular(g, m) && (m.castling ==> (m.to.0, RookToCol(m.to.1)) !in g)
      ensures !m.castling ==> m.from in g && FigureOf(g[m.from]) == m.mover
    {
      var r, c := LegalMoveSource(g, color, m);
      GeneratedMovesSound(g, At(g, r, c).value, false);
    }
  }

  /** Making a regular move keeps every piece recording its own square. */
  lemma MakeGridWellPlaced(g: Grid, m: MoveVal)
    requires Regular(g, m) && Proceeds(g, m)
    ensures WellPlaced(MakeGrid(g, m))
  {
  }

  /** `makeMove` on a position keeps every piece recording its own square. */
  lemma PlayWellPlaced(s: Pos, m: MoveVal)
    requires Regular(s.grid, m)
    ensures WellPlaced(Play(s, m).grid)
  {
    if Proceeds(s.grid, m) {
      MakeGridWellPlaced(s.grid, m);
    }
  }

  /** The board `makeMove` leaves: the moved board when the move goes ahead, else the same board. */
  lemma PlayGrid(s: Pos, m: MoveVal)
    requires Regular(s.grid, m)
    ensures Play(s, m).grid == if Proceeds(s.grid, m) then MakeGrid(s.grid, m) else s.grid
  {
    if Proceeds(s.grid, m) {
      var g, next := MakeGrid(s.grid, m), Opponent(s.player);
      assert Play(s, m) == if LegalMoves(g, next) == [] then
        Pos(g, next, true, if KingInCheck(g, next) then Winner(Opponent(next)) else Draw)
      else Pos(g, next, s.over, s.winner);
    }
  }
}
