/**
 * What js/game/GameState.js does, on board values: the legality filter of
 * `getAllLegalMoves`, the simulated board of `wouldBeInCheckAfterMove`, and
 * the board changes of `makeMove` and `undoMove`.
 */
module GameSpec {
  import opened Types
  import opened Helpers
  import opened Grids
  import opened RulesSpec
  import opened Scans

  // ----- simulation on a copy -----

  /**
   * A copy whose piece on `from` (if any) is put on `to` with its square
   * recorded, and `from` emptied; with no piece on `from`, both squares end
   * up empty.
   */
  function MovedCopy(c: Grid, from: Square, to: Square): Grid
  {
    if from in c then c[to := c[from].(row := to.0, col := to.1)] - {from}
    else c - {to, from}
  }

  /** The board `wouldBeInCheckAfterMove` inspects: `cloneBoard`, then the move. */
  function Simulate(g: Grid, from: Square, to: Square): Grid
  {
    MovedCopy(Restamp(g), from, to)
  }

  /** `wouldBeInCheckAfterMove`: the mover's side has its king attacked afterwards. */
  predicate LeavesInCheck(g: Grid, m: MoveVal)
  {
    KingInCheck(Simulate(g, m.from, m.to), m.mover.color)
  }

  // ----- legal moves -----

  /** `pieceMoves.filter(...)`: the moves of `ms` that do not leave the mover in check. */
  function Legal(g: Grid, ms: seq<MoveVal>): seq<MoveVal>
  {
    if ms == [] then []
    else Legal(g, ms[..|ms| - 1]) + (if LeavesInCheck(g, ms[|ms| - 1]) then [] else [ms[|ms| - 1]])
  }

  /** The legal moves of the piece on (r, c) when it belongs to `color`. */
  function SquareLegal(g: Grid, color: Color, r: int, c: int): seq<MoveVal>
  {
    var o := At(g, r, c);
    if o.Some? && o.value.color == color then Legal(g, PieceMoves(g, o.value, false)) else []
  }

  /** `SquareLegal` as a function of the square. */
  function SquareLegalAt(g: Grid, color: Color): (int, int) -> seq<MoveVal>
  {
    (r, c) => SquareLegal(g, color, r, c)
  }

  /** `getAllLegalMoves(color)`: square by square in row-major order. */
  function LegalMoves(g: Grid, color: Color): seq<MoveVal>
  {
    BoardScan(SquareLegalAt(g, color), Width(), Width())
  }

  // ----- makeMove -----

  /** The rook's corner column for a castling move to `toCol` (short exactly for 6). */
  function RookFromCol(toCol: int): int
  {
    if toCol == 6 then 7 else 0
  }

  /** The column the castling rook lands on. */
  function RookToCol(toCol: int): int
  {
    if toCol == 6 then 5 else 3
  }

  /**
   * The piece on `from` moved to `to`, recording its new square and marked as
   * moved; `from` is emptied.
   */
  function Shift(g: Grid, from: Square, to: Square): Grid
    requires from in g
  {
    g[to := g[from].(row := to.0, col := to.1, hasMoved := true)] - {from}
  }

  /**
   * The moves on which the value view describes `makeMove` exactly: a board
   * whose pieces record their own squares (so distinct squares hold distinct
   * objects), both squares on the board and distinct, and a castling move
   * shaped as the generator builds it (same row, from column 4 to 6 or 2).
   */
  ghost predicate Regular(g: Grid, m: MoveVal)
  {
    WellPlaced(g) && IsValidPosition(m.from.0, m.from.1) && IsValidPosition(m.to.0, m.to.1) && m.from != m.to &&
    (m.castling ==> m.to.0 == m.from.0 && m.from.1 == 4 && (m.to.1 == 6 || m.to.1 == 2))
  }

  /** `makeMove` goes ahead: a piece stands on `from` and, when castling, on the rook's corner. */
  predicate Proceeds(g: Grid, m: MoveVal)
  {
    m.from in g && (m.castling ==> (m.from.0, RookFromCol(m.to.1)) in g)
  }

  /**
   * The board after `makeMove`: the mover goes to `to`; when castling, the
   * corner piece goes to its castling column; a promotion puts a fresh,
   * unmoved piece of the promotion type and the mover's side on `to`.
   */
  function MakeGrid(g: Grid, m: MoveVal): Grid
    requires Regular(g, m) && Proceeds(g, m)
  {
    var g1 := Shift(g, m.from, m.to);
    var g2 := if m.castling then Shift(g1, (m.to.0, RookFromCol(m.to.1)), (m.to.0, RookToCol(m.to.1))) else g1;
    if m.promotion.Some? then g2[m.to := PieceVal(m.promotion.value, g[m.from].color, m.to.0, m.to.1, false)]
    else g2
  }

  /** The part of a game the search looks at: board, side to move and the end-of-game flags. */
  datatype Pos = Pos(grid: Grid, player: Color, over: bool, winner: Outcome)

  /**
   * `makeMove` on a position: nothing happens unless it goes ahead; then the
   * board changes, the turn passes, and a side left without legal moves ends
   * the game (lost when in check, drawn otherwise).
   */
  function Play(s: Pos, m: MoveVal): Pos
    requires Regular(s.grid, m)
  {
    if !Proceeds(s.grid, m) then s
    else
      var g := MakeGrid(s.grid, m);
      var next := Opponent(s.player);
      if LegalMoves(g, next) == [] then
        Pos(g, next, true, if KingInCheck(g, next) then Winner(Opponent(next)) else Draw)
      else Pos(g, next, s.over, s.winner)
  }

  // ----- undoMove -----

  /**
   * What `undoMove` reads from a move and the objects it refers to: the
   * moving piece as it is now, its `hasMoved` before the move, the captured
   * piece, whether a promotion happened, the castling rook and its columns,
   * and the rook's `hasMoved` before castling.
   */
  datatype Undo = Undo(mover: PieceVal, prevHasMoved: bool, captured: Option<PieceVal>, promoted: bool,
                       rook: Option<PieceVal>, rookFromCol: int, rookToCol: int, rookPrevHasMoved: bool)

  /**
   * The first half of `undoMove`. After a promotion the promoted piece leaves
   * `to` and the mover returns to `from`; otherwise whatever stands on `to`
   * returns to `from` and the captured piece (or nothing) goes back to `to`.
   */
  function UndoPieces(g: Grid, m: MoveVal, u: Undo): Grid
  {
    if u.promoted then (g - {m.to})[m.from := u.mover.(row := m.from.0, col := m.from.1)]
    else
      var back := if m.to in g then g[m.from := g[m.to].(row := m.from.0, col := m.from.1)] else g - {m.from};
      PutBack(back, m.to, u.captured)
  }

  /** The captured piece (or nothing) on `to`. */
  function PutBack(g: Grid, to: Square, captured: Option<PieceVal>): Grid
  {
    if captured.Some? then g[to := captured.value.(row := to.0, col := to.1)] else g - {to}
  }

  /**
   * The second half of `undoMove`: a castling rook returns to its corner with
   * its old `hasMoved`, then the piece on `from` gets the mover's old
   * `hasMoved`.
   */
  function UndoRest(g: Grid, m: MoveVal, u: Undo): Grid
  {
    var g2 :=
      if m.castling && u.rook.Some? then
        g[(m.to.0, u.rookFromCol) := u.rook.value.(row := m.to.0, col := u.rookFromCol, hasMoved := u.rookPrevHasMoved)]
          - {(m.to.0, u.rookToCol)}
      else g;
    if m.from in g2 then g2[m.from := g2[m.from].(hasMoved := u.prevHasMoved)] else g2
  }

  /** The board after `undoMove`. */
  function UndoGrid(g: Grid, m: MoveVal, u: Undo): Grid
  {
    UndoRest(UndoPieces(g, m, u), m, u)
  }

  /** The undo record `makeMove` leaves behind for a regular move that goes ahead. */
  function UndoAfterMake(g: Grid, m: MoveVal): Undo
    requires Regular(g, m) && Proceeds(g, m)
  {
    var mover := g[m.from];
    var rookSquare := (m.from.0, RookFromCol(m.to.1));
    Undo(mover.(row := m.to.0, col := m.to.1, hasMoved := true), mover.hasMoved, At(g, m.to.0, m.to.1),
         m.promotion.Some?,
         if m.castling then Some(g[rookSquare].(row := m.to.0, col := RookToCol(m.to.1), hasMoved := true)) else None,
         if m.castling then RookFromCol(m.to.1) else 0, if m.castling then RookToCol(m.to.1) else 0,
         m.castling && g[rookSquare].hasMoved)
  }

  /**
   * The first half of `undoMove` as evidently intended: after a promotion
   * the captured piece (or nothing) also returns to `to`.
   */
  function UndoPiecesFixed(g: Grid, m: MoveVal, u: Undo): Grid
  {
    if u.promoted then PutBack(g, m.to, u.captured)[m.from := u.mover.(row := m.from.0, col := m.from.1)]
    else UndoPieces(g, m, u)
  }

  /** The board after `undoMove` as evidently intended. */
  function UndoGridFixed(g: Grid, m: MoveVal, u: Undo): Grid
  {
    UndoRest(UndoPiecesFixed(g, m, u), m, u)
  }
}
