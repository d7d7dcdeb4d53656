/**
 * The move rules of js/game/rules.js as functions on board values: what each
 * generator appends, in the order it appends it, and the attack and check
 * queries built on them. Every generator reads the moving piece's own
 * `row`/`col` fields, not the square the piece stands on.
 */
module RulesSpec {
  import opened Types
  import opened Helpers

  /** A non-castling move of `p` to `to`, as the generators build it. */
  function Step(p: PieceVal, to: Square, captured: Option<Figure>, promotion: Option<PieceType> := None): MoveVal
  {
    MoveVal(FigureOf(p), (p.row, p.col), to, captured, false, false, promotion)
  }

  /** The type and side of what stands on a square, if anything. */
  function Captured(o: Option<PieceVal>): Option<Figure>
  {
    if o.None? then None else Some(FigureOf(o.value))
  }

  /** A target square a piece of `color` may move to: empty or enemy. */
  predicate Enterable(o: Option<PieceVal>, color: Color)
  {
    o.None? || o.value.color != color
  }

  // ----- pawns -----

  function Forward(c: Color): int
  {
    if c == White then -1 else 1
  }

  function StartRow(c: Color): int
  {
    if c == White then 6 else 1
  }

  function PromotionRow(c: Color): int
  {
    if c == White then 0 else 7
  }

  /** A pawn reaching its last row becomes a queen; otherwise no promotion. */
  function PromotionOn(c: Color, row: int): Option<PieceType>
  {
    if row == PromotionRow(c) then Some(Queen) else None
  }

  /** The single step onto an empty square and, from the start row, the double step. */
  function PawnPushes(g: Grid, p: PieceVal): seq<MoveVal>
  {
    var newRow := p.row + Forward(p.color);
    if IsValidPosition(newRow, p.col) && At(g, newRow, p.col).None? then
      [Step(p, (newRow, p.col), None, PromotionOn(p.color, newRow))] +
      (if p.row == StartRow(p.color) && At(g, p.row + 2 * Forward(p.color), p.col).None? then
         [Step(p, (p.row + 2 * Forward(p.color), p.col), None)]
       else [])
    else []
  }

  /** The diagonal capture towards column offset `dc`, onto an enemy piece only. */
  function PawnCapture(g: Grid, p: PieceVal, dc: int): seq<MoveVal>
  {
    var newRow := p.row + Forward(p.color);
    var newCol := p.col + dc;
    if IsValidPosition(newRow, newCol) && At(g, newRow, newCol).Some? && At(g, newRow, newCol).value.color != p.color then
      [Step(p, (newRow, newCol), Captured(At(g, newRow, newCol)), PromotionOn(p.color, newRow))]
    else []
  }

  function PawnMoves(g: Grid, p: PieceVal): seq<MoveVal>
  {
    PawnPushes(g, p) + PawnCapture(g, p, -1) + PawnCapture(g, p, 1)
  }

  // ----- sliding pieces -----

  predicate IsDirection(d: (int, int))
  {
    -1 <= d.0 <= 1 && -1 <= d.1 <= 1 && d != (0, 0)
  }

  /** How many squares remain along a direction before leaving the board. */
  function RayMeasure(r: int, c: int, dr: int, dc: int): int
  {
    (if dr > 0 then 8 - r else if dr < 0 then r + 1 else 0) +
    (if dc > 0 then 8 - c else if dc < 0 then c + 1 else 0)
  }

  /**
   * The moves along one direction starting at (r, c): empty squares while
   * they last, then the first occupied square if it holds an enemy.
   */
  function Ray(g: Grid, p: PieceVal, r: int, c: int, dr: int, dc: int): seq<MoveVal>
    requires IsDirection((dr, dc))
    decreases RayMeasure(r, c, dr, dc)
  {
    if !IsValidPosition(r, c) then []
    else if At(g, r, c).None? then [Step(p, (r, c), None)] + Ray(g, p, r + dr, c + dc, dr, dc)
    else if At(g, r, c).value.color != p.color then [Step(p, (r, c), Captured(At(g, r, c)))]
    else []
  }

  /** The rays of `directions`, in the order given. */
  function Slides(g: Grid, p: PieceVal, directions: seq<(int, int)>): seq<MoveVal>
    requires forall i :: 0 <= i < |directions| ==> IsDirection(directions[i])
  {
    if directions == [] then []
    else
      var d := directions[|directions| - 1];
      Slides(g, p, directions[..|directions| - 1]) + Ray(g, p, p.row + d.0, p.col + d.1, d.0, d.1)
  }

  const RookDirections: seq<(int, int)> := [(0, 1), (0, -1), (1, 0), (-1, 0)]
  const BishopDirections: seq<(int, int)> := [(1, 1), (1, -1), (-1, 1), (-1, -1)]
  const QueenDirections: seq<(int, int)> := RookDirections + BishopDirections

  // ----- knights and kings -----

  const KnightOffsets: seq<(int, int)> := [(-2, -1), (-2, 1), (-1, -2), (-1, 2), (1, -2), (1, 2), (2, -1), (2, 1)]
  const KingOffsets: seq<(int, int)> := [(-1, -1), (-1, 0), (-1, 1), (0, -1), (0, 1), (1, -1), (1, 0), (1, 1)]

  /** The single jump by `d`, when it lands on the board and not on a friend. */
  function Jump(g: Grid, p: PieceVal, d: (int, int)): seq<MoveVal>
  {
    var r := p.row + d.0;
    var c := p.col + d.1;
    if IsValidPosition(r, c) && Enterable(At(g, r, c), p.color) then [Step(p, (r, c), Captured(At(g, r, c)))] else []
  }

  /** The jumps of `offsets`, in the order given. */
  function Jumps(g: Grid, p: PieceVal, offsets: seq<(int, int)>): seq<MoveVal>
  {
    if offsets == [] then [] else Jumps(g, p, offsets[..|offsets| - 1]) + Jump(g, p, offsets[|offsets| - 1])
  }

  /** A castling move of king `k`: from column 4 of the king's row to `toCol`. */
  function CastleMove(k: PieceVal, toCol: int): MoveVal
  {
    MoveVal(FigureOf(k), (k.row, 4), (k.row, toCol), None, false, true, None)
  }

  /** An unmoved piece of type Rook, of either side. */
  predicate UnmovedRook(o: Option<PieceVal>)
  {
    o.Some? && o.value.kind == Rook && !o.value.hasMoved
  }

  predicate ShortCastleAllowed(g: Grid, k: PieceVal)
    decreases 4
  {
    var row := k.row;
    UnmovedRook(At(g, row, 7)) && At(g, row, 5).None? && At(g, row, 6).None? &&
    !SquareAttacked(g, row, 5, Opponent(k.color)) && !SquareAttacked(g, row, 6, Opponent(k.color))
  }

  predicate LongCastleAllowed(g: Grid, k: PieceVal)
    decreases 4
  {
    var row := k.row;
    UnmovedRook(At(g, row, 0)) && At(g, row, 1).None? && At(g, row, 2).None? && At(g, row, 3).None? &&
    !SquareAttacked(g, row, 3, Opponent(k.color)) && !SquareAttacked(g, row, 2, Opponent(k.color))
  }

  /** The castling moves of an unmoved king that is not in check: short first. */
  function Castles(g: Grid, k: PieceVal): seq<MoveVal>
    decreases 5
  {
    if k.hasMoved || KingInCheck(g, k.color) then []
    else
      (if ShortCastleAllowed(g, k) then [CastleMove(k, 6)] else []) +
      (if LongCastleAllowed(g, k) then [CastleMove(k, 2)] else [])
  }

  function KingMoves(g: Grid, k: PieceVal, forAttack: bool): seq<MoveVal>
    decreases if forAttack then 0 else 6
  {
    Jumps(g, k, KingOffsets) + (if forAttack then [] else Castles(g, k))
  }

  /**
   * `generateMovesForPiece`: the moves of `p`, by type. Only the king looks at
   * `forAttack`; the pawn generator never receives it.
   */
  function PieceMoves(g: Grid, p: PieceVal, forAttack: bool): seq<MoveVal>
    decreases if forAttack then 1 else 7
  {
    match p.kind
    case Pawn => PawnMoves(g, p)
    case Rook => Slides(g, p, RookDirections)
    case Knight => Jumps(g, p, KnightOffsets)
    case Bishop => Slides(g, p, BishopDirections)
    case Queen => Slides(g, p, QueenDirections)
    case King => KingMoves(g, p, forAttack)
  }

  // ----- attack and check -----

  /** Some move of `ms` lands on `sq`. */
  predicate Targets(ms: seq<MoveVal>, sq: Square)
  {
    exists i :: 0 <= i < |ms| && ms[i].to == sq
  }

  /** Square (r, c) holds a piece of `byColor` whose attack moves land on `sq`. */
  predicate AttackerAt(g: Grid, r: int, c: int, sq: Square, byColor: Color)
    decreases 2
  {
    At(g, r, c).Some? && At(g, r, c).value.color == byColor && Targets(PieceMoves(g, At(g, r, c).value, true), sq)
  }

  /** `isSquareAttacked`: some piece of `byColor` on the board attacks (row, col). */
  predicate SquareAttacked(g: Grid, row: int, col: int, byColor: Color)
    decreases 3
  {
    exists r, c :: 0 <= r < 8 && 0 <= c < 8 && AttackerAt(g, r, c, (row, col), byColor)
  }

  predicate IsKingOf(o: Option<PieceVal>, color: Color)
  {
    o.Some? && o.value.kind == King && o.value.color == color
  }

  /** The first king of `color` at row-major index `i` or later. */
  function FindKingFrom(g: Grid, color: Color, i: nat): Option<Square>
    decreases 64 - i, g  // `g` keeps the search from being unfolded on a literal start
  {
    if i >= 64 then None
    else if IsKingOf(At(g, i / 8, i % 8), color) then Some((i / 8, i % 8))
    else FindKingFrom(g, color, i + 1)
  }

  /**
   * The search finds a king of `color` on the board at index `i` or later
   * with none before it from `i` on, or reports that there is none.
   */
  lemma {:induction false} FindKingFromSpec(g: Grid, color: Color, i: nat)
    ensures var k := FindKingFrom(g, color, i);
      k.Some? ==>
        IsValidPosition(k.value.0, k.value.1) && 8 * k.value.0 + k.value.1 >= i &&
        IsKingOf(At(g, k.value.0, k.value.1), color)
    ensures var k := FindKingFrom(g, color, i);
      k.Some? ==> forall r, c :: 0 <= r < 8 && 0 <= c < 8 && i <= 8 * r + c < 8 * k.value.0 + k.value.1 ==>
        !IsKingOf(At(g, r, c), color)
    ensures FindKingFrom(g, color, i).None? ==>
      forall r, c :: 0 <= r < 8 && 0 <= c < 8 && 8 * r + c >= i ==> !IsKingOf(At(g, r, c), color)
    decreases 64 - i
  {
    if i < 64 {
      FindKingFromSpec(g, color, i + 1);
    }
  }

  /** The first king of `color` in row-major order, if any. */
  function FindKing(g: Grid, color: Color): Option<Square>
  {
    FindKingFrom(g, color, 0)
  }

  /** `isKingInCheck`: some enemy piece attacks the first king of `color`. */
  predicate KingInCheck(g: Grid, color: Color)
    decreases 3
  {
    FindKing(g, color).Some? &&
    exists r, c :: 0 <= r < 8 && 0 <= c < 8 && AttackerAt(g, r, c, FindKing(g, color).value, Opponent(color))
  }
}
