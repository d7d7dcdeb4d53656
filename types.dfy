/**
 * Value types shared by the whole engine: piece kinds and sides, the
 * optional/outcome wrappers, and the value view of a board (a map from
 * occupied squares to piece values) and of a move.
 *
 * The source refers to `PieceType`, `Color`, `PieceValue` and
 * `PositionTables` without defining them in any file of this model; the kinds
 * and sides become enumerations, and the two numeric tables become the
 * parameter `Weights`, so that nothing here depends on their values.
 */
module Types {

  datatype PieceType = Pawn | Rook | Knight | Bishop | Queen | King

  datatype Color = White | Black

  /** The `enemyColor` expression used throughout the source. */
  function Opponent(c: Color): (o: Color)
    ensures o != c
  {
    if c == White then Black else White
  }

  datatype Option<T> = None | Some(value: T)

  /** `GameState.winner`: null, a side, or the string "draw". */
  datatype Outcome = NoWinner | Winner(side: Color) | Draw

  /** A (row, col) pair; row 0 is Black's back rank, row 7 is White's. */
  type Square = (int, int)

  /** Everything a `Piece` object holds, read at one moment. */
  datatype PieceVal = PieceVal(kind: PieceType, color: Color, row: int, col: int, hasMoved: bool)

  /** The immutable part of a piece: its type and its side. */
  datatype Figure = Figure(kind: PieceType, color: Color)

  function FigureOf(p: PieceVal): Figure
  {
    Figure(p.kind, p.color)
  }

  /**
   * The value view of an 8x8 board: the occupied squares and what stands on
   * them. An absent key is an empty square.
   */
  type Grid = map<Square, PieceVal>

  /** The content of square (r, c), `None` when empty. */
  function At(g: Grid, r: int, c: int): Option<PieceVal>
  {
    if (r, c) in g then Some(g[(r, c)]) else None
  }

  /**
   * The value view of a `Move`: the moving piece's type and side, both
   * squares, the captured piece's type and side, and the three flags.
   */
  datatype MoveVal = MoveVal(
    mover: Figure,
    from: Square,
    to: Square,
    captured: Option<Figure>,
    enPassant: bool,
    castling: bool,
    promotion: Option<PieceType>)

  /** An 8x8 table of integers (one of `PositionTables`). */
  type Table = t: seq<seq<int>> | |t| == 8 && forall i :: 0 <= i < 8 ==> |t[i]| == 8
    witness seq(8, _ => seq(8, _ => 0))

  /**
   * The numeric constants of the evaluator: `PieceValue` (material value per
   * type) and `PositionTables` (a table for some types; a type without one
   * scores material only).
   */
  datatype Weights = Weights(pieceValue: PieceType -> int, positionTables: map<PieceType, Table>)

  /**
   * The first character of each type name and side name, as
   * `getPositionKey` writes them (`piece.type[0]`, `piece.color[0]`).
   */
  datatype Initials = Initials(pawn: char, rook: char, knight: char, bishop: char, queen: char, king: char,
                               white: char, black: char)
  {
    function OfType(kind: PieceType): char
    {
      match kind
      case Pawn => pawn
      case Rook => rook
      case Knight => knight
      case Bishop => bishop
      case Queen => queen
      case King => king
    }

    function OfColor(color: Color): char
    {
      if color == White then white else black
    }
  }
}
