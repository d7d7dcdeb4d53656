/**
 * The `Piece` object (js/game/Piece.js): an immutable type and side, and the
 * three fields that moves overwrite in place (`row`, `col`, `hasMoved`).
 * The source's field `type` is called `kind` here (`type` is a Dafny keyword).
 */
module Pieces {
  import opened Types

  class Piece {
    const kind: PieceType
    const color: Color
    var row: int
    var col: int
    /** Used for castling rights and the pawn's double step. */
    var hasMoved: bool

    constructor (kind: PieceType, color: Color, row: int, col: int)
      ensures this.kind == kind && this.color == color
      ensures this.row == row && this.col == col
      ensures !hasMoved
    {
      this.kind := kind;
      this.color := color;
      this.row := row;
      this.col := col;
      this.hasMoved := false;
    }

    /** A fresh piece with the same five fields. */
    method Clone() returns (p: Piece)
      ensures fresh(p)
      ensures Val(p) == Val(this)
    {
      p := new Piece(kind, color, row, col);
      p.hasMoved := hasMoved;
    }

    /**
     * The display glyph: the table entry for a white piece, and the entry
     * passed through the runtime's `toLowerCase` for a black one. The
     * runtime's case mapping is a parameter.
     */
    function GetSymbol(toLowerCase: string -> string): (s: string)
      ensures color == White ==> s == [Glyph(kind)]
      ensures color == Black ==> s == toLowerCase([Glyph(kind)])
    {
      if color == White then [Glyph(kind)] else toLowerCase([Glyph(kind)])
    }
  }

  /** The six-entry symbol table of `getSymbol`. */
  function Glyph(t: PieceType): char
  {
    match t
    case Pawn => '♟'
    case Rook => '♜'
    case Knight => '♞'
    case Bishop => '♝'
    case Queen => '♛'
    case King => '♚'
  }

  /** Distinct types have distinct glyphs, so a white piece's symbol names its type. */
  lemma GlyphInjective(t1: PieceType, t2: PieceType)
    ensures Glyph(t1) == Glyph(t2) ==> t1 == t2
  {
  }

  /** The value of a piece object's fields at this moment. */
  function Val(p: Piece): PieceVal
    reads p
  {
    PieceVal(p.kind, p.color, p.row, p.col, p.hasMoved)
  }

  /** A heap change that leaves a piece alone leaves its value alone. */
  twostate lemma ValKept(p: Piece)
    requires unchanged(p)
    ensures Val(p) == old(Val(p))
  {
  }
}
