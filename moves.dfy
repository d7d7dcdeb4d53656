/**
 * The `Move` object (js/game/Move.js). The nine constructor arguments never
 * change after construction and are constant fields here; the undo
 * bookkeeping fields are written later by `GameState.makeMove`.
 */
module Moves {
  import opened Types
  import opened Pieces
  import opened Helpers

  class Move {
    const fromRow: int
    const fromCol: int
    const toRow: int
    const toCol: int
    const piece: Piece
    const capturedPiece: Piece?
    const isEnPassant: bool
    const isCastling: bool
    const promotionType: Option<PieceType>

    /** `hasMoved` of the moving piece before the move. */
    var prevHasMoved: bool
    /** For castling: the rook and the columns it moves between. */
    var rook: Piece?
    var rookFromCol: Option<int>
    var rookToCol: Option<int>
    /** The rook's `hasMoved` before castling; absent (undefined) until set. */
    var rookPrevHasMoved: Option<bool>
    /** The queen created by a promotion. */
    var promotedPiece: Piece?

    constructor (fromRow: int, fromCol: int, toRow: int, toCol: int, piece: Piece,
                 capturedPiece: Piece? := null, isEnPassant: bool := false,
                 isCastling: bool := false, promotionType: Option<PieceType> := None)
      ensures this.fromRow == fromRow && this.fromCol == fromCol
      ensures this.toRow == toRow && this.toCol == toCol
      ensures this.piece == piece && this.capturedPiece == capturedPiece
      ensures this.isEnPassant == isEnPassant && this.isCastling == isCastling
      ensures this.promotionType == promotionType
      ensures prevHasMoved == piece.hasMoved
      ensures rook == null && rookFromCol == None && rookToCol == None
      ensures rookPrevHasMoved == None && promotedPiece == null
    {
      this.fromRow := fromRow;
      this.fromCol := fromCol;
      this.toRow := toRow;
      this.toCol := toCol;
      this.piece := piece;
      this.capturedPiece := capturedPiece;
      this.isEnPassant := isEnPassant;
      this.isCastling := isCastling;
      this.promotionType := promotionType;
      this.prevHasMoved := piece.hasMoved;
      this.rook := null;
      this.rookFromCol := None;
      this.rookToCol := None;
      this.promotedPiece := null;
      this.rookPrevHasMoved := None;
    }

    /** "e2-e4": both squares in notation, joined by a dash. */
    function ToString(): (s: string)
      requires 0 <= 97 + fromCol < 0xD800 && 0 <= 97 + toCol < 0xD800
      ensures IsValidPosition(fromRow, fromCol) && IsValidPosition(toRow, toCol) ==>
        |s| == 5 && s[2] == '-' &&
        NotationToIndices(s[..2]) == Some((fromRow, fromCol)) &&
        NotationToIndices(s[3..]) == Some((toRow, toCol))
    {
      IndicesToNotation(fromRow, fromCol) + "-" + IndicesToNotation(toRow, toCol)
    }

    /** Two moves are equal when their four coordinates are. */
    predicate Equals(other: Move)
    {
      fromRow == other.fromRow && fromCol == other.fromCol &&
      toRow == other.toRow && toCol == other.toCol
    }
  }

  /** `equals` is an equivalence relation. */
  lemma EqualsIsEquivalence(a: Move, b: Move, c: Move)
    ensures a.Equals(a)
    ensures a.Equals(b) ==> b.Equals(a)
    ensures a.Equals(b) && b.Equals(c) ==> a.Equals(c)
  {
  }

  /** The value view of a move; every field it reads is constant. */
  function View(m: Move): MoveVal
  {
    MoveVal(Figure(m.piece.kind, m.piece.color), (m.fromRow, m.fromCol), (m.toRow, m.toCol),
            if m.capturedPiece == null then None else Some(Figure(m.capturedPiece.kind, m.capturedPiece.color)),
            m.isEnPassant, m.isCastling, m.promotionType)
  }

  /** The value views of a list of moves, in order. */
  function Views(ms: seq<Move>): seq<MoveVal>
  {
    if ms == [] then [] else Views(ms[..|ms| - 1]) + [View(ms[|ms| - 1])]
  }

  lemma {:induction false} ViewsAt(ms: seq<Move>)
    ensures |Views(ms)| == |ms|
    ensures forall i :: 0 <= i < |ms| ==> Views(ms)[i] == View(ms[i])
  {
    if ms != [] {
      ViewsAt(ms[..|ms| - 1]);
    }
  }

  lemma ViewsAppend(ms: seq<Move>, m: Move)
    ensures Views(ms + [m]) == Views(ms) + [View(m)]
  {
    assert (ms + [m])[..|ms|] == ms;
  }

  lemma {:induction false} ViewsConcat(a: seq<Move>, b: seq<Move>)
    ensures Views(a + b) == Views(a) + Views(b)
    decreases |b|
  {
    if b == [] {
      assert a + b == a;
    } else {
      var init := b[..|b| - 1];
      ViewsConcat(a, init);
      assert a + b == (a + init) + [b[|b| - 1]];
      ViewsAppend(a + init, b[|b| - 1]);
      assert Views(b) == Views(init) + [View(b[|b| - 1])];
    }
  }

  /** The views of a list with `m` spliced in at `j` are the views with `View(m)` spliced in. */
  lemma ViewsSplice(ms: seq<Move>, j: int, m: Move)
    requires 0 <= j <= |ms|
    ensures |Views(ms)| == |ms| && Views(ms[..j] + [m] + ms[j..]) == Views(ms)[..j] + [View(m)] + Views(ms)[j..]
  {
    var s := ms[..j] + [m] + ms[j..];
    ViewsAt(s);
    ViewsAt(ms);
    var r := Views(ms)[..j] + [View(m)] + Views(ms)[j..];
    forall i | 0 <= i < |r|
      ensures Views(s)[i] == r[i]
    {
      if i > j {
        assert s[i] == ms[i - 1];
      }
    }
  }
}
