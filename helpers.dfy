/**
 * Coordinate helpers and the deep board copy (js/utils/helpers.js).
 */
module Helpers {
  import opened Types
  import opened Pieces
  import opened Grids

  /** Whether (row, col) is a square of the 8x8 board. */
  predicate IsValidPosition(row: int, col: int)
  {
    0 <= row < 8 && 0 <= col < 8
  }

  /** Decimal digits of a natural number, most significant first. */
  function NatString(n: nat): (s: string)
    ensures |s| >= 1
    ensures n < 10 ==> s == [(48 + n) as char]
    decreases n
  {
    if n < 10 then [(48 + n) as char] else NatString(n / 10) + [(48 + n % 10) as char]
  }

  /** How a number is written when it is interpolated into a string. */
  function DecimalString(n: int): (s: string)
    ensures |s| >= 1
  {
    if n < 0 then "-" + NatString(-n) else NatString(n)
  }

  /**
   * "e2" to (6, 4): the column is the first character's code minus 'a', the
   * row is 8 minus the digit in the second position. Where the source
   * computes NaN (a string shorter than two characters, or a second
   * character that is not a decimal digit), the result is `None`.
   */
  function NotationToIndices(notation: string): (r: Option<Square>)
    ensures r.Some? <==> |notation| >= 2 && '0' <= notation[1] <= '9'
    ensures r.Some? ==> r.value == (8 - (notation[1] as int - 48), notation[0] as int - 97)
  {
    if |notation| >= 2 && '0' <= notation[1] <= '9' then
      Some((8 - (notation[1] as int - 48), notation[0] as int - 97))
    else
      None
  }

  /**
   * (6, 4) to "e2": the character 'a' + col followed by the number 8 - row.
   * The column is limited to values whose character code is below the
   * surrogate range, so that `String.fromCharCode` yields that very character.
   */
  function IndicesToNotation(row: int, col: int): (s: string)
    requires 0 <= 97 + col < 0xD800
    ensures |s| >= 2 && s[0] == (97 + col) as char
    ensures IsValidPosition(row, col) ==> s == [(97 + col) as char, (48 + 8 - row) as char]
  {
    [(97 + col) as char] + DecimalString(8 - row)
  }

  /** Indices to notation and back is the identity on the board. */
  lemma IndicesRoundTrip(row: int, col: int)
    requires IsValidPosition(row, col)
    ensures NotationToIndices(IndicesToNotation(row, col)) == Some((row, col))
  {
  }

  /** Notation to indices and back is the identity on "a1" .. "h8". */
  lemma NotationRoundTrip(notation: string)
    requires |notation| == 2 && 'a' <= notation[0] <= 'h' && '1' <= notation[1] <= '8'
    ensures NotationToIndices(notation).Some?
    ensures var (row, col) := NotationToIndices(notation).value;
      IsValidPosition(row, col) && IndicesToNotation(row, col) == notation
  {
    var (row, col) := NotationToIndices(notation).value;
    assert IndicesToNotation(row, col) == [notation[0], notation[1]];
  }

  /**
   * A fresh 8x8 array in which every occupied square holds a fresh piece with
   * the original's type, side and `hasMoved`, and with `row`/`col` set to the
   * square's indices (whatever the original piece recorded).
   */
  method CloneBoard(board: array2<Piece?>) returns (newBoard: array2<Piece?>)
    requires Is8x8(board)
    ensures fresh(newBoard) && Is8x8(newBoard)
    ensures forall r, c :: 0 <= r < 8 && 0 <= c < 8 && newBoard[r, c] != null ==> fresh(newBoard[r, c])
    ensures forall r, c :: 0 <= r < 8 && 0 <= c < 8 ==> (board[r, c] == null <==> newBoard[r, c] == null)
    ensures forall r, c :: 0 <= r < 8 && 0 <= c < 8 && newBoard[r, c] != null ==>
      Val(newBoard[r, c]) == Val(board[r, c]).(row := r, col := c)
    ensures Abs(newBoard) == Restamp(Abs(board))
  {
    newBoard := new Piece?[8, 8]((_, _) => null);
    for row := 0 to 8
      invariant forall r, c :: 0 <= r < 8 && 0 <= c < 8 && newBoard[r, c] != null ==> fresh(newBoard[r, c])
      invariant forall r, c :: 0 <= r < row && 0 <= c < 8 ==> (board[r, c] == null <==> newBoard[r, c] == null)
      invariant forall r, c :: 0 <= r < row && 0 <= c < 8 && newBoard[r, c] != null ==>
        Val(newBoard[r, c]) == Val(board[r, c]).(row := r, col := c)
      invariant forall r, c :: row <= r < 8 && 0 <= c < 8 ==> newBoard[r, c] == null
    {
      for col := 0 to 8
        invariant forall r, c :: 0 <= r < 8 && 0 <= c < 8 && newBoard[r, c] != null ==> fresh(newBoard[r, c])
        invariant forall r, c :: 0 <= r < row && 0 <= c < 8 ==> (board[r, c] == null <==> newBoard[r, c] == null)
        invariant forall r, c :: 0 <= r < row && 0 <= c < 8 && newBoard[r, c] != null ==>
          Val(newBoard[r, c]) == Val(board[r, c]).(row := r, col := c)
        invariant forall c :: 0 <= c < col ==> (board[row, c] == null <==> newBoard[row, c] == null)
        invariant forall c :: 0 <= c < col && newBoard[row, c] != null ==>
          Val(newBoard[row, c]) == Val(board[row, c]).(row := row, col := c)
        invariant forall c :: col <= c < 8 ==> newBoard[row, c] == null
        invariant forall r, c :: row < r < 8 && 0 <= c < 8 ==> newBoard[r, c] == null
      {
        var piece := board[row, col];
        if piece != null {
          var newPiece := new Piece(piece.kind, piece.color, row, col);
          newPiece.hasMoved := piece.hasMoved;
          newBoard[row, col] := newPiece;
        }
      }
    }
    CopyAbs(board, newBoard);
  }
}
