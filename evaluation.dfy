/**
 * The evaluator of js/ai/evaluation.js on the board array: the loops of
 * `evaluateBoard`, `evaluateKingSafety` and `evaluateMobility`, the board
 * copy of `givesCheck`, and the sort of `orderMoves`, each proved to compute
 * the function of the same name on the value view of the board.
 */
module Evaluation {
  import opened Types
  import opened Pieces
  import opened Grids
  import opened Helpers
  import opened Moves
  import opened Lists
  import opened RulesSpec
  import opened Rules
  import opened Scans
  import opened GameSpec
  import opened GameStates
  import opened EvalSpec
  import opened EvalFacts

  /**
   * `evaluateBoard`: the material loop over all squares, then fifty times
   * the king-safety difference and ten times the mobility difference.
   */
  method EvaluateBoard(w: Weights, board: array2<Piece?>, color: Color) returns (score: int)
    requires Is8x8(board)
    ensures score == EvalSpec.EvaluateBoard(w, Abs(board), color)
    ensures Abs(board) == old(Abs(board))
  {
    ghost var g := Abs(board);
    score := MaterialScore(w, board, color, g);
    var own := EvaluateKingSafety(board, color);
    score := score + own * 50;
    var other := EvaluateKingSafety(board, Opponent(color));
    score := score - other * 50;
    var mobilityDiff := EvaluateMobility(board, color, g);
    score := score + mobilityDiff * 10;
  }

  /** The material loop of `evaluateBoard`: own pieces add their value, the others subtract it. */
  method MaterialScore(w: Weights, board: array2<Piece?>, color: Color, ghost g: Grid) returns (score: int)
    requires Is8x8(board) && Abs(board) == g
    ensures score == Material(w, g, color)
    ensures Abs(board) == g
  {
    ghost var f := MaterialAt(w, g, color);
    score := 0;
    var row := 0;
    while row < 8
      invariant 0 <= row <= 8
      invariant Abs(board) == g
      invariant score == BoardSum(f, row)
    {
      var rowScore := RowMaterial(w, board, color, row, g);
      score := score + rowScore;
      row := row + 1;
    }
  }

  /** The inner loop of the material loop: the squares of one row. */
  method RowMaterial(w: Weights, board: array2<Piece?>, color: Color, row: int, ghost g: Grid) returns (score: int)
    requires Is8x8(board) && 0 <= row < 8 && Abs(board) == g
    ensures score == RowSum(MaterialAt(w, g, color), row, Width())
    ensures Abs(board) == g
  {
    ghost var f := MaterialAt(w, g, color);
    score := 0;
    for col := 0 to 8
      invariant Abs(board) == g
      invariant score == RowSum(f, row, col)
    {
      var pieceScore := PieceMaterial(w, board, color, row, col);
      score := score + pieceScore;
    }
  }

  /** The body of the material loop: the signed value of the piece on one square. */
  method PieceMaterial(w: Weights, board: array2<Piece?>, color: Color, row: int, col: int) returns (v: int)
    requires Is8x8(board) && 0 <= row < 8 && 0 <= col < 8
    ensures v == SquareMaterial(w, Abs(board), color, row, col)
    ensures Abs(board) == old(Abs(board))
  {
    AbsAt(board, row, col);
    var piece := board[row, col];
    if piece == null {
      return 0;
    }
    var pieceValue := EvaluatePiece(w, Figure(piece.kind, piece.color), row, col);
    if piece.color == color {
      v := pieceValue;
    } else {
      v := -pieceValue;
    }
  }

  /**
   * `evaluateKingSafety`: the first king of `color` in row-major order;
   * without one, -10000; otherwise the check penalty, the attacked and
   * defended neighbour squares, and the castled bonus.
   */
  method EvaluateKingSafety(board: array2<Piece?>, color: Color) returns (safety: int)
    requires Is8x8(board)
    ensures safety == KingSafety(Abs(board), color)
    ensures Abs(board) == old(Abs(board))
  {
    safety := 0;
    var kingPos := FindKingOn(board, color);
    if kingPos.None? {
      return -10000;
    }
    var inCheck := IsKingInCheck(board, color);
    if inCheck {
      safety := safety - 100;
    }
    var enemyColor := if color == White then Black else White;
    var attackedSquares, defenderCount := KingNeighborhood(board, kingPos.value, color, enemyColor);
    safety := safety - attackedSquares * 15;
    safety := safety + defenderCount * 5;
    if (kingPos.value.1 == 2 || kingPos.value.1 == 6) && (kingPos.value.0 == 0 || kingPos.value.0 == 7) {
      safety := safety + 30;
    }
  }

  /** The king search of `evaluateKingSafety`: the first king of `color` in row-major order. */
  method FindKingOn(board: array2<Piece?>, color: Color) returns (kingPos: Option<Square>)
    requires Is8x8(board)
    ensures kingPos == FindKing(Abs(board), color)
    ensures Abs(board) == old(Abs(board))
  {
    ghost var g := Abs(board);
    kingPos := None;
    for row := 0 to 8
      invariant Abs(board) == g
      invariant kingPos.None? && FindKing(g, color) == FindKingFrom(g, color, 8 * row)
    {
      for col := 0 to 8
        invariant Abs(board) == g
        invariant kingPos.None? && FindKing(g, color) == FindKingFrom(g, color, 8 * row + col)
      {
        AbsAt(board, row, col);
        FindKingStep(g, color, row, col);
        var piece := board[row, col];
        if piece != null && piece.kind == King && piece.color == color {
          assert IsKingOf(At(g, row, col), color);
          kingPos := Some((row, col));
          break;
        }
      }
      if kingPos.Some? {
        break;
      }
    }
  }

  /**
   * The neighbour loop of `evaluateKingSafety`: the squares around `k` on
   * the board that `enemyColor` attacks, and those holding a piece of
   * `color`.
   */
  method KingNeighborhood(board: array2<Piece?>, k: Square, color: Color, enemyColor: Color)
    returns (attackedSquares: int, defenderCount: int)
    requires Is8x8(board)
    ensures attackedSquares == AttackedAround(Abs(board), k, enemyColor, KingNeighbors())
    ensures defenderCount == DefendersAround(Abs(board), k, color, KingNeighbors())
    ensures Abs(board) == old(Abs(board))
  {
    ghost var g := Abs(board);
    var neighbors := KingNeighbors();
    attackedSquares := 0;
    defenderCount := 0;
    for i := 0 to |neighbors|
      invariant Abs(board) == g
      invariant attackedSquares == AttackedAround(g, k, enemyColor, neighbors[..i])
      invariant defenderCount == DefendersAround(g, k, color, neighbors[..i])
    {
      AroundStep(g, k, color, enemyColor, neighbors, i);
      var r := k.0 + neighbors[i].0;
      var c := k.1 + neighbors[i].1;
      if !IsValidPosition(r, c) {
        continue;
      }
      var attacked := IsSquareAttacked(board, r, c, enemyColor);
      if attacked {
        attackedSquares := attackedSquares + 1;
      }
      AbsAt(board, r, c);
      var neighbor := board[r, c];
      if neighbor != null && neighbor.color == color {
        defenderCount := defenderCount + 1;
      }
    }
    assert neighbors[..|neighbors|] == neighbors;
  }

  /** Counting around the king one neighbour further adds that neighbour's square. */
  lemma AroundStep(g: Grid, k: Square, color: Color, enemy: Color, ds: seq<(int, int)>, i: int)
    requires 0 <= i < |ds|
    ensures var r, c := k.0 + ds[i].0, k.1 + ds[i].1;
      AttackedAround(g, k, enemy, ds[..i + 1]) ==
        AttackedAround(g, k, enemy, ds[..i]) + (if IsValidPosition(r, c) && SquareAttacked(g, r, c, enemy) then 1 else 0) &&
      DefendersAround(g, k, color, ds[..i + 1]) ==
        DefendersAround(g, k, color, ds[..i]) +
          (if IsValidPosition(r, c) && At(g, r, c).Some? && At(g, r, c).value.color == color then 1 else 0)
  {
    assert ds[..i + 1][..i] == ds[..i];
  }

  /**
   * `evaluateMobility`: every piece's attack-only moves, counted for its
   * side; own count minus the opponent's.
   */
  method EvaluateMobility(board: array2<Piece?>, color: Color, ghost g: Grid) returns (mobility: int)
    requires Is8x8(board) && Abs(board) == g
    ensures mobility == Mobility(g, color)
    ensures Abs(board) == g
  {
    ghost var f := MobilityDiffAt(g, color);
    var enemyColor := if color == White then Black else White;
    var myMoves := 0;
    var enemyMoves := 0;
    for row := 0 to 8
      invariant Abs(board) == g
      invariant myMoves - enemyMoves == BoardSum(f, row)
    {
      var mine, theirs := RowMobility(board, color, enemyColor, row, g);
      myMoves := myMoves + mine;
      enemyMoves := enemyMoves + theirs;
    }
    mobility := myMoves - enemyMoves;
  }

  /** The inner loop of `evaluateMobility`: the move counts of both sides in one row. */
  method RowMobility(board: array2<Piece?>, color: Color, enemyColor: Color, row: int, ghost g: Grid)
    returns (mine: int, theirs: int)
    requires Is8x8(board) && 0 <= row < 8 && enemyColor == Opponent(color) && Abs(board) == g
    ensures mine - theirs == RowSum(MobilityDiffAt(g, color), row, Width())
    ensures Abs(board) == g
  {
    ghost var f := MobilityDiffAt(g, color);
    mine := 0;
    theirs := 0;
    for col := 0 to 8
      invariant Abs(board) == g
      invariant mine - theirs == RowSum(f, row, col)
    {
      AbsAt(board, row, col);
      var piece := board[row, col];
      if piece == null {
        continue;
      }
      var moves := GenerateMovesForPiece(board, piece, true);
      ViewsAt(moves);
      if piece.color == color {
        mine := mine + |moves|;
      } else {
        theirs := theirs + |moves|;
      }
    }
  }

  /**
   * `givesCheck`: on a copy of the board the piece on `from` is moved to
   * `to`, and the other side's king is checked for check; false when `from`
   * is empty. The board passed in is left as it was.
   */
  method GivesCheck(board: array2<Piece?>, move: Move) returns (check: bool)
    requires Is8x8(board) && Placed(move)
    ensures check == EvalSpec.GivesCheck(Abs(board), View(move))
    ensures Abs(board) == old(Abs(board))
  {
    ghost var g := Abs(board);
    AbsMirrors(board);
    var tempBoard := CloneBoard(board);
    MirrorsAbs(board, g);
    AbsMirrors(board);
    check := CheckOnCopy(tempBoard, move);
    MirrorsAbs(board, g);
  }

  /**
   * The rest of `givesCheck`, on the copy: false when `from` is empty;
   * otherwise the piece moves and the other side's king is checked for check.
   */
  method CheckOnCopy(tempBoard: array2<Piece?>, move: Move) returns (check: bool)
    requires Is8x8(tempBoard) && Placed(move) && WellPlaced(Abs(tempBoard))
    modifies tempBoard, PiecesOf(tempBoard)
    ensures var c := old(Abs(tempBoard)); var from := (move.fromRow, move.fromCol);
      check == (from in c && KingInCheck(MovedCopy(c, from, (move.toRow, move.toCol)), Opponent(c[from].color)))
  {
    AbsAt(tempBoard, move.fromRow, move.fromCol);
    var piece := tempBoard[move.fromRow, move.fromCol];
    if piece == null {
      return false;
    }
    var enemyColor := if piece.color == White then Black else White;
    MoveOnCopy(tempBoard, move.fromRow, move.fromCol, move.toRow, move.toCol);
    check := IsKingInCheck(tempBoard, enemyColor);
  }

  /** The score the comparator of `orderMoves` computes for one move. */
  method ScoreMove(w: Weights, board: array2<Piece?>, move: Move) returns (score: int)
    requires Is8x8(board) && Placed(move)
    ensures score == MoveScore(w, Abs(board), View(move))
    ensures Abs(board) == old(Abs(board))
  {
    score := 0;
    if move.capturedPiece != null {
      score := score + w.pieceValue(move.capturedPiece.kind) * 10 - w.pieceValue(move.piece.kind);
    }
    var check := GivesCheck(board, move);
    if check {
      score := score + 50;
    }
    score := score + CenterBonus(move.toRow, move.toCol);
    if move.promotionType.Some? {
      score := score + 800;
    }
  }

  /**
   * `orderMoves`: a stable sort by non-increasing score. Each move's score is
   * computed once, up front, which the comparator's repeated calls cannot
   * tell apart because `givesCheck` leaves the board unchanged.
   */
  method OrderMoves(w: Weights, moves: seq<Move>, board: array2<Piece?>) returns (ordered: seq<Move>)
    requires Is8x8(board) && forall k :: 0 <= k < |moves| ==> Placed(moves[k])
    ensures Views(ordered) == EvalSpec.OrderMoves(w, Abs(board), Views(moves))
    ensures multiset(ordered) == multiset(moves)
    ensures Abs(board) == old(Abs(board))
  {
    ghost var g := Abs(board);
    var scores := ScoreMoves(w, moves, board);
    AbsMirrors(board);
    ordered := SortByScores(moves, scores, ScoreKey(w, g));
    MirrorsAbs(board, g);
  }

  /** The comparator's score of every move, in order. */
  method ScoreMoves(w: Weights, moves: seq<Move>, board: array2<Piece?>) returns (scores: seq<int>)
    requires Is8x8(board) && forall k :: 0 <= k < |moves| ==> Placed(moves[k])
    ensures Keyed(moves, scores, ScoreKey(w, Abs(board)))
    ensures Abs(board) == old(Abs(board))
  {
    ghost var g := Abs(board);
    scores := [];
    for i := 0 to |moves|
      invariant Abs(board) == g
      invariant |scores| == i
      invariant forall k :: 0 <= k < i ==> scores[k] == MoveScore(w, g, View(moves[k]))
    {
      var score := ScoreMove(w, board, moves[i]);
      scores := scores + [score];
    }
  }

  /** The stable insertion sort of `moves` by their precomputed scores, highest first. */
  method SortByScores(moves: seq<Move>, scores: seq<int>, ghost key: MoveVal -> int) returns (ordered: seq<Move>)
    requires Keyed(moves, scores, key)
    ensures Views(ordered) == SortDesc(Views(moves), key)
    ensures multiset(ordered) == multiset(moves)
  {
    ghost var views := Views(moves);
    ViewsAt(moves);
    ordered := [];
    var keys: seq<int> := [];
    for i := 0 to |moves|
      invariant Keyed(ordered, keys, key)
      invariant Views(ordered) == SortDesc(views[..i], key)
      invariant multiset(ordered) == multiset(moves[..i])
    {
      assert moves[..i + 1] == moves[..i] + [moves[i]];
      assert views[..i + 1][..i] == views[..i];
      ordered, keys := InsertByScore(ordered, keys, moves[i], scores[i], key);
    }
    assert moves[..|moves|] == moves;
    assert views[..|moves|] == views;
  }

  /** `keys` lists the score of each move of `ms`. */
  ghost predicate Keyed(ms: seq<Move>, keys: seq<int>, key: MoveVal -> int)
  {
    |keys| == |ms| && forall t :: 0 <= t < |ms| ==> keys[t] == key(View(ms[t]))
  }

  /** One insertion step of the sort: `m` goes after every move whose score is at least its own. */
  method InsertByScore(ms: seq<Move>, keys: seq<int>, m: Move, score: int, ghost key: MoveVal -> int)
    returns (ms': seq<Move>, keys': seq<int>)
    requires Keyed(ms, keys, key) && score == key(View(m))
    ensures Keyed(ms', keys', key)
    ensures Views(ms') == Insert(Views(ms), View(m), key)
    ensures multiset(ms') == multiset(ms) + multiset{m}
  {
    var j := InsertionPoint(keys, score);
    SpliceKeyed(ms, keys, key, j, m, score);
    ms' := ms[..j] + [m] + ms[j..];
    keys' := keys[..j] + [score] + keys[j..];
  }

  /** Splicing a move and its score in at the insertion point keeps the scores in step and inserts the view. */
  lemma SpliceKeyed(ms: seq<Move>, keys: seq<int>, key: MoveVal -> int, j: int, m: Move, score: int)
    requires Keyed(ms, keys, key) && score == key(View(m)) && 0 <= j <= |ms|
    requires forall t :: 0 <= t < j ==> keys[t] >= score
    requires j < |ms| ==> keys[j] < score
    ensures Keyed(ms[..j] + [m] + ms[j..], keys[..j] + [score] + keys[j..], key)
    ensures Views(ms[..j] + [m] + ms[j..]) == Insert(Views(ms), View(m), key)
    ensures multiset(ms[..j] + [m] + ms[j..]) == multiset(ms) + multiset{m}
  {
    ViewsAt(ms);
    InsertAt(Views(ms), View(m), key, j);
    ViewsSplice(ms, j, m);
    SpliceMultiset(ms, j, m);
    forall t | 0 <= t < |ms| + 1
      ensures (keys[..j] + [score] + keys[j..])[t] == key(View((ms[..j] + [m] + ms[j..])[t]))
    {
      SpliceAt(ms, j, m, t);
      SpliceAt(keys, j, score, t);
    }
  }

  /** The first index whose key is below `score`, or the length: where the stable insertion goes. */
  method InsertionPoint(keys: seq<int>, score: int) returns (j: int)
    ensures 0 <= j <= |keys|
    ensures forall t :: 0 <= t < j ==> keys[t] >= score
    ensures j < |keys| ==> keys[j] < score
  {
    j := 0;
    while j < |keys| && keys[j] >= score
      invariant 0 <= j <= |keys|
      invariant forall t :: 0 <= t < j ==> keys[t] >= score
    {
      j := j + 1;
    }
  }
}
