/**
 * The search of js/ai/MinimaxAI.js on game-state objects: the position key,
 * the repetition table, the state copy, the alpha-beta `minimax` with its two
 * loops and the root loop of `findBestMove`, each proved to compute the
 * function of the same name on position values.
 */
module MinimaxSearch {
  import opened Types
  import opened Pieces
  import opened Grids
  import opened Helpers
  import opened Moves
  import opened RulesSpec
  import Rules
  import opened Scans
  import opened GameSpec
  import opened GameFacts
  import opened GameStates
  import Evaluation
  import opened SearchSpec
  import opened SearchFacts

  /** Every move of the list has both squares on the board. */
  predicate AllPlaced(ms: seq<Move>)
  {
    forall k :: 0 <= k < |ms| ==> Placed(ms[k])
  }

  /** Moves whose views are legal moves of the side to move on a well-placed board are on the board. */
  lemma LegalPlaced(s: Pos, ms: seq<Move>)
    requires WellPlaced(s.grid)
    requires forall m :: m in Views(ms) ==> m in LegalMoves(s.grid, s.player)
    ensures AllPlaced(ms)
  {
    ViewsAt(ms);
    LegalMovesRegular(s.grid, s.player);
    forall k | 0 <= k < |ms|
      ensures Placed(ms[k])
    {
      assert Views(ms)[k] in Views(ms);
    }
  }

  /**
   * `t` is the tree `minimax` explores below `s`, a node over the moves
   * `ms` in the order `orderMoves` gives them. The tree itself is stated
   * under a quantifier over the depth so that it is unfolded only where a
   * proof names `GameTree` at that depth; the loops see only its shape.
   */
  ghost predicate SearchNode(w: Weights, s: Pos, depth: nat, isMax: bool, ai: Color, t: Tree, ms: seq<Move>)
  {
    WellPlaced(s.grid) && t.Node? && t.isMax == isMax && |t.kids| == |ms| &&
    forall d: nat :: d == depth ==> t == GameTree(w, s, d, isMax, ai) && Views(ms) == Ordered(w, s)
  }

  /**
   * `kids` are the trees of the replies `findBestMove` searches below `s`,
   * one per move of `ms` in the order `orderMoves` gives them, `pens` the
   * repetition penalties of those moves under `table`, and `childDepth` the
   * depth each reply is searched to. As in `SearchNode`, the trees are
   * stated under a quantifier over the depth.
   */
  ghost predicate RootNode(w: Weights, n: Initials, s: Pos, depth: nat, table: map<string, int>, childDepth: nat,
                           kids: seq<Tree>, pens: seq<int>, ms: seq<Move>)
  {
    WellPlaced(s.grid) && depth > 0 && |kids| == |ms| && |pens| == |ms| &&
    forall d: nat :: d == depth ==>
      kids == RootTrees(w, s, d) && pens == Penalties(n, s, Ordered(w, s), table) &&
      Views(ms) == Ordered(w, s) && childDepth == Below(SearchDepth(s, d))
  }

  /** The replies and penalties of the ordered legal moves form the root node `findBestMove` walks. */
  lemma RootNodeAt(w: Weights, n: Initials, s: Pos, depth: nat, table: map<string, int>, childDepth: nat, ms: seq<Move>)
    requires WellPlaced(s.grid) && depth > 0 && Views(ms) == Ordered(w, s)
    requires childDepth == Below(SearchDepth(s, depth))
    ensures RootNode(w, n, s, depth, table, childDepth, RootTrees(w, s, depth), Penalties(n, s, Ordered(w, s), table), ms)
  {
    ViewsAt(ms);
  }

  /**
   * `bestMove` is the move `findBestMove` returns on `s`, or null when it
   * returns none; stated under a quantifier over the depth so that the search
   * it names is unfolded only where a proof names `BestMove` at that depth.
   */
  ghost predicate Chosen(w: Weights, n: Initials, s: Pos, depth: nat, table: map<string, int>, bestMove: Move?)
    reads bestMove
  {
    WellPlaced(s.grid) && depth > 0 &&
    forall d: nat :: d == depth && d > 0 ==>
      (bestMove == null <==> BestMove(w, n, s, d, table).None?) &&
      (bestMove != null ==> View(bestMove) == BestMove(w, n, s, d, table).value)
  }

  /** The move the root loop keeps over the ordered moves `ms` is the move `findBestMove` returns. */
  lemma RootChoice(w: Weights, n: Initials, s: Pos, depth: nat, table: map<string, int>, childDepth: nat,
                   kids: seq<Tree>, pens: seq<int>, ms: seq<Move>, bestMove: Move?)
    requires RootNode(w, n, s, depth, table, childDepth, kids, pens, ms)
    requires bestMove == null <==> RootLoop(kids, pens, 0, NegInf, NegInf, -1) == -1
    requires bestMove != null ==>
      0 <= RootLoop(kids, pens, 0, NegInf, NegInf, -1) < |ms| && bestMove == ms[RootLoop(kids, pens, 0, NegInf, NegInf, -1)]
    ensures Chosen(w, n, s, depth, table, bestMove)
  {
    assert kids == RootTrees(w, s, depth) && pens == Penalties(n, s, Ordered(w, s), table);
    assert Views(ms) == Ordered(w, s);
    var i := RootLoop(kids, pens, 0, NegInf, NegInf, -1);
    assert i == BestIndex(w, n, s, depth, table);
    var best := BestMove(w, n, s, depth, table);
    assert best == if i == -1 then None else Some(Ordered(w, s)[i]);
    if bestMove != null {
      assert Views(ms)[i] == View(ms[i]) by { ViewsAt(ms); }
      assert View(bestMove) == best.value;
    }
  }

  /** The `i`-th reply tree and penalty at the root belong to the `i`-th ordered move. */
  lemma RootKidAt(w: Weights, n: Initials, s: Pos, depth: nat, table: map<string, int>, childDepth: nat,
                  kids: seq<Tree>, pens: seq<int>, ms: seq<Move>, i: int)
    requires RootNode(w, n, s, depth, table, childDepth, kids, pens, ms) && 0 <= i < |ms|
    ensures View(ms[i]) in LegalMoves(s.grid, s.player)
    ensures kids[i] == GameTree(w, Child(s, View(ms[i])), childDepth, false, s.player)
    ensures pens[i] == PenaltyOf(table, PositionKey(n, Child(s, View(ms[i])).grid))
  {
    assert kids == RootTrees(w, s, depth) && pens == Penalties(n, s, Ordered(w, s), table);
    assert Views(ms) == Ordered(w, s) && childDepth == Below(SearchDepth(s, depth));
    OrderedAt(w, s, ms);
    RootReplyAt(w, n, s, depth, table, i);
  }

  /** The moves a search loop walks are the ordered legal moves, one by one. */
  lemma OrderedAt(w: Weights, s: Pos, ms: seq<Move>)
    requires Views(ms) == Ordered(w, s)
    ensures |ms| == |Ordered(w, s)|
    ensures forall k :: 0 <= k < |ms| ==> View(ms[k]) == Ordered(w, s)[k] && View(ms[k]) in LegalMoves(s.grid, s.player)
  {
    ViewsAt(ms);
    forall k | 0 <= k < |ms|
      ensures View(ms[k]) in LegalMoves(s.grid, s.player)
    {
      assert Ordered(w, s)[k] in Ordered(w, s);
    }
  }

  class MinimaxAI {
    /** The search depth in plies. */
    var depth: int
    /** The time budget in milliseconds; kept, but the clock it is compared with is not modelled. */
    var timeLimit: int
    /** How often each position key occurred among the positions `buildPositionHistory` visited. */
    var positionHistory: map<string, int>

    constructor (depth: int := 6, timeLimit: int := 5000)
      ensures this.depth == depth && this.timeLimit == timeLimit && positionHistory == map[]
    {
      this.depth := depth;
      this.timeLimit := timeLimit;
      positionHistory := map[];
    }

    /**
     * `setDifficulty`: the depth clamped to 2..8, and the time budget of
     * its level: 15 s from depth 8, 8 s from depth 6, 5 s below.
     */
    method SetDifficulty(depth: int)
      modifies this
      ensures 2 <= this.depth <= 8
      ensures 2 <= depth <= 8 ==> this.depth == depth
      ensures depth < 2 ==> this.depth == 2
      ensures depth > 8 ==> this.depth == 8
      ensures this.depth == 8 ==> timeLimit == 15000
      ensures 6 <= this.depth < 8 ==> timeLimit == 8000
      ensures this.depth < 6 ==> timeLimit == 5000
      ensures positionHistory == old(positionHistory)
    {
      this.depth := if 8 < depth then 8 else depth;
      this.depth := if this.depth < 2 then 2 else this.depth;
      if this.depth >= 8 {
        timeLimit := 15000;
      } else if this.depth >= 6 {
        timeLimit := 8000;
      } else {
        timeLimit := 5000;
      }
    }

    /**
     * `getPositionKey`: the cell keys of the 64 squares in row-major order,
     * "." for an empty square.
     */
    method GetPositionKey(n: Initials, board: array2<Piece?>, ghost g: Grid) returns (key: string)
      requires Is8x8(board) && Abs(board) == g
      ensures key == PositionKey(n, g)
      ensures Abs(board) == g
    {
      key := "";
      for row := 0 to 8
        invariant Abs(board) == g
        invariant key == BoardScan(CellKeyAt(n, g), row, Width())
      {
        var line := RowKey(n, board, row);
        key := key + line;
      }
    }

    /** The inner loop of `getPositionKey`: the keys of the squares of one row. */
    method RowKey(n: Initials, board: array2<Piece?>, row: int) returns (line: string)
      requires Is8x8(board) && 0 <= row < 8
      ensures line == RowScan(CellKeyAt(n, Abs(board)), row, Width())
      ensures Abs(board) == old(Abs(board))
    {
      ghost var g := Abs(board);
      ghost var f := CellKeyAt(n, g);
      line := "";
      for col := 0 to 8
        invariant Abs(board) == g
        invariant line == RowScan(f, row, col)
      {
        var cell := CellKeyOf(n, board, row, col);
        assert cell == f(row, col);
        line := line + cell;
      }
    }

    /** The part of the position key for one square. */
    method CellKeyOf(n: Initials, board: array2<Piece?>, row: int, col: int) returns (cell: string)
      requires Is8x8(board) && 0 <= row < 8 && 0 <= col < 8
      ensures cell == CellKey(n, Abs(board), row, col)
      ensures Abs(board) == old(Abs(board))
    {
      AbsAt(board, row, col);
      var piece := board[row, col];
      if piece != null {
        cell := [n.OfType(piece.kind), n.OfColor(piece.color), Digit(row), Digit(col)];
      } else {
        cell := ".";
      }
    }

    /**
     * `cloneGameState`: a new state whose board holds a new piece per
     * occupied square (same type, side and moved flag, coordinates set to
     * the square), the side to move and end-of-game flags copied, and an
     * empty history.
     */
    method CloneGameState(gs: GameState) returns (c: GameState)
      requires gs.board.Valid()
      ensures fresh(c) && fresh(c.board) && fresh(c.board.squares)
      ensures forall p :: p in PiecesOf(c.board.squares) ==> fresh(p)
      ensures c.board.squares != gs.board.squares && PiecesOf(c.board.squares) !! PiecesOf(gs.board.squares)
      ensures c.Valid()
      ensures Abs(c.board.squares) == Restamp(Abs(gs.board.squares))
      ensures c.currentPlayer == gs.currentPlayer && c.isGameOver == gs.isGameOver && c.winner == gs.winner
      ensures c.moveHistory == [] && c.capturedWhite == [] && c.capturedBlack == []
      ensures Abs(gs.board.squares) == old(Abs(gs.board.squares))
    {
      ghost var g := Abs(gs.board.squares);
      AbsMirrors(gs.board.squares);
      var squares := CloneBoard(gs.board.squares);
      AbsMirrors(squares);
      c := NewState(gs.currentPlayer, gs.isGameOver, gs.winner);
      c.board.squares := squares;
      MirrorsAbs(squares, Restamp(g));
      MirrorsAbs(gs.board.squares, g);
      WellPlacedCoords(c.board.squares);
    }

    /**
     * The `new GameState()` of `cloneGameState` with the side to move and
     * the end-of-game flags copied in; its board is replaced afterwards.
     */
    static method NewState(currentPlayer: Color, isGameOver: bool, winner: Outcome) returns (c: GameState)
      ensures fresh(c) && fresh(c.board) && c.board.Valid()
      ensures c.currentPlayer == currentPlayer && c.isGameOver == isGameOver && c.winner == winner
      ensures c.moveHistory == [] && c.capturedWhite == [] && c.capturedBlack == []
    {
      c := new GameState();
      c.currentPlayer := currentPlayer;
      c.isGameOver := isGameOver;
      c.winner := winner;
      c.moveHistory := [];
    }

    /**
     * `buildPositionHistory`: the table is reset, then a copy of the state
     * is undone up to ten times and the key of each position reached is
     * counted. The copy has no history, so every undo leaves it as it is.
     */
    method BuildPositionHistory(n: Initials, gs: GameState)
      requires gs.Valid()
      modifies this
      ensures positionHistory ==
        HistoryTable(PositionKey(n, Abs(gs.board.squares)), if |gs.moveHistory| < 10 then |gs.moveHistory| else 10)
      ensures depth == old(depth) && timeLimit == old(timeLimit)
      ensures unchanged(gs, gs.board, gs.board.squares) && unchanged(PiecesOf(gs.board.squares))
      ensures unchanged(set m | m in gs.moveHistory)
    {
      var historyLength := if |gs.moveHistory| < 10 then |gs.moveHistory| else 10;
      ghost var key := PositionKey(n, Abs(gs.board.squares));
      var table := CountPositions(n, gs, historyLength, key);
      positionHistory := table;
      AbsUnchanged(gs.board.squares);
    }

    /**
     * The copy and the loop of `buildPositionHistory`, counting into a table
     * that starts empty: the copy has no history, so each undo leaves it as
     * it is and its key, the key of the original, is counted once more.
     */
    method CountPositions(n: Initials, gs: GameState, historyLength: nat, ghost key: string)
      returns (table: map<string, int>)
      requires gs.board.Valid() && key == PositionKey(n, Abs(gs.board.squares))
      ensures table == HistoryTable(key, historyLength)
    {
      var tempState := CloneGameState(gs);
      RestampKey(n, old(Abs(gs.board.squares)));
      table := CountUndone(n, tempState, historyLength, key);
    }

    /** The loop of `buildPositionHistory` on a state with no history, whose key is `key`. */
    method CountUndone(n: Initials, tempState: GameState, historyLength: nat, ghost key: string)
      returns (table: map<string, int>)
      requires tempState.Valid() && tempState.moveHistory == []
      requires key == PositionKey(n, Abs(tempState.board.squares))
      modifies tempState, tempState.board.squares, PiecesOf(tempState.board.squares)
      ensures table == HistoryTable(key, historyLength)
    {
      ghost var b := tempState.board.squares;
      ghost var g := Abs(b);
      table := map[];
      for i := 0 to historyLength
        invariant tempState.Valid() && tempState.moveHistory == [] && tempState.board.squares == b
        invariant unchanged(b) && Abs(b) == g
        invariant table == HistoryTable(key, i)
      {
        var k := UndoAndKey(n, tempState, b, g);
        HistoryTableStep(table, k, i);
        table := table[k := (if k in table then table[k] else 0) + 1];
      }
    }

    /** One round of that loop: the undo, which changes nothing, and the key of the position. */
    method UndoAndKey(n: Initials, tempState: GameState, ghost b: array2<Piece?>, ghost g: Grid) returns (k: string)
      requires tempState.Valid() && tempState.moveHistory == [] && tempState.board.squares == b && Abs(b) == g
      modifies tempState, b, PiecesOf(b)
      ensures tempState.Valid() && tempState.moveHistory == [] && tempState.board.squares == b
      ensures unchanged(b) && Abs(b) == g
      ensures k == PositionKey(n, g)
    {
      tempState.UndoMove();
      k := GetPositionKey(n, tempState.board.squares, g);
    }

    /**
     * `minimax` without the clock: the board score for the AI's side at
     * depth 0 or after the game ended, -Infinity or Infinity for a mated
     * side and 0 for a stalemated one, otherwise the loop of the searching
     * side over the ordered legal moves.
     */
    method Minimax(w: Weights, gs: GameState, depth: nat, alpha: Score, beta: Score, isMax: bool, ai: Color)
      returns (value: Score)
      requires gs.Valid() && WellPlaced(Abs(gs.board.squares))
      ensures Abs(gs.board.squares) == old(Abs(gs.board.squares))
      ensures value == Search(w, old(gs.Position()), depth, alpha, beta, isMax, ai)
      decreases depth, 3
    {
      ghost var s := gs.Position();
      LeafSearch(w, s, depth, alpha, beta, isMax, ai);
      if depth == 0 || gs.isGameOver {
        var score := Evaluation.EvaluateBoard(w, gs.board.squares, ai);
        return Fin(score);
      }
      var currentColor := gs.currentPlayer;
      var moves := gs.GetAllLegalMoves(currentColor);
      ViewsAt(moves);
      if |moves| == 0 {
        assert s.grid == Abs(gs.board.squares) && s.player == currentColor && LegalMoves(s.grid, s.player) == [];
        var inCheck := Rules.IsKingInCheck(gs.board.squares, currentColor);
        if inCheck {
          return if isMax then NegInf else PosInf;
        }
        return Fin(0);
      }
      value := SearchMoves(w, gs, moves, depth, alpha, beta, isMax, ai, s);
    }

    /**
     * The part of `minimax` after the legal moves were found: the moves
     * ordered, then the loop of the searching side over them.
     */
    method SearchMoves(w: Weights, gs: GameState, moves: seq<Move>, depth: nat, alpha: Score, beta: Score,
                       isMax: bool, ai: Color, ghost s: Pos)
      returns (value: Score)
      requires gs.board.Valid() && gs.Position() == s && WellPlaced(s.grid)
      requires depth > 0 && !s.over && moves != [] && Views(moves) == LegalMoves(s.grid, s.player)
      modifies moves
      ensures gs.board.Valid() && gs.Position() == s
      ensures value == Search(w, s, depth, alpha, beta, isMax, ai)
      decreases depth, 2
    {
      ViewsAt(moves);
      LegalPlaced(s, moves);
      var orderedMoves := Evaluation.OrderMoves(w, moves, gs.board.squares);
      forall k | 0 <= k < |orderedMoves|
        ensures orderedMoves[k] in moves
      {
        assert orderedMoves[k] in multiset(moves);
      }
      NodeShape(w, s, depth, isMax, ai);
      NodeKids(w, s, depth, isMax, ai);
      ViewsAt(orderedMoves);
      ghost var t := GameTree(w, s, depth, isMax, ai);
      assert SearchNode(w, s, depth, isMax, ai, t, orderedMoves);
      if isMax {
        value := MaxSearch(w, gs, orderedMoves, depth, alpha, beta, ai, s, t);
      } else {
        value := MinSearch(w, gs, orderedMoves, depth, alpha, beta, ai, s, t);
      }
    }

    /**
     * The maximizing loop of `minimax`: each child is searched with the
     * current window, the best value and alpha rise to it, and the loop
     * stops once beta is at or below alpha.
     */
    method MaxSearch(w: Weights, gs: GameState, orderedMoves: seq<Move>, depth: nat, alpha: Score, beta: Score,
                     ai: Color, ghost s: Pos, ghost t: Tree)
      returns (maxValue: Score)
      requires gs.board.Valid() && gs.Position() == s
      requires SearchNode(w, s, depth, true, ai, t, orderedMoves)
      modifies orderedMoves
      ensures gs.board.Valid() && gs.Position() == s
      ensures maxValue == AlphaBeta(t, alpha, beta)
      decreases depth, 1
    {
      NodeLoops(t, alpha, beta);
      maxValue := NegInf;
      var a := alpha;
      for i := 0 to |orderedMoves|
        invariant gs.board.Valid() && gs.Position() == s
        invariant MaxLoop(t, i, maxValue, a, beta) == MaxLoop(t, 0, NegInf, alpha, beta)
      {
        assert forall p :: p in PiecesOf(gs.board.squares) ==> p as object != orderedMoves[i];
        label Top:
        var value := ChildValue(w, gs, orderedMoves, i, depth, a, beta, true, ai, s, t);
        AbsUnchanged@Top(gs.board.squares);
        maxValue := Max(maxValue, value);
        a := Max(a, value);
        if Le(beta, a) {
          return;
        }
      }
    }

    /**
     * The minimizing loop of `minimax`: each child is searched with the
     * current window, the best value and beta fall to it, and the loop
     * stops once beta is at or below alpha.
     */
    method MinSearch(w: Weights, gs: GameState, orderedMoves: seq<Move>, depth: nat, alpha: Score, beta: Score,
                     ai: Color, ghost s: Pos, ghost t: Tree)
      returns (minValue: Score)
      requires gs.board.Valid() && gs.Position() == s
      requires SearchNode(w, s, depth, false, ai, t, orderedMoves)
      modifies orderedMoves
      ensures gs.board.Valid() && gs.Position() == s
      ensures minValue == AlphaBeta(t, alpha, beta)
      decreases depth, 1
    {
      NodeLoops(t, alpha, beta);
      minValue := PosInf;
      var b := beta;
      for i := 0 to |orderedMoves|
        invariant gs.board.Valid() && gs.Position() == s
        invariant MinLoop(t, i, minValue, alpha, b) == MinLoop(t, 0, PosInf, alpha, beta)
      {
        assert forall p :: p in PiecesOf(gs.board.squares) ==> p as object != orderedMoves[i];
        label Top:
        var value := ChildValue(w, gs, orderedMoves, i, depth, alpha, b, false, ai, s, t);
        AbsUnchanged@Top(gs.board.squares);
        minValue := Min(minValue, value);
        b := Min(b, value);
        if Le(b, alpha) {
          return;
        }
      }
    }

    /**
     * The body of both loops of `minimax`: move `i` made on a copy of the
     * state, and the copy searched one ply shallower by the other side.
     */
    method ChildValue(w: Weights, gs: GameState, orderedMoves: seq<Move>, i: int, depth: nat,
                      alpha: Score, beta: Score, isMax: bool, ai: Color, ghost s: Pos, ghost t: Tree)
      returns (value: Score)
      requires gs.board.Valid() && gs.Position() == s
      requires SearchNode(w, s, depth, isMax, ai, t, orderedMoves) && 0 <= i < |orderedMoves|
      modifies orderedMoves[i]
      ensures gs.board.Valid() && gs.Position() == s
      ensures value == AlphaBeta(t.kids[i], alpha, beta)
      decreases depth, 0
    {
      assert t == GameTree(w, s, depth, isMax, ai) && Views(orderedMoves) == Ordered(w, s);
      var move := orderedMoves[i];
      ViewsAt(orderedMoves);
      SubtreeAt(w, s, depth, isMax, ai, i);
      LegalMovesRegular(s.grid, s.player);
      assert Child(s, View(move)) == Play(s, View(move));
      var tempState := PlayOnCopy(gs, move, s);
      label Played:
      value := Minimax(w, tempState, Below(depth), alpha, beta, !isMax, ai);
      AbsUnchanged@Played(gs.board.squares);
    }

    /**
     * The copy of the state that both `minimax` and `findBestMove` make a
     * move on: a clone of the state with the move made on it.
     */
    method PlayOnCopy(gs: GameState, move: Move, ghost s: Pos) returns (tempState: GameState)
      requires gs.board.Valid() && gs.Position() == s && WellPlaced(s.grid)
      requires Regular(s.grid, View(move)) && Placed(move)
      modifies move
      ensures tempState.Valid() && tempState.Position() == Play(s, View(move))
      ensures gs.board.Valid() && gs.Position() == s
    {
      assert gs as object != move && gs.board as object != move && gs.board.squares as object != move;
      assert forall p :: p in PiecesOf(gs.board.squares) ==> p as object != move;
      tempState := CopyAt(gs, s);
      label Copied:
      tempState.MakeMove(move);
      AbsUnchanged@Copied(gs.board.squares);
    }

    /** A clone of a state whose pieces record their own squares: the same position, on fresh objects. */
    method CopyAt(gs: GameState, ghost s: Pos) returns (c: GameState)
      requires gs.board.Valid() && gs.Position() == s && WellPlaced(s.grid)
      ensures fresh(c) && fresh(c.board) && fresh(c.board.squares)
      ensures forall p :: p in PiecesOf(c.board.squares) ==> fresh(p)
      ensures c.Valid() && c.Position() == s
    {
      c := CloneGameState(gs);
      RestampWellPlaced(s.grid);
    }

    /**
     * The body of the root loop of `findBestMove`: the move made on a copy
     * of the state, the reply searched by the opponent, and fifty points
     * taken off per recorded occurrence of the position reached.
     */
    method RootValue(w: Weights, n: Initials, gs: GameState, orderedMoves: seq<Move>, i: int, childDepth: nat,
                     alpha: Score, beta: Score, ghost s: Pos, ghost kids: seq<Tree>, ghost pens: seq<int>)
      returns (value: Score)
      requires gs.board.Valid() && gs.Position() == s && depth >= 1
      requires RootNode(w, n, s, depth, positionHistory, childDepth, kids, pens, orderedMoves) && 0 <= i < |orderedMoves|
      modifies orderedMoves[i]
      ensures gs.board.Valid() && gs.Position() == s
      ensures value == Minus(AlphaBeta(kids[i], alpha, beta), pens[i])
    {
      var move := orderedMoves[i];
      RootKidAt(w, n, s, depth, positionHistory, childDepth, kids, pens, orderedMoves, i);
      LegalMovesRegular(s.grid, s.player);
      ghost var c := Child(s, View(move));
      assert c == Play(s, View(move));
      var color := gs.currentPlayer;
      assert gs as object != move && gs.board as object != move && gs.board.squares as object != move;
      assert forall p :: p in PiecesOf(gs.board.squares) ==> p as object != move;
      assert this as object != move;
      var tempState := PlayOnCopy(gs, move, s);
      label Played:
      var reply := Minimax(w, tempState, childDepth, alpha, beta, false, color);
      value := Penalize(n, reply, tempState.board.squares, c.grid);
      AbsUnchanged@Played(gs.board.squares);
    }

    /**
     * The root loop of `findBestMove`: each ordered move's penalised reply
     * value is computed, a strictly greater one replaces the best move, and
     * alpha rises to every value.
     */
    method RootSearch(w: Weights, n: Initials, gs: GameState, orderedMoves: seq<Move>, childDepth: nat,
                      ghost s: Pos, ghost kids: seq<Tree>, ghost pens: seq<int>)
      returns (bestMove: Move?)
      requires gs.board.Valid() && gs.Position() == s && depth >= 1
      requires RootNode(w, n, s, depth, positionHistory, childDepth, kids, pens, orderedMoves)
      modifies orderedMoves
      ensures gs.board.Valid() && gs.Position() == s
      ensures bestMove == null <==> RootLoop(kids, pens, 0, NegInf, NegInf, -1) == -1
      ensures bestMove != null ==>
        0 <= RootLoop(kids, pens, 0, NegInf, NegInf, -1) < |orderedMoves| &&
        bestMove == orderedMoves[RootLoop(kids, pens, 0, NegInf, NegInf, -1)]
    {
      bestMove := null;
      var bestValue := NegInf;
      var alpha := NegInf;
      var beta := PosInf;
      ghost var index := -1;
      for i := 0 to |orderedMoves|
        invariant gs.board.Valid() && gs.Position() == s
        invariant -1 <= index < i
        invariant RootLoop(kids, pens, i, alpha, bestValue, index) == RootLoop(kids, pens, 0, NegInf, NegInf, -1)
        invariant bestMove == null <==> index == -1
        invariant index != -1 ==> bestMove == orderedMoves[index]
      {
        assert forall p :: p in PiecesOf(gs.board.squares) ==> p as object != orderedMoves[i];
        label Top:
        var value := RootValue(w, n, gs, orderedMoves, i, childDepth, alpha, beta, s, kids, pens);
        AbsUnchanged@Top(gs.board.squares);
        if Lt(bestValue, value) {
          bestValue := value;
          bestMove := orderedMoves[i];
          index := i;
        }
        alpha := Max(alpha, value);
      }
    }

    /** Fifty points off a value per recorded occurrence of the position on `board`. */
    method Penalize(n: Initials, value: Score, board: array2<Piece?>, ghost g: Grid) returns (r: Score)
      requires Is8x8(board) && Abs(board) == g
      ensures r == Minus(value, PenaltyOf(positionHistory, PositionKey(n, g)))
    {
      r := value;
      var posKey := GetPositionKey(n, board, g);
      if posKey in positionHistory && positionHistory[posKey] != 0 {
        var penalty := positionHistory[posKey] * 50;
        r := Minus(r, penalty);
      }
    }

    /**
     * `findBestMove` without the clock: the repetition table is built, the
     * search deepens by two plies when the side to move is in check, and
     * the first ordered move whose penalised reply value is strictly best
     * is returned, or null when there is none.
     */
    method FindBestMove(w: Weights, n: Initials, gs: GameState) returns (bestMove: Move?)
      requires depth >= 1 && gs.Valid() && WellPlaced(Abs(gs.board.squares))
      modifies this
      ensures depth == old(depth) && timeLimit == old(timeLimit)
      ensures Abs(gs.board.squares) == old(Abs(gs.board.squares))
      ensures positionHistory ==
        HistoryTable(PositionKey(n, Abs(gs.board.squares)), if |gs.moveHistory| < 10 then |gs.moveHistory| else 10)
      ensures bestMove == null <==> BestMove(w, n, gs.Position(), depth, positionHistory).None?
      ensures bestMove != null ==> View(bestMove) == BestMove(w, n, gs.Position(), depth, positionHistory).value
    {
      BuildPositionHistory(n, gs);
      StateUnchanged(gs);
      bestMove := ChooseMove(w, n, gs, gs.Position(), depth, positionHistory);
    }

    /**
     * The part of `findBestMove` after the repetition table is built: the
     * legal moves are generated and the depth is extended by two plies when
     * the side to move is in check.
     */
    method ChooseMove(w: Weights, n: Initials, gs: GameState, ghost s: Pos, ghost d: nat, ghost table: map<string, int>)
      returns (bestMove: Move?)
      requires depth >= 1 && gs.Valid() && gs.Position() == s && WellPlaced(s.grid)
      requires d == depth && table == positionHistory
      ensures gs.board.Valid() && gs.Position() == s
      ensures bestMove == null <==> BestMove(w, n, s, d, table).None?
      ensures bestMove != null ==> View(bestMove) == BestMove(w, n, s, d, table).value
    {
      var color := gs.currentPlayer;
      var moves := gs.GetAllLegalMoves(color);
      var inCheck := Rules.IsKingInCheck(gs.board.squares, color);
      var searchDepth := if inCheck then depth + 2 else depth;
      bestMove := PickMove(w, n, gs, moves, Below(searchDepth), s, d, table);
    }

    /** The legal moves `moves` are ordered and the root loop picks one of them. */
    method PickMove(w: Weights, n: Initials, gs: GameState, moves: seq<Move>, childDepth: nat,
                    ghost s: Pos, ghost d: nat, ghost table: map<string, int>)
      returns (bestMove: Move?)
      requires depth >= 1 && gs.board.Valid() && gs.Position() == s && WellPlaced(s.grid)
      requires d == depth && table == positionHistory
      requires Views(moves) == LegalMoves(s.grid, s.player) && childDepth == Below(SearchDepth(s, depth))
      modifies moves
      ensures gs.board.Valid() && gs.Position() == s
      ensures Chosen(w, n, s, d, table, bestMove)
    {
      ViewsAt(moves);
      LegalPlaced(s, moves);
      var orderedMoves := Evaluation.OrderMoves(w, moves, gs.board.squares);
      forall k | 0 <= k < |orderedMoves|
        ensures orderedMoves[k] in moves
      {
        assert orderedMoves[k] in multiset(moves);
      }
      ghost var kids := RootTrees(w, s, depth);
      ghost var pens := Penalties(n, s, Ordered(w, s), positionHistory);
      RootNodeAt(w, n, s, depth, positionHistory, childDepth, orderedMoves);
      bestMove := RootSearch(w, n, gs, orderedMoves, childDepth, s, kids, pens);
      RootChoice(w, n, s, d, table, childDepth, kids, pens, orderedMoves, bestMove);
    }
  }
}
