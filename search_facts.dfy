/**
 * What the search of js/ai/MinimaxAI.js guarantees: the pruned `minimax` is
 * the plain minimax value inside its window and a bound on it outside
 * (fail-soft alpha-beta), so the full window gives the exact value; the root
 * loop of `findBestMove` picks the first move of greatest plain minimax
 * value when no repetition penalty applies; equal board contents give equal
 * position keys; and the no-moves branch is never reached after a move.
 */
module SearchFacts {
  import opened Types
  import opened Grids
  import opened RulesSpec
  import opened RuleFacts
  import opened Scans
  import opened GameSpec
  import opened GameFacts
  import opened SearchSpec

  /** A position is searched further exactly when the depth is positive, the game goes on and the side to move has a legal move. */
  lemma NodeShape(w: Weights, s: Pos, depth: nat, isMax: bool, ai: Color)
    requires WellPlaced(s.grid)
    ensures GameTree(w, s, depth, isMax, ai).Node? <==> depth > 0 && !s.over && LegalMoves(s.grid, s.player) != []
    ensures GameTree(w, s, depth, isMax, ai).Node? ==> GameTree(w, s, depth, isMax, ai).isMax == isMax
  {
  }

  /** Such a node has one subtree per ordered legal move. */
  lemma NodeKids(w: Weights, s: Pos, depth: nat, isMax: bool, ai: Color)
    requires WellPlaced(s.grid) && GameTree(w, s, depth, isMax, ai).Node?
    ensures GameTree(w, s, depth, isMax, ai).isMax == isMax
    ensures |GameTree(w, s, depth, isMax, ai).kids| == |Ordered(w, s)|
  {
    NodeShape(w, s, depth, isMax, ai);
  }

  /** Subtree `j` of such a node is the tree of the position after the `j`-th ordered move, the other side searching. */
  lemma SubtreeAt(w: Weights, s: Pos, depth: nat, isMax: bool, ai: Color, j: int)
    requires WellPlaced(s.grid) && GameTree(w, s, depth, isMax, ai).Node?
    requires 0 <= j < |GameTree(w, s, depth, isMax, ai).kids|
    ensures depth > 0 && j < |Ordered(w, s)| && Ordered(w, s)[j] in LegalMoves(s.grid, s.player)
    ensures GameTree(w, s, depth, isMax, ai).kids[j] == GameTree(w, Child(s, Ordered(w, s)[j]), Below(depth), !isMax, ai)
  {
    NodeShape(w, s, depth, isMax, ai);
    assert Ordered(w, s)[j] in Ordered(w, s);
  }

  /** A node's search is its side's loop from the first subtree with the full starting window. */
  lemma NodeLoops(t: Tree, alpha: Score, beta: Score)
    requires t.Node?
    ensures t.isMax ==> AlphaBeta(t, alpha, beta) == MaxLoop(t, 0, NegInf, alpha, beta)
    ensures !t.isMax ==> AlphaBeta(t, alpha, beta) == MinLoop(t, 0, PosInf, alpha, beta)
  {
  }

  // ----- the extended order -----

  /** `Le` is a total order. */
  lemma LeOrder(a: Score, b: Score, c: Score)
    ensures Le(a, a)
    ensures Le(a, b) || Le(b, a)
    ensures Le(a, b) && Le(b, a) ==> a == b
    ensures Le(a, b) && Le(b, c) ==> Le(a, c)
  {
  }

  /** The infinities are the identities of `Max` and `Min`. */
  lemma Identities(a: Score, b: Score, v: Score)
    ensures Max(a, NegInf) == a && Max(NegInf, v) == v
    ensures Min(b, PosInf) == b && Min(PosInf, v) == v
  {
  }

  /** A value is bounded against itself in every window. */
  lemma BoundedSame(v: Score, alpha: Score, beta: Score)
    ensures Bounded(v, v, alpha, beta)
  {
  }

  // ----- alpha-beta -----

  /** One step of the maximizing loop when the reply causes a cutoff. */
  lemma MaxCut(alpha0: Score, best: Score, alpha: Score, beta: Score, v: Score, u: Score, rest: Score)
    requires alpha == Max(alpha0, best) && Lt(alpha, beta) && Bounded(v, u, alpha, beta)
    requires Le(beta, Max(alpha, v))
    ensures Bounded(Max(best, v), Max(best, Max(u, rest)), alpha0, beta)
  {
  }

  /** One step of the maximizing loop when the loop goes on. */
  lemma MaxStep(alpha0: Score, best: Score, alpha: Score, beta: Score, v: Score, u: Score, rest: Score, r: Score)
    requires alpha == Max(alpha0, best) && Lt(alpha, beta) && Bounded(v, u, alpha, beta)
    requires !Le(beta, Max(alpha, v))
    requires Bounded(r, Max(Max(best, v), rest), alpha0, beta)
    ensures Max(alpha, v) == Max(alpha0, Max(best, v))
    ensures Bounded(r, Max(best, Max(u, rest)), alpha0, beta)
  {
  }

  /** One step of the minimizing loop when the reply causes a cutoff. */
  lemma MinCut(beta0: Score, best: Score, alpha: Score, beta: Score, v: Score, u: Score, rest: Score)
    requires beta == Min(beta0, best) && Lt(alpha, beta) && Bounded(v, u, alpha, beta)
    requires Le(Min(beta, v), alpha)
    ensures Bounded(Min(best, v), Min(best, Min(u, rest)), alpha, beta0)
  {
  }

  /** One step of the minimizing loop when the loop goes on. */
  lemma MinStep(beta0: Score, best: Score, alpha: Score, beta: Score, v: Score, u: Score, rest: Score, r: Score)
    requires beta == Min(beta0, best) && Lt(alpha, beta) && Bounded(v, u, alpha, beta)
    requires !Le(Min(beta, v), alpha)
    requires Bounded(r, Min(Min(best, v), rest), alpha, beta0)
    ensures Min(beta, v) == Min(beta0, Min(best, v))
    ensures Bounded(r, Min(best, Min(u, rest)), alpha, beta0)
  {
  }

  /**
   * The pruned search of a tree against its plain minimax value, for any
   * window with alpha below beta: the value itself strictly inside, a value
   * between it and alpha at or below alpha, and one between beta and it at
   * or above beta.
   */
  lemma {:induction false} TreeBounded(t: Tree, alpha: Score, beta: Score)
    requires Lt(alpha, beta)
    ensures Bounded(AlphaBeta(t, alpha, beta), MinimaxValue(t), alpha, beta)
    decreases t, 1
  {
    match t
    case Leaf(v) =>
      BoundedSame(v, alpha, beta);
    case Node(isMax, _) =>
      Identities(alpha, beta, MinimaxValue(t));
      if isMax {
        MaxLoopBounded(t, 0, NegInf, alpha, alpha, beta);
      } else {
        MinLoopBounded(t, 0, PosInf, beta, alpha, beta);
      }
  }

  /**
   * The maximizing loop from subtree `k` on, entered with the best value so
   * far and alpha raised from `alpha0` by it, is bounded against the greater
   * of that best value and the plain values of the remaining subtrees, in
   * the window (`alpha0`, `beta`).
   */
  lemma {:induction false} MaxLoopBounded(t: Tree, k: nat, best: Score, alpha0: Score, alpha: Score, beta: Score)
    requires t.Node? && k <= |t.kids|
    requires alpha == Max(alpha0, best) && Lt(alpha, beta)
    ensures Bounded(MaxLoop(t, k, best, alpha, beta), Max(best, MaxAll(t, k)), alpha0, beta)
    decreases t, 0, |t.kids| - k
  {
    if k == |t.kids| {
      Identities(best, best, best);
      BoundedSame(best, alpha0, beta);
    } else {
      var v := AlphaBeta(t.kids[k], alpha, beta);
      var u := MinimaxValue(t.kids[k]);
      var rest := MaxAll(t, k + 1);
      TreeBounded(t.kids[k], alpha, beta);
      if Le(beta, Max(alpha, v)) {
        MaxCut(alpha0, best, alpha, beta, v, u, rest);
      } else {
        LeOrder(alpha0, best, v);
        MaxLoopBounded(t, k + 1, Max(best, v), alpha0, Max(alpha, v), beta);
        MaxStep(alpha0, best, alpha, beta, v, u, rest, MaxLoop(t, k + 1, Max(best, v), Max(alpha, v), beta));
      }
    }
  }

  /** The minimizing loop, symmetric to `MaxLoopBounded` in the window (`alpha`, `beta0`). */
  lemma {:induction false} MinLoopBounded(t: Tree, k: nat, best: Score, beta0: Score, alpha: Score, beta: Score)
    requires t.Node? && k <= |t.kids|
    requires beta == Min(beta0, best) && Lt(alpha, beta)
    ensures Bounded(MinLoop(t, k, best, alpha, beta), Min(best, MinAll(t, k)), alpha, beta0)
    decreases t, 0, |t.kids| - k
  {
    if k == |t.kids| {
      Identities(best, best, best);
      BoundedSame(best, alpha, beta0);
    } else {
      var v := AlphaBeta(t.kids[k], alpha, beta);
      var u := MinimaxValue(t.kids[k]);
      var rest := MinAll(t, k + 1);
      TreeBounded(t.kids[k], alpha, beta);
      if Le(Min(beta, v), alpha) {
        MinCut(beta0, best, alpha, beta, v, u, rest);
      } else {
        LeOrder(beta0, best, v);
        MinLoopBounded(t, k + 1, Min(best, v), beta0, alpha, Min(beta, v));
        MinStep(beta0, best, alpha, beta, v, u, rest, MinLoop(t, k + 1, Min(best, v), alpha, Min(beta, v)));
      }
    }
  }

  /**
   * `minimax` on a position, against the plain minimax value, for any window
   * with alpha below beta.
   */
  lemma SearchBounded(w: Weights, s: Pos, depth: nat, alpha: Score, beta: Score, isMax: bool, ai: Color)
    requires WellPlaced(s.grid) && Lt(alpha, beta)
    ensures Bounded(Search(w, s, depth, alpha, beta, isMax, ai), Value(w, s, depth, isMax, ai), alpha, beta)
  {
    TreeBounded(GameTree(w, s, depth, isMax, ai), alpha, beta);
  }

  /** With the full window `minimax` returns exactly the plain minimax value. */
  lemma FullWindowExact(w: Weights, s: Pos, depth: nat, isMax: bool, ai: Color)
    requires WellPlaced(s.grid)
    ensures Search(w, s, depth, NegInf, PosInf, isMax, ai) == Value(w, s, depth, isMax, ai)
  {
    TreeBounded(GameTree(w, s, depth, isMax, ai), NegInf, PosInf);
  }

  // ----- the root choice -----

  /**
   * Without penalties the root loop, entered with the best value equal to
   * alpha, keeps the same subtree as the plain choice: a reply whose plain
   * value exceeds alpha is searched exactly, and one that does not stays at
   * or below alpha.
   */
  lemma {:induction false} RootMatchesPlain(kids: seq<Tree>, pens: seq<int>, k: nat, alpha: Score, index: int)
    requires |pens| == |kids| && k <= |kids| && -1 <= index < k
    requires forall j :: k <= j < |kids| ==> pens[j] == 0
    ensures RootLoop(kids, pens, k, alpha, alpha, index) == PlainChoice(kids, k, alpha, index)
    decreases |kids| - k
  {
    if k < |kids| {
      var v := AlphaBeta(kids[k], alpha, PosInf);
      var u := MinimaxValue(kids[k]);
      assert Minus(v, pens[k]) == v;
      if alpha != PosInf {
        TreeBounded(kids[k], alpha, PosInf);
      }
      if Lt(alpha, u) {
        assert v == u && Max(alpha, v) == u;
        RootMatchesPlain(kids, pens, k + 1, u, k);
      } else {
        assert !Lt(alpha, v) && Max(alpha, v) == alpha;
        RootMatchesPlain(kids, pens, k + 1, alpha, index);
      }
    }
  }

  /**
   * The plain choice from `k` on keeps the first subtree of greatest plain
   * value: it is at least every subtree and strictly above every earlier
   * one, and none is kept exactly when every subtree is `-Infinity`.
   */
  lemma {:induction false} PlainChoiceBest(kids: seq<Tree>, k: nat, best: Score, index: int)
    requires k <= |kids| && -1 <= index < k
    requires index == -1 ==> best == NegInf
    requires index != -1 ==> best == MinimaxValue(kids[index]) && best != NegInf
    requires forall j :: 0 <= j < k ==> Le(MinimaxValue(kids[j]), best)
    requires forall j :: 0 <= j < index ==> Lt(MinimaxValue(kids[j]), best)
    ensures var i := PlainChoice(kids, k, best, index);
      (i == -1 <==> forall j :: 0 <= j < |kids| ==> MinimaxValue(kids[j]) == NegInf) &&
      (i != -1 ==>
         (forall j :: 0 <= j < |kids| ==> Le(MinimaxValue(kids[j]), MinimaxValue(kids[i]))) &&
         (forall j :: 0 <= j < i ==> Lt(MinimaxValue(kids[j]), MinimaxValue(kids[i]))))
    decreases |kids| - k
  {
    if k < |kids| {
      var u := MinimaxValue(kids[k]);
      if Lt(best, u) {
        forall j | 0 <= j < k
          ensures Lt(MinimaxValue(kids[j]), u)
        {
          LeOrder(MinimaxValue(kids[j]), best, u);
        }
        PlainChoiceBest(kids, k + 1, u, k);
      } else {
        PlainChoiceBest(kids, k + 1, best, index);
      }
    }
  }

  /** The plain minimax value of the reply to the `j`-th ordered move, at the root's search depth. */
  function ReplyValue(w: Weights, s: Pos, depth: nat, j: int): Score
    requires WellPlaced(s.grid) && depth > 0 && 0 <= j < |Ordered(w, s)|
  {
    MinimaxValue(RootTrees(w, s, depth)[j])
  }

  /** The reply value is the plain minimax value of the position after the move. */
  lemma ReplyValueIsValue(w: Weights, s: Pos, depth: nat, j: int)
    requires WellPlaced(s.grid) && depth > 0 && 0 <= j < |Ordered(w, s)|
    ensures ReplyValue(w, s, depth, j) == Value(w, Child(s, Ordered(w, s)[j]), Below(SearchDepth(s, depth)), false, s.player)
  {
  }

  /**
   * The search of a position without subtrees: the board score for the AI's
   * side at depth 0 or once the game is over, the mate or stalemate value
   * when the side to move has no legal move.
   */
  lemma LeafSearch(w: Weights, s: Pos, depth: nat, alpha: Score, beta: Score, isMax: bool, ai: Color)
    requires WellPlaced(s.grid)
    ensures depth == 0 || s.over ==> Search(w, s, depth, alpha, beta, isMax, ai) == Fin(EvalSpec.EvaluateBoard(w, s.grid, ai))
    ensures depth > 0 && !s.over && LegalMoves(s.grid, s.player) == [] ==>
      Search(w, s, depth, alpha, beta, isMax, ai) == NoMoves(s, isMax)
  {
  }

  /** Reply `j` of the root is searched on the position after ordered move `j`, and penalised by that position's count. */
  lemma RootReplyAt(w: Weights, n: Initials, s: Pos, depth: nat, table: map<string, int>, j: int)
    requires WellPlaced(s.grid) && depth > 0 && 0 <= j < |Ordered(w, s)|
    ensures Ordered(w, s)[j] in LegalMoves(s.grid, s.player)
    ensures RootTrees(w, s, depth)[j] == GameTree(w, Child(s, Ordered(w, s)[j]), Below(SearchDepth(s, depth)), false, s.player)
    ensures Penalties(n, s, Ordered(w, s), table)[j] == PenaltyOf(table, PositionKey(n, Child(s, Ordered(w, s)[j]).grid))
  {
    assert Ordered(w, s)[j] in Ordered(w, s);
  }

  /**
   * Without penalties the root loop keeps the first subtree of greatest
   * plain minimax value, and none exactly when every subtree is `-Infinity`.
   */
  lemma RootChoiceBest(kids: seq<Tree>, pens: seq<int>)
    requires |pens| == |kids| && forall j :: 0 <= j < |kids| ==> pens[j] == 0
    ensures var i := RootLoop(kids, pens, 0, NegInf, NegInf, -1);
      (i == -1 <==> forall j :: 0 <= j < |kids| ==> MinimaxValue(kids[j]) == NegInf) &&
      (i != -1 ==>
         (forall j :: 0 <= j < |kids| ==> Le(MinimaxValue(kids[j]), MinimaxValue(kids[i]))) &&
         (forall j :: 0 <= j < i ==> Lt(MinimaxValue(kids[j]), MinimaxValue(kids[i]))))
  {
    RootMatchesPlain(kids, pens, 0, NegInf, -1);
    PlainChoiceBest(kids, 0, NegInf, -1);
  }

  /** Moves that lead to no position of the table carry no penalty. */
  lemma NoPenalties(n: Initials, s: Pos, ms: seq<MoveVal>, table: map<string, int>)
    requires WellPlaced(s.grid)
    requires forall m :: m in ms ==> m in LegalMoves(s.grid, s.player) && PositionKey(n, Child(s, m).grid) !in table
    ensures forall j :: 0 <= j < |ms| ==> Penalties(n, s, ms, table)[j] == 0
  {
    forall j | 0 <= j < |ms|
      ensures Penalties(n, s, ms, table)[j] == 0
    {
      assert ms[j] in ms;
    }
  }

  /**
   * When no move leads to a position counted in the repetition table,
   * `findBestMove` keeps the first ordered legal move whose reply (the
   * `j`-th root tree is the reply to the `j`-th ordered move) has the
   * greatest plain minimax value at the search depth, and no move exactly
   * when every reply is `-Infinity`.
   */
  lemma BestMoveIsBest(w: Weights, n: Initials, s: Pos, depth: nat, table: map<string, int>)
    requires WellPlaced(s.grid) && depth > 0
    requires forall m :: m in LegalMoves(s.grid, s.player) ==> PositionKey(n, Child(s, m).grid) !in table
    ensures var kids := RootTrees(w, s, depth);
      var i := BestIndex(w, n, s, depth, table);
      (i == -1 <==> forall j :: 0 <= j < |kids| ==> MinimaxValue(kids[j]) == NegInf) &&
      (i != -1 ==>
         (forall j :: 0 <= j < |kids| ==> Le(MinimaxValue(kids[j]), MinimaxValue(kids[i]))) &&
         (forall j :: 0 <= j < i ==> Lt(MinimaxValue(kids[j]), MinimaxValue(kids[i]))))
  {
    NoPenalties(n, s, Ordered(w, s), table);
    RootChoiceBest(RootTrees(w, s, depth), Penalties(n, s, Ordered(w, s), table));
  }

  // ----- position keys and the repetition table -----

  /** Boards with the same type and side on every square have the same position key. */
  lemma SameFiguresSameKey(n: Initials, g: Grid, h: Grid)
    requires forall r, c :: 0 <= r < 8 && 0 <= c < 8 ==>
      (At(g, r, c).None? <==> At(h, r, c).None?) &&
      (At(g, r, c).Some? ==> FigureOf(At(g, r, c).value) == FigureOf(At(h, r, c).value))
    ensures PositionKey(n, g) == PositionKey(n, h)
  {
    forall r, c | 0 <= r < 8 && 0 <= c < 8
      ensures CellKeyAt(n, g)(r, c) == CellKeyAt(n, h)(r, c)
    {
      if At(g, r, c).Some? {
        assert FigureOf(At(g, r, c).value) == Figure(At(g, r, c).value.kind, At(g, r, c).value.color);
      }
    }
    BoardScanAgree(CellKeyAt(n, g), CellKeyAt(n, h), Width(), Width());
  }

  /** Copying a board (as `cloneGameState` does) keeps its position key. */
  lemma RestampKey(n: Initials, g: Grid)
    ensures PositionKey(n, Restamp(g)) == PositionKey(n, g)
  {
    var h := Restamp(g);
    forall r, c | 0 <= r < 8 && 0 <= c < 8
      ensures (At(h, r, c).None? <==> At(g, r, c).None?) &&
        (At(h, r, c).Some? ==> FigureOf(At(h, r, c).value) == FigureOf(At(g, r, c).value))
    {
      if (r, c) in g {
        assert FigureOf(h[(r, c)]) == FigureOf(g[(r, c)]);
      }
    }
    SameFiguresSameKey(n, h, g);
  }

  /** Counting the key of a table of its own occurrences once more gives the table with one more occurrence. */
  lemma HistoryTableStep(table: map<string, int>, key: string, count: nat)
    requires table == HistoryTable(key, count)
    ensures table[key := (if key in table then table[key] else 0) + 1] == HistoryTable(key, count + 1)
  {
  }

  /**
   * The table `buildPositionHistory` builds penalises only positions whose
   * key is the current one.
   */
  lemma HistoryTablePenalty(key: string, count: int, other: string)
    ensures PenaltyOf(HistoryTable(key, count), other) == if other == key && count > 0 then count * 50 else 0
  {
  }

  // ----- a move changes the position key -----

  /**
   * The shape of a square's key: "." for an empty square, otherwise four
   * characters ending in the column digit, which is never ".". No key is
   * the end of another, so a concatenation of keys splits back uniquely
   * from its end.
   */
  predicate CellCode(k: seq<char>)
  {
    k == "." || (|k| == 4 && k[3] != '.')
  }

  /** Two concatenations ending in square keys agree exactly when the keys and what precedes them agree. */
  lemma LastCode(a: seq<char>, x: seq<char>, b: seq<char>, y: seq<char>)
    requires CellCode(x) && CellCode(y) && a + x == b + y
    ensures a == b && x == y
  {
    var t := a + x;
    assert t[|t| - 1] == x[|x| - 1] == y[|y| - 1];
    assert |x| == |y|;
    assert a == t[..|a|] && b == t[..|b|];
    assert x == t[|a|..] && y == t[|b|..];
  }

  /** Row scans of square keys, after equal-length-unknown prefixes, agree only when prefixes and keys agree. */
  lemma {:induction false} RowScanSplit(f: (int, int) -> seq<char>, h: (int, int) -> seq<char>, r: int, n: int,
                                        a: seq<char>, b: seq<char>)
    requires forall c :: 0 <= c < n ==> CellCode(f(r, c)) && CellCode(h(r, c))
    requires a + RowScan(f, r, n) == b + RowScan(h, r, n)
    ensures a == b && forall c :: 0 <= c < n ==> f(r, c) == h(r, c)
    decreases n
  {
    if n > 0 {
      var a', b' := a + RowScan(f, r, n - 1), b + RowScan(h, r, n - 1);
      assert RowScan(f, r, n) == RowScan(f, r, n - 1) + f(r, n - 1);
      assert RowScan(h, r, n) == RowScan(h, r, n - 1) + h(r, n - 1);
      assert a + RowScan(f, r, n) == a' + f(r, n - 1);
      assert b + RowScan(h, r, n) == b' + h(r, n - 1);
      LastCode(a', f(r, n - 1), b', h(r, n - 1));
      RowScanSplit(f, h, r, n - 1, a, b);
    } else {
      assert a + RowScan(f, r, n) == a && b + RowScan(h, r, n) == b;
    }
  }

  /** Board scans of square keys, after any prefixes, agree only when prefixes and keys agree. */
  lemma {:induction false} BoardScanSplit(f: (int, int) -> seq<char>, h: (int, int) -> seq<char>, n: int, w: int,
                                          a: seq<char>, b: seq<char>)
    requires forall r, c :: 0 <= r < n && 0 <= c < w ==> CellCode(f(r, c)) && CellCode(h(r, c))
    requires a + BoardScan(f, n, w) == b + BoardScan(h, n, w)
    ensures a == b && forall r, c :: 0 <= r < n && 0 <= c < w ==> f(r, c) == h(r, c)
    decreases n
  {
    if n > 0 {
      var a', b' := a + BoardScan(f, n - 1, w), b + BoardScan(h, n - 1, w);
      assert BoardScan(f, n, w) == BoardScan(f, n - 1, w) + RowScan(f, n - 1, w);
      assert BoardScan(h, n, w) == BoardScan(h, n - 1, w) + RowScan(h, n - 1, w);
      assert a + BoardScan(f, n, w) == a' + RowScan(f, n - 1, w);
      assert b + BoardScan(h, n, w) == b' + RowScan(h, n - 1, w);
      RowScanSplit(f, h, n - 1, w, a', b');
      BoardScanSplit(f, h, n - 1, w, a, b);
    } else {
      assert a + BoardScan(f, n, w) == a && b + BoardScan(h, n, w) == b;
    }
  }

  /** Scans of the square keys of two boards agree only when the keys of every scanned square agree. */
  lemma KeyScanInjective(n: Initials, g: Grid, h: Grid, rows: int, w: int)
    requires rows <= Width() && w <= Width()
    requires BoardScan(CellKeyAt(n, g), rows, w) == BoardScan(CellKeyAt(n, h), rows, w)
    ensures forall r, c :: 0 <= r < rows && 0 <= c < w ==> CellKey(n, g, r, c) == CellKey(n, h, r, c)
  {
    CellCodes(n, g, h);
    assert [] + BoardScan(CellKeyAt(n, g), rows, w) == [] + BoardScan(CellKeyAt(n, h), rows, w);
    BoardScanSplit(CellKeyAt(n, g), CellKeyAt(n, h), rows, w, [], []);
    forall r, c | 0 <= r < rows && 0 <= c < w
      ensures CellKey(n, g, r, c) == CellKey(n, h, r, c)
    {
      assert CellKeyAt(n, g)(r, c) == CellKeyAt(n, h)(r, c);
    }
  }

  /** The position key determines the key of every square. */
  lemma SameKeySameCells(n: Initials, g: Grid, h: Grid)
    requires PositionKey(n, g) == PositionKey(n, h)
    ensures forall r, c :: 0 <= r < 8 && 0 <= c < 8 ==> CellKey(n, g, r, c) == CellKey(n, h, r, c)
  {
    KeyScanInjective(n, g, h, Width(), Width());
  }

  /** Every square's key, on either of two boards, has the shape `CellCode`. */
  lemma CellCodes(n: Initials, g: Grid, h: Grid)
    ensures forall r, c :: 0 <= r < Width() && 0 <= c < Width() ==>
      CellCode(CellKeyAt(n, g)(r, c)) && CellCode(CellKeyAt(n, h)(r, c))
  {
    forall r, c | 0 <= r < Width() && 0 <= c < Width()
      ensures CellCode(CellKeyAt(n, g)(r, c)) && CellCode(CellKeyAt(n, h)(r, c))
    {
      assert Digit(c) != '.';
    }
  }

  /** Every unmoved king stands on column 4, where castling moves start, as in every game from the starting layout. */
  ghost predicate KingsAtHome(g: Grid)
  {
    forall sq :: sq in g && g[sq].kind == King && !g[sq].hasMoved ==> sq.1 == 4
  }

  /**
   * A legal move empties its `from` square, so the position after it has a
   * different key from the position before it.
   */
  lemma MoveChangesKey(n: Initials, s: Pos, m: MoveVal)
    requires WellPlaced(s.grid) && KingsAtHome(s.grid) && m in LegalMoves(s.grid, s.player)
    ensures PositionKey(n, Child(s, m).grid) != PositionKey(n, s.grid)
  {
    LegalMoveVacatesSource(s, m);
    EmptiedSquareChangesKey(n, s.grid, Child(s, m).grid, m.from.0, m.from.1);
  }

  /** A legal move leaves its occupied starting square empty. */
  lemma LegalMoveVacatesSource(s: Pos, m: MoveVal)
    requires WellPlaced(s.grid) && KingsAtHome(s.grid) && m in LegalMoves(s.grid, s.player)
    ensures 0 <= m.from.0 < 8 && 0 <= m.from.1 < 8
    ensures At(s.grid, m.from.0, m.from.1).Some? && At(Child(s, m).grid, m.from.0, m.from.1).None?
  {
    var g := s.grid;
    LegalMovesRegular(g, s.player);
    var r, c := LegalMoveSource(g, s.player, m);
    var p := At(g, r, c).value;
    GeneratedMovesSound(g, p, false);
    if m.castling {
      assert (r, c) in g && g[(r, c)] == p;
      assert m.from == (r, 4) && c == 4;
    }
    assert Proceeds(g, m);
    MakeGridWellPlaced(g, m);
    assert m.from !in MakeGrid(g, m);
    PlayGrid(s, m);
  }

  /** Two boards that differ in whether one square is empty have different keys. */
  lemma EmptiedSquareChangesKey(n: Initials, g: Grid, h: Grid, r: int, c: int)
    requires 0 <= r < 8 && 0 <= c < 8 && At(g, r, c).Some? && At(h, r, c).None?
    ensures PositionKey(n, h) != PositionKey(n, g)
  {
    EmptiedSquareChangesScan(n, g, h, Width(), Width(), r, c);
  }

  /** `EmptiedSquareChangesKey` over the first `rows` rows and `w` columns. */
  lemma EmptiedSquareChangesScan(n: Initials, g: Grid, h: Grid, rows: int, w: int, r: int, c: int)
    requires rows <= Width() && w <= Width() && 0 <= r < rows && 0 <= c < w
    requires At(g, r, c).Some? && At(h, r, c).None?
    ensures BoardScan(CellKeyAt(n, h), rows, w) != BoardScan(CellKeyAt(n, g), rows, w)
  {
    assert CellKey(n, h, r, c) != CellKey(n, g, r, c);
    if BoardScan(CellKeyAt(n, h), rows, w) == BoardScan(CellKeyAt(n, g), rows, w) {
      KeyScanInjective(n, h, g, rows, w);
    }
  }

  /**
   * `findBestMove` with the table it builds: no legal move leads back to
   * the counted position, so the choice is the first ordered legal move
   * whose reply has the greatest plain minimax value at the search depth,
   * and no move exactly when every reply is `-Infinity`.
   */
  lemma FoundMoveIsBest(w: Weights, n: Initials, s: Pos, depth: nat, count: int)
    requires WellPlaced(s.grid) && KingsAtHome(s.grid) && depth > 0
    ensures var kids, table := RootTrees(w, s, depth), HistoryTable(PositionKey(n, s.grid), count);
      var i, best := BestIndex(w, n, s, depth, table), BestMove(w, n, s, depth, table);
      (best.None? <==> forall j :: 0 <= j < |kids| ==> MinimaxValue(kids[j]) == NegInf) &&
      (best.Some? ==>
         0 <= i < |kids| && best.value == Ordered(w, s)[i] &&
         (forall j :: 0 <= j < |kids| ==> Le(MinimaxValue(kids[j]), MinimaxValue(kids[i]))) &&
         (forall j :: 0 <= j < i ==> Lt(MinimaxValue(kids[j]), MinimaxValue(kids[i]))))
  {
    var table := HistoryTable(PositionKey(n, s.grid), count);
    NoChildCounted(n, s, count);
    BestMoveIsBest(w, n, s, depth, table);
  }

  /** The table `findBestMove` builds holds no position a legal move leads to. */
  lemma NoChildCounted(n: Initials, s: Pos, count: int)
    requires WellPlaced(s.grid) && KingsAtHome(s.grid)
    ensures forall m :: m in LegalMoves(s.grid, s.player) ==>
      PositionKey(n, Child(s, m).grid) !in HistoryTable(PositionKey(n, s.grid), count)
  {
    forall m | m in LegalMoves(s.grid, s.player)
      ensures PositionKey(n, Child(s, m).grid) !in HistoryTable(PositionKey(n, s.grid), count)
    {
      MoveChangesKey(n, s, m);
    }
  }

  // ----- the no-moves branch -----

  /**
   * After a move that goes ahead, a side left without legal moves is in a
   * finished game, so `minimax` stops at its game-over test first.
   */
  lemma NoMovesAfterMoveIsOver(s: Pos, m: MoveVal)
    requires Regular(s.grid, m) && Proceeds(s.grid, m)
    ensures LegalMoves(Play(s, m).grid, Play(s, m).player) == [] ==> Play(s, m).over
  {
  }
}
