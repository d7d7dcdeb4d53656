/**
 * What the search of js/ai/MinimaxAI.js computes, on position values: the
 * position key, the repetition table, the fail-soft alpha-beta `minimax`
 * with its two loops, the plain minimax value it approximates, and the root
 * loop of `findBestMove`.
 *
 * Search values are board scores or the two infinities `minimax` returns
 * for a mated side; the wall clock is left out, so every search runs to its
 * depth.
 */
module SearchSpec {
  import opened Types
  import opened Grids
  import opened RulesSpec
  import opened Scans
  import opened GameSpec
  import opened GameFacts
  import opened EvalSpec
  import opened EvalFacts

  // ----- search values -----

  /** `-Infinity`, a finite score, or `Infinity`. */
  datatype Score = NegInf | Fin(n: int) | PosInf

  /** The order of the extended integers. */
  predicate Le(a: Score, b: Score)
  {
    a.NegInf? || b.PosInf? || (a.Fin? && b.Fin? && a.n <= b.n)
  }

  predicate Lt(a: Score, b: Score)
  {
    !Le(b, a)
  }

  /** `Math.max`. */
  function Max(a: Score, b: Score): (m: Score)
    ensures Le(a, m) && Le(b, m) && (m == a || m == b)
  {
    if Le(a, b) then b else a
  }

  /** `Math.min`. */
  function Min(a: Score, b: Score): (m: Score)
    ensures Le(m, a) && Le(m, b) && (m == a || m == b)
  {
    if Le(a, b) then a else b
  }

  /** `value -= penalty`: a finite score goes down, an infinity stays. */
  function Minus(a: Score, penalty: int): (r: Score)
    ensures r.Fin? <==> a.Fin?
    ensures a.Fin? ==> r.n == a.n - penalty
  {
    if a.Fin? then Fin(a.n - penalty) else a
  }

  // ----- getPositionKey and buildPositionHistory -----

  /** The decimal digit of a row or column index. */
  function Digit(d: int): char
    requires 0 <= d < 10
  {
    (48 + d) as char
  }

  /**
   * The part of the key for square (r, c): "." when empty, otherwise the
   * type's initial, the side's initial, the row digit and the column digit.
   */
  function CellKey(n: Initials, g: Grid, r: int, c: int): (k: seq<char>)
    requires 0 <= r < 8 && 0 <= c < 8
    ensures At(g, r, c).None? <==> k == "."
    ensures At(g, r, c).Some? ==>
              |k| == 4 && k[0] == n.OfType(At(g, r, c).value.kind) &&
              k[1] == n.OfColor(At(g, r, c).value.color) && k[2] == Digit(r) && k[3] == Digit(c)
  {
    match At(g, r, c)
    case None => "."
    case Some(p) => [n.OfType(p.kind), n.OfColor(p.color), Digit(r), Digit(c)]
  }

  /** `CellKey` as a function of the square (empty off the board). */
  function CellKeyAt(n: Initials, g: Grid): (int, int) -> seq<char>
  {
    (r, c) => if 0 <= r < 8 && 0 <= c < 8 then CellKey(n, g, r, c) else []
  }

  /** `getPositionKey`: the cell keys in row-major order. */
  function PositionKey(n: Initials, g: Grid): string
  {
    BoardScan(CellKeyAt(n, g), Width(), Width())
  }

  /**
   * The table `buildPositionHistory` leaves: the clone it undoes on has an
   * empty history, so every undo does nothing and the one key of the
   * current position is counted once per iteration.
   */
  function HistoryTable(key: string, count: int): (t: map<string, int>)
    ensures count > 0 ==> t.Keys == {key} && t[key] == count
    ensures count <= 0 ==> t == map[]
  {
    if count <= 0 then map[] else map[key := count]
  }

  // ----- the game tree -----

  /**
   * What `minimax` sees below a position: a leaf holds the value returned
   * there without searching further, a node the subtrees of the ordered
   * legal moves and whether its side maximizes.
   */
  datatype Tree = Leaf(value: Score) | Node(isMax: bool, kids: seq<Tree>)

  /** The position after a legal move of the side to move. */
  function Child(s: Pos, m: MoveVal): (c: Pos)
    requires WellPlaced(s.grid) && m in LegalMoves(s.grid, s.player)
    ensures WellPlaced(c.grid)
  {
    LegalMovesRegular(s.grid, s.player);
    PlayWellPlaced(s, m);
    Play(s, m)
  }

  /** The legal moves of the side to move, in the order `orderMoves` gives them. */
  function Ordered(w: Weights, s: Pos): (ms: seq<MoveVal>)
    ensures forall m :: m in ms <==> m in LegalMoves(s.grid, s.player)
    ensures |ms| == |LegalMoves(s.grid, s.player)|
  {
    var legal := LegalMoves(s.grid, s.player);
    SortDescPermutes(legal, ScoreKey(w, s.grid));
    assert forall m :: m in OrderMoves(w, s.grid, legal) <==> m in multiset(OrderMoves(w, s.grid, legal));
    OrderMoves(w, s.grid, legal)
  }

  /** What `minimax` returns when the side to move has no legal move. */
  function NoMoves(s: Pos, isMax: bool): Score
  {
    if KingInCheck(s.grid, s.player) then (if isMax then NegInf else PosInf) else Fin(0)
  }

  /**
   * The tree `minimax(state, depth, ..., isMaximizing, aiColor)` explores,
   * without the clock: `evaluateBoard` for the AI's side at depth 0 or when
   * the game is over, the no-moves value, or a node over the ordered moves.
   */
  function GameTree(w: Weights, s: Pos, depth: nat, isMax: bool, ai: Color): Tree
    requires WellPlaced(s.grid)
    decreases depth, 1, 0
  {
    if depth == 0 || s.over then Leaf(Fin(EvalSpec.EvaluateBoard(w, s.grid, ai)))
    else if LegalMoves(s.grid, s.player) == [] then Leaf(NoMoves(s, isMax))
    else Node(isMax, Subtrees(w, s, Ordered(w, s), depth, isMax, ai))
  }

  /**
   * The depth one ply below `depth`. Naming it keeps the depths of a node
   * and of its subtrees syntactically related in proofs.
   */
  function Below(depth: nat): (d: nat)
    requires depth > 0
    ensures d < depth
  {
    depth - 1
  }

  /** The trees of the positions after each move, one ply shallower, the other side searching. */
  function Subtrees(w: Weights, s: Pos, ms: seq<MoveVal>, depth: nat, isMax: bool, ai: Color): (ts: seq<Tree>)
    requires WellPlaced(s.grid) && depth > 0
    requires forall m :: m in ms ==> m in LegalMoves(s.grid, s.player)
    ensures |ts| == |ms|
    decreases depth, 0
  {
    seq(|ms|, j requires 0 <= j < |ms| => GameTree(w, Child(s, ms[j]), Below(depth), !isMax, ai))
  }

  // ----- alpha-beta and plain minimax on trees -----

  /** The loops of `minimax` on a tree: a leaf's value, or the loop of the node's side. */
  function AlphaBeta(t: Tree, alpha: Score, beta: Score): Score
    decreases t, 1
  {
    match t
    case Leaf(v) => v
    case Node(isMax, _) => if isMax then MaxLoop(t, 0, NegInf, alpha, beta) else MinLoop(t, 0, PosInf, alpha, beta)
  }

  /**
   * The maximizing loop from subtree `k` on, with `maxValue` = `best`: each
   * reply raises `maxValue` and `alpha`, and the loop stops once
   * `beta <= alpha`.
   */
  function MaxLoop(t: Tree, k: nat, best: Score, alpha: Score, beta: Score): Score
    requires t.Node? && k <= |t.kids|
    decreases t, 0, |t.kids| - k
  {
    if k == |t.kids| then best
    else
      var value := AlphaBeta(t.kids[k], alpha, beta);
      var best' := Max(best, value);
      var alpha' := Max(alpha, value);
      if Le(beta, alpha') then best' else MaxLoop(t, k + 1, best', alpha', beta)
  }

  /**
   * The minimizing loop from subtree `k` on, with `minValue` = `best`: each
   * reply lowers `minValue` and `beta`, and the loop stops once
   * `beta <= alpha`.
   */
  function MinLoop(t: Tree, k: nat, best: Score, alpha: Score, beta: Score): Score
    requires t.Node? && k <= |t.kids|
    decreases t, 0, |t.kids| - k
  {
    if k == |t.kids| then best
    else
      var value := AlphaBeta(t.kids[k], alpha, beta);
      var best' := Min(best, value);
      var beta' := Min(beta, value);
      if Le(beta', alpha) then best' else MinLoop(t, k + 1, best', alpha, beta')
  }

  /** The plain minimax value of a tree: every subtree searched, no bounds. */
  function MinimaxValue(t: Tree): Score
    decreases t, 1
  {
    match t
    case Leaf(v) => v
    case Node(isMax, _) => if isMax then MaxAll(t, 0) else MinAll(t, 0)
  }

  /** The greatest value of the subtrees from `k` on (`-Infinity` when there are none). */
  function MaxAll(t: Tree, k: nat): Score
    requires t.Node? && k <= |t.kids|
    decreases t, 0, |t.kids| - k
  {
    if k == |t.kids| then NegInf else Max(MinimaxValue(t.kids[k]), MaxAll(t, k + 1))
  }

  /** The least value of the subtrees from `k` on (`Infinity` when there are none). */
  function MinAll(t: Tree, k: nat): Score
    requires t.Node? && k <= |t.kids|
    decreases t, 0, |t.kids| - k
  {
    if k == |t.kids| then PosInf else Min(MinimaxValue(t.kids[k]), MinAll(t, k + 1))
  }

  /** `minimax` on a position, without the clock. */
  function Search(w: Weights, s: Pos, depth: nat, alpha: Score, beta: Score, isMax: bool, ai: Color): Score
    requires WellPlaced(s.grid)
  {
    AlphaBeta(GameTree(w, s, depth, isMax, ai), alpha, beta)
  }

  /** The plain minimax value of a position. */
  function Value(w: Weights, s: Pos, depth: nat, isMax: bool, ai: Color): Score
    requires WellPlaced(s.grid)
  {
    MinimaxValue(GameTree(w, s, depth, isMax, ai))
  }

  /**
   * The fail-soft window property: inside (alpha, beta) the result is the
   * value; at or below alpha it lies between the value and alpha; at or
   * above beta it lies between beta and the value.
   */
  predicate Bounded(r: Score, v: Score, alpha: Score, beta: Score)
  {
    (Lt(alpha, v) && Lt(v, beta) ==> r == v) &&
    (Le(v, alpha) ==> Le(v, r) && Le(r, alpha)) &&
    (Le(beta, v) ==> Le(beta, r) && Le(r, v))
  }

  // ----- findBestMove -----

  /** The repetition penalty of a position: fifty per earlier occurrence of its key, 0 when it has none. */
  function PenaltyOf(table: map<string, int>, key: string): (p: int)
    ensures key !in table ==> p == 0
  {
    if key in table && table[key] != 0 then table[key] * 50 else 0
  }

  /** The penalties of the positions after each move. */
  function Penalties(n: Initials, s: Pos, ms: seq<MoveVal>, table: map<string, int>): (ps: seq<int>)
    requires WellPlaced(s.grid)
    requires forall m :: m in ms ==> m in LegalMoves(s.grid, s.player)
    ensures |ps| == |ms|
  {
    seq(|ms|, j requires 0 <= j < |ms| => PenaltyOf(table, PositionKey(n, Child(s, ms[j]).grid)))
  }

  /**
   * The root loop of `findBestMove` from subtree `k` on, returning the index
   * of the move it keeps (-1 for none): each reply is searched with the
   * current alpha and an infinite beta and its penalty subtracted, a value
   * strictly above the best so far replaces it, and alpha rises to the value.
   */
  function RootLoop(kids: seq<Tree>, pens: seq<int>, k: nat, alpha: Score, bestValue: Score, index: int): (i: int)
    requires |pens| == |kids| && k <= |kids| && -1 <= index < k
    ensures i == index || k <= i < |kids|
    decreases |kids| - k
  {
    if k == |kids| then index
    else
      var value := Minus(AlphaBeta(kids[k], alpha, PosInf), pens[k]);
      if Lt(bestValue, value) then RootLoop(kids, pens, k + 1, Max(alpha, value), value, k)
      else RootLoop(kids, pens, k + 1, Max(alpha, value), bestValue, index)
  }

  /** The search depth of `findBestMove`: two more plies when the side to move is in check. */
  function SearchDepth(s: Pos, depth: nat): (d: nat)
    ensures d >= depth
  {
    if KingInCheck(s.grid, s.player) then depth + 2 else depth
  }

  /** The trees of the replies `findBestMove` searches, one per ordered legal move. */
  function RootTrees(w: Weights, s: Pos, depth: nat): (ts: seq<Tree>)
    requires WellPlaced(s.grid) && depth > 0
    ensures |ts| == |Ordered(w, s)|
  {
    Subtrees(w, s, Ordered(w, s), SearchDepth(s, depth), true, s.player)
  }

  /** The index among the ordered legal moves that the root loop of `findBestMove` keeps, -1 for none. */
  function BestIndex(w: Weights, n: Initials, s: Pos, depth: nat, table: map<string, int>): (i: int)
    requires WellPlaced(s.grid) && depth > 0
    ensures -1 <= i < |Ordered(w, s)|
  {
    RootLoop(RootTrees(w, s, depth), Penalties(n, s, Ordered(w, s), table), 0, NegInf, NegInf, -1)
  }

  /** `findBestMove` on a position, given the repetition table it builds first. */
  function BestMove(w: Weights, n: Initials, s: Pos, depth: nat, table: map<string, int>): (r: Option<MoveVal>)
    requires WellPlaced(s.grid) && depth > 0
    ensures r.Some? ==> r.value in LegalMoves(s.grid, s.player)
    ensures LegalMoves(s.grid, s.player) == [] ==> r.None?
  {
    var i := BestIndex(w, n, s, depth, table);
    if i == -1 then None else Some(Ordered(w, s)[i])
  }

  /**
   * The reference choice: scanning the subtrees from `k` on, keep the first
   * one whose plain minimax value is strictly above the best so far.
   */
  function PlainChoice(kids: seq<Tree>, k: nat, best: Score, index: int): (i: int)
    requires k <= |kids| && -1 <= index < k
    ensures i == index || k <= i < |kids|
    decreases |kids| - k
  {
    if k == |kids| then index
    else if Lt(best, MinimaxValue(kids[k])) then PlainChoice(kids, k + 1, MinimaxValue(kids[k]), k)
    else PlainChoice(kids, k + 1, best, index)
  }
}
