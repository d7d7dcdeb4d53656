/**
 * The position evaluator and the move-ordering key of js/ai/evaluation.js,
 * as functions on board values. The material and mobility loops become sums
 * over the row-major sweep of the board; the king-safety neighbourhood
 * becomes counts over the list of the eight neighbour offsets.
 */
module EvalSpec {
  import opened Types
  import opened Helpers
  import opened RulesSpec
  import opened Scans
  import opened GameSpec

  // ----- evaluatePiece and getCenterBonus -----

  /**
   * `evaluatePiece`: the material value of the type plus, when the type has
   * a position table, the table entry of the square, read from White's side
   * (row mirrored for Black).
   */
  function EvaluatePiece(w: Weights, f: Figure, row: int, col: int): (v: int)
    requires IsValidPosition(row, col)
    ensures f.kind !in w.positionTables ==> v == w.pieceValue(f.kind)
  {
    var positionValue :=
      if f.kind in w.positionTables then
        if f.color == White then w.positionTables[f.kind][row][col] else w.positionTables[f.kind][7 - row][col]
      else 0;
    w.pieceValue(f.kind) + positionValue
  }

  /**
   * `getCenterBonus`: twice (7 minus the Manhattan distance to the centre
   * point (3.5, 3.5)), written on doubled coordinates so that it stays an
   * integer.
   */
  function CenterBonus(row: int, col: int): (b: int)
  {
    14 - Magnitude(2 * row - 7) - Magnitude(2 * col - 7)
  }

  /** `Math.abs` on integers. */
  function Magnitude(x: int): (a: int)
    ensures a >= 0 && (a == x || a == -x)
  {
    if x < 0 then -x else x
  }

  // ----- evaluateBoard: material -----

  /** What the piece on (r, c) adds to the material score of `color`. */
  function SquareMaterial(w: Weights, g: Grid, color: Color, r: int, c: int): int
  {
    var o := At(g, r, c);
    if o.None? || !IsValidPosition(r, c) then 0
    else if o.value.color == color then EvaluatePiece(w, FigureOf(o.value), r, c)
    else -EvaluatePiece(w, FigureOf(o.value), r, c)
  }

  /** `SquareMaterial` as a function of the square. */
  function MaterialAt(w: Weights, g: Grid, color: Color): (int, int) -> int
  {
    (r, c) => SquareMaterial(w, g, color, r, c)
  }

  /** The material loop of `evaluateBoard`: own pieces count up, the others down. */
  function Material(w: Weights, g: Grid, color: Color): int
  {
    BoardSum(MaterialAt(w, g, color), Width())
  }

  // ----- evaluateKingSafety -----

  /** The eight neighbour offsets, in the order `evaluateKingSafety` visits them. */
  function KingNeighbors(): (ds: seq<(int, int)>)
    ensures |ds| == 8
  {
    [(-1, -1), (-1, 0), (-1, 1), (0, -1), (0, 1), (1, -1), (1, 0), (1, 1)]
  }

  /** How many of the squares `k + d`, `d` in `ds`, are on the board and attacked by `enemy`. */
  function AttackedAround(g: Grid, k: Square, enemy: Color, ds: seq<(int, int)>): (n: int)
    ensures 0 <= n <= |ds|
  {
    if ds == [] then 0
    else
      var d := ds[|ds| - 1];
      var r := k.0 + d.0;
      var c := k.1 + d.1;
      AttackedAround(g, k, enemy, ds[..|ds| - 1]) + if IsValidPosition(r, c) && SquareAttacked(g, r, c, enemy) then 1 else 0
  }

  /** How many of the squares `k + d`, `d` in `ds`, are on the board and hold a piece of `color`. */
  function DefendersAround(g: Grid, k: Square, color: Color, ds: seq<(int, int)>): (n: int)
    ensures 0 <= n <= |ds|
  {
    if ds == [] then 0
    else
      var d := ds[|ds| - 1];
      var r := k.0 + d.0;
      var c := k.1 + d.1;
      DefendersAround(g, k, color, ds[..|ds| - 1]) +
        if IsValidPosition(r, c) && At(g, r, c).Some? && At(g, r, c).value.color == color then 1 else 0
  }

  /** The bonus for a king on a castled square: row 0 or 7 and column 2 or 6. */
  function CastledBonus(k: Square): (b: int)
    ensures b == 30 <==> (k.1 == 2 || k.1 == 6) && (k.0 == 0 || k.0 == 7)
    ensures b == 0 || b == 30
  {
    if (k.1 == 2 || k.1 == 6) && (k.0 == 0 || k.0 == 7) then 30 else 0
  }

  /**
   * `evaluateKingSafety`: -10000 without a king; otherwise -100 when in
   * check, -15 per attacked neighbour square, +5 per own piece next to the
   * king, and the castled bonus.
   */
  function KingSafety(g: Grid, color: Color): (s: int)
    ensures FindKing(g, color).None? <==> s == -10000
    ensures FindKing(g, color).Some? ==> -220 <= s <= 70
  {
    match FindKing(g, color)
    case None => -10000
    case Some(k) =>
      (if KingInCheck(g, color) then -100 else 0)
      - 15 * AttackedAround(g, k, Opponent(color), KingNeighbors())
      + 5 * DefendersAround(g, k, color, KingNeighbors())
      + CastledBonus(k)
  }

  // ----- evaluateMobility -----

  /** The number of attack-only moves of the piece on (r, c) when it belongs to `color`. */
  function SquareMobility(g: Grid, color: Color, r: int, c: int): int
  {
    var o := At(g, r, c);
    if o.Some? && o.value.color == color then |PieceMoves(g, o.value, true)| else 0
  }

  /** `SquareMobility` as a function of the square. */
  function MobilityAt(g: Grid, color: Color): (int, int) -> int
  {
    (r, c) => SquareMobility(g, color, r, c)
  }

  /** The attack-only moves of all pieces of `color`, counted square by square. */
  function MoveCount(g: Grid, color: Color): int
  {
    BoardSum(MobilityAt(g, color), Width())
  }

  /**
   * What the piece on (r, c) adds to the mobility difference of `color`:
   * its attack-only move count, counted up for `color` and down otherwise.
   */
  function SquareMobilityDiff(g: Grid, color: Color, r: int, c: int): int
  {
    var o := At(g, r, c);
    if o.None? then 0
    else if o.value.color == color then |PieceMoves(g, o.value, true)|
    else -|PieceMoves(g, o.value, true)|
  }

  /** `SquareMobilityDiff` as a function of the square. */
  function MobilityDiffAt(g: Grid, color: Color): (int, int) -> int
  {
    (r, c) => SquareMobilityDiff(g, color, r, c)
  }

  /**
   * `evaluateMobility`: the two counters of its loop, own moves up and the
   * opponent's down, summed in one sweep.
   */
  function Mobility(g: Grid, color: Color): int
  {
    BoardSum(MobilityDiffAt(g, color), Width())
  }

  // ----- evaluateBoard -----

  /** `evaluateBoard`: material, fifty times the king-safety difference, ten times mobility. */
  function EvaluateBoard(w: Weights, g: Grid, color: Color): int
  {
    Material(w, g, color) + KingSafety(g, color) * 50 - KingSafety(g, Opponent(color)) * 50 + Mobility(g, color) * 10
  }

  // ----- orderMoves -----

  /**
   * `givesCheck`: on a copy of the board the piece on `from` goes to `to`;
   * the answer is whether the other side's king is then attacked, and false
   * when `from` is empty.
   */
  predicate GivesCheck(g: Grid, m: MoveVal)
  {
    m.from in g && KingInCheck(Simulate(g, m.from, m.to), Opponent(g[m.from].color))
  }

  /**
   * The score `orderMoves` gives a move: most valuable victim times ten
   * minus the mover's value for a capture, 50 for a check, the centre bonus
   * of the target, and 800 for a promotion.
   */
  function MoveScore(w: Weights, g: Grid, m: MoveVal): int
  {
    (if m.captured.Some? then w.pieceValue(m.captured.value.kind) * 10 - w.pieceValue(m.mover.kind) else 0)
    + (if GivesCheck(g, m) then 50 else 0)
    + CenterBonus(m.to.0, m.to.1)
    + (if m.promotion.Some? then 800 else 0)
  }

  /**
   * `x` placed into `xs` after every leading element whose key is at least
   * its own: one step of a stable sort by non-increasing key.
   */
  function Insert<T>(xs: seq<T>, x: T, key: T -> int): seq<T>
  {
    if xs == [] then [x]
    else if key(xs[0]) < key(x) then [x] + xs
    else [xs[0]] + Insert(xs[1..], x, key)
  }

  /**
   * The stable sort by non-increasing key: what `Array.prototype.sort` with
   * the comparator `scoreB - scoreA` produces, since that sort is stable and
   * the comparator is a function of the two moves.
   */
  function SortDesc<T>(xs: seq<T>, key: T -> int): seq<T>
  {
    if xs == [] then [] else Insert(SortDesc(xs[..|xs| - 1], key), xs[|xs| - 1], key)
  }

  /** The keys of `xs` never increase. */
  ghost predicate NonIncreasing<T>(xs: seq<T>, key: T -> int)
  {
    forall i, j :: 0 <= i < j < |xs| ==> key(xs[i]) >= key(xs[j])
  }

  /** The elements of `xs` whose key is `v`, in order. */
  function WithKey<T>(xs: seq<T>, key: T -> int, v: int): seq<T>
  {
    if xs == [] then []
    else (if key(xs[0]) == v then [xs[0]] else []) + WithKey(xs[1..], key, v)
  }

  /** The score of `orderMoves` on board `g`, as a function of the move. */
  function ScoreKey(w: Weights, g: Grid): MoveVal -> int
  {
    m => MoveScore(w, g, m)
  }

  /** `orderMoves` on the value view of the board. */
  function OrderMoves(w: Weights, g: Grid, ms: seq<MoveVal>): seq<MoveVal>
  {
    SortDesc(ms, ScoreKey(w, g))
  }
}
