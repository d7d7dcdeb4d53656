/**
 * Properties of the evaluator and of the move ordering of
 * js/ai/evaluation.js: the score is zero-sum between the two sides, a
 * black piece scores as the mirrored white piece, the centre bonus ranges
 * from 0 in the corners to 12 in the centre, mobility never counts castling,
 * and the ordering is a stable permutation sorted by non-increasing score.
 */
module EvalFacts {
  import opened Types
  import opened Helpers
  import opened RulesSpec
  import opened RuleFacts
  import opened Scans
  import opened EvalSpec

  /** The evaluation for White is the negated evaluation for Black. */
  lemma EvaluateBoardZeroSum(w: Weights, g: Grid)
    ensures EvaluateBoard(w, g, White) == -EvaluateBoard(w, g, Black)
  {
    MaterialZeroSum(w, g);
    MobilityZeroSum(g);
  }

  /** What White's material gains, Black's loses. */
  lemma MaterialZeroSum(w: Weights, g: Grid)
    ensures Material(w, g, White) == -Material(w, g, Black)
  {
    BoardSumNegate(MaterialAt(w, g, White), MaterialAt(w, g, Black), Width());
  }

  /** What White's mobility gains, Black's loses. */
  lemma MobilityZeroSum(g: Grid)
    ensures Mobility(g, White) == -Mobility(g, Black)
  {
    BoardSumNegate(MobilityDiffAt(g, White), MobilityDiffAt(g, Black), Width());
  }

  /** The mobility of `color` is its own move count minus the opponent's. */
  lemma MobilityIsDifference(g: Grid, color: Color)
    ensures Mobility(g, color) == MoveCount(g, color) - MoveCount(g, Opponent(color))
  {
    BoardSumSub(MobilityDiffAt(g, color), MobilityAt(g, color), MobilityAt(g, Opponent(color)), Width());
  }

  /** A black piece on (r, c) scores as a white piece of the same type on (7 - r, c). */
  lemma EvaluatePieceMirror(w: Weights, kind: PieceType, r: int, c: int)
    requires IsValidPosition(r, c)
    ensures EvaluatePiece(w, Figure(kind, Black), r, c) == EvaluatePiece(w, Figure(kind, White), 7 - r, c)
  {
  }

  /**
   * On the board the centre bonus lies in [0, 12]; it is 12 exactly on the
   * four centre squares and 0 exactly in the four corners.
   */
  lemma CenterBonusRange(row: int, col: int)
    requires IsValidPosition(row, col)
    ensures 0 <= CenterBonus(row, col) <= 12
    ensures CenterBonus(row, col) == 12 <==> (row == 3 || row == 4) && (col == 3 || col == 4)
    ensures CenterBonus(row, col) == 0 <==> (row == 0 || row == 7) && (col == 0 || col == 7)
  {
  }

  /** A promotion adds exactly 800 to the ordering score of the same move without one. */
  lemma MoveScorePromotion(w: Weights, g: Grid, m: MoveVal)
    requires m.promotion.Some?
    ensures MoveScore(w, g, m) == MoveScore(w, g, m.(promotion := None)) + 800
  {
  }

  /**
   * A move onto the board that captures nothing scores between 0 and 862,
   * and at least 800 exactly when it promotes.
   */
  lemma QuietMoveScoreRange(w: Weights, g: Grid, m: MoveVal)
    requires IsValidPosition(m.to.0, m.to.1) && m.captured.None?
    ensures 0 <= MoveScore(w, g, m) <= 862
    ensures MoveScore(w, g, m) >= 800 <==> m.promotion.Some?
  {
    CenterBonusRange(m.to.0, m.to.1);
  }

  /**
   * A piece's mobility is its full move list without the castling moves:
   * castling never counts.
   */
  lemma MobilityOmitsCastling(g: Grid, color: Color, r: int, c: int)
    requires At(g, r, c).Some? && At(g, r, c).value.color == color
    ensures var p := At(g, r, c).value;
      SquareMobility(g, color, r, c) == |PieceMoves(g, p, false)| - (if p.kind == King then |Castles(g, p)| else 0)
    ensures forall m :: m in PieceMoves(g, At(g, r, c).value, true) ==> !m.castling
  {
    AttackMovesOmitCastling(g, At(g, r, c).value);
  }

  // ----- the ordering -----

  lemma {:induction false} InsertKeeps<T>(xs: seq<T>, x: T, key: T -> int)
    ensures multiset(Insert(xs, x, key)) == multiset(xs) + multiset{x}
  {
    if xs != [] && key(xs[0]) >= key(x) {
      InsertKeeps(xs[1..], x, key);
      assert xs == [xs[0]] + xs[1..];
    }
  }

  lemma {:induction false} InsertSorted<T>(xs: seq<T>, x: T, key: T -> int)
    requires NonIncreasing(xs, key)
    ensures NonIncreasing(Insert(xs, x, key), key)
  {
    if xs != [] && key(xs[0]) >= key(x) {
      var rest := Insert(xs[1..], x, key);
      InsertSorted(xs[1..], x, key);
      InsertKeeps(xs[1..], x, key);
      forall j | 0 <= j < |rest|
        ensures key(xs[0]) >= key(rest[j])
      {
        assert rest[j] in multiset(xs[1..]) + multiset{x};
      }
    }
  }

  /** The ordering is a permutation of its input. */
  lemma {:induction false} SortDescPermutes<T>(xs: seq<T>, key: T -> int)
    ensures multiset(SortDesc(xs, key)) == multiset(xs)
  {
    if xs != [] {
      var init := xs[..|xs| - 1];
      SortDescPermutes(init, key);
      InsertKeeps(SortDesc(init, key), xs[|xs| - 1], key);
      assert xs == init + [xs[|xs| - 1]];
    }
  }

  /** The ordering lists the scores in non-increasing order. */
  lemma {:induction false} SortDescSorted<T>(xs: seq<T>, key: T -> int)
    ensures NonIncreasing(SortDesc(xs, key), key)
  {
    if xs != [] {
      SortDescSorted(xs[..|xs| - 1], key);
      InsertSorted(SortDesc(xs[..|xs| - 1], key), xs[|xs| - 1], key);
    }
  }

  lemma {:induction false} WithKeyAppend<T>(xs: seq<T>, ys: seq<T>, key: T -> int, v: int)
    ensures WithKey(xs + ys, key, v) == WithKey(xs, key, v) + WithKey(ys, key, v)
  {
    if xs != [] {
      var head := if key(xs[0]) == v then [xs[0]] else [];
      assert (xs + ys)[0] == xs[0] && (xs + ys)[1..] == xs[1..] + ys;
      WithKeyAppend(xs[1..], ys, key, v);
      calc {
        WithKey(xs + ys, key, v);
        head + WithKey(xs[1..] + ys, key, v);
        head + (WithKey(xs[1..], key, v) + WithKey(ys, key, v));
        (head + WithKey(xs[1..], key, v)) + WithKey(ys, key, v);
      }
    } else {
      assert xs + ys == ys;
    }
  }

  lemma {:induction false} WithKeyNone<T>(xs: seq<T>, key: T -> int, v: int)
    requires forall i :: 0 <= i < |xs| ==> key(xs[i]) != v
    ensures WithKey(xs, key, v) == []
  {
    if xs != [] {
      assert key(xs[0]) != v;
      WithKeyNone(xs[1..], key, v);
    }
  }

  lemma {:induction false} InsertStable<T>(xs: seq<T>, x: T, key: T -> int, v: int)
    requires NonIncreasing(xs, key)
    ensures WithKey(Insert(xs, x, key), key, v) == WithKey(xs, key, v) + if key(x) == v then [x] else []
  {
    var tail := if key(x) == v then [x] else [];
    if xs == [] {
    } else if key(xs[0]) < key(x) {
      var ys := [x] + xs;
      assert ys[0] == x && ys[1..] == xs;
      assert WithKey(ys, key, v) == tail + WithKey(xs, key, v);
      if key(x) == v {
        forall i | 0 <= i < |xs|
          ensures key(xs[i]) != v
        {
          assert key(xs[0]) >= key(xs[i]);
        }
        WithKeyNone(xs, key, v);
      }
    } else {
      var rest := Insert(xs[1..], x, key);
      var ys := [xs[0]] + rest;
      var head := if key(xs[0]) == v then [xs[0]] else [];
      assert ys[0] == xs[0] && ys[1..] == rest;
      assert NonIncreasing(xs[1..], key) by {
        forall i, j | 0 <= i < j < |xs| - 1
          ensures key(xs[1..][i]) >= key(xs[1..][j])
        {
          assert key(xs[i + 1]) >= key(xs[j + 1]);
        }
      }
      InsertStable(xs[1..], x, key, v);
      calc {
        WithKey(ys, key, v);
        head + WithKey(rest, key, v);
        head + (WithKey(xs[1..], key, v) + tail);
        (head + WithKey(xs[1..], key, v)) + tail;
        WithKey(xs, key, v) + tail;
      }
    }
  }

  /**
   * The ordering is stable: the moves of any one score keep the order they
   * had in the input.
   */
  lemma {:induction false} SortDescStable<T>(xs: seq<T>, key: T -> int, v: int)
    ensures WithKey(SortDesc(xs, key), key, v) == WithKey(xs, key, v)
  {
    if xs != [] {
      var init := xs[..|xs| - 1];
      var last := xs[|xs| - 1];
      var tail := if key(last) == v then [last] else [];
      SortDescStable(init, key, v);
      SortDescSorted(init, key);
      InsertStable(SortDesc(init, key), last, key, v);
      assert SortDesc(xs, key) == Insert(SortDesc(init, key), last, key);
      assert xs == init + [last];
      WithKeyAppend(init, [last], key, v);
      assert [last][1..] == [];
      assert WithKey([last], key, v) == tail;
      assert WithKey(xs, key, v) == WithKey(init, key, v) + tail;
    }
  }

  /**
   * Inserting at the first position whose key is below the new key, after
   * a prefix whose keys are all at least as large, is `Insert`.
   */
  lemma {:induction false} InsertAt<T>(xs: seq<T>, x: T, key: T -> int, j: int)
    requires 0 <= j <= |xs|
    requires forall t :: 0 <= t < j ==> key(xs[t]) >= key(x)
    requires j < |xs| ==> key(xs[j]) < key(x)
    ensures Insert(xs, x, key) == xs[..j] + [x] + xs[j..]
  {
    if j == 0 {
      assert xs[..0] + [x] + xs[0..] == [x] + xs;
    } else {
      var tail := xs[1..];
      assert key(xs[0]) >= key(x);
      assert Insert(xs, x, key) == [xs[0]] + Insert(tail, x, key);
      forall t | 0 <= t < j - 1
        ensures key(tail[t]) >= key(x)
      {
        assert tail[t] == xs[t + 1];
      }
      assert j - 1 < |tail| ==> tail[j - 1] == xs[j];
      InsertAt(tail, x, key, j - 1);
      assert xs[..j] == [xs[0]] + tail[..j - 1];
      assert xs[j..] == tail[j - 1..];
    }
  }
}
