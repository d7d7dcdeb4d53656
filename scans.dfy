/**
 * The row-major sweep over the 8x8 board that several loops of the engine
 * perform (rows 0 to 7, columns 0 to 7), as a concatenation of what each
 * square contributes, with the lemmas that locate an element of the sweep.
 */
module Scans {
  // RowScan and BoardScan name their square function `f` in their decreases
  // clauses although only the count decreases: this keeps the verifier from
  // unfolding a scan all the way down when the count is a literal.

  /** `f` of columns 0 to n - 1 of row r, concatenated in column order. */
  function RowScan<T>(f: (int, int) -> seq<T>, r: int, n: int): seq<T>
    decreases n, f
  {
    if n <= 0 then [] else RowScan(f, r, n - 1) + f(r, n - 1)
  }

  /** The number of rows, and of columns, of the board. */
  function Width(): int
  {
    8
  }

  /** `f` of every square of rows 0 to n - 1 and columns 0 to w - 1, concatenated in row-major order. */
  function BoardScan<T>(f: (int, int) -> seq<T>, n: int, w: int): seq<T>
    decreases n, f
  {
    if n <= 0 then [] else BoardScan(f, n - 1, w) + RowScan(f, n - 1, w)
  }

  /** Where an element of a row scan comes from. */
  lemma {:induction false} RowScanSource<T>(f: (int, int) -> seq<T>, r: int, n: int, x: T) returns (c: int)
    requires x in RowScan(f, r, n)
    ensures 0 <= c < n && x in f(r, c)
    decreases n
  {
    if x in RowScan(f, r, n - 1) {
      c := RowScanSource(f, r, n - 1, x);
    } else {
      c := n - 1;
    }
  }

  lemma {:induction false} RowScanHas<T>(f: (int, int) -> seq<T>, r: int, n: int, c: int, x: T)
    requires 0 <= c < n && x in f(r, c)
    ensures x in RowScan(f, r, n)
    decreases n
  {
    if c < n - 1 {
      RowScanHas(f, r, n - 1, c, x);
    }
  }

  /** Every element of the board scan comes from some square of the scanned rows and columns. */
  lemma {:induction false} BoardScanSource<T>(f: (int, int) -> seq<T>, n: int, w: int, x: T) returns (r: int, c: int)
    requires x in BoardScan(f, n, w)
    ensures 0 <= r < n && 0 <= c < w && x in f(r, c)
    decreases n
  {
    var front := BoardScan(f, n - 1, w);
    var row := RowScan(f, n - 1, w);
    assert x in front || x in row;
    if x in front {
      r, c := BoardScanSource(f, n - 1, w, x);
    } else {
      r := n - 1;
      c := RowScanSource(f, r, w, x);
    }
  }

  /** Every element coming from a square of the scanned rows and columns is in the board scan. */
  lemma {:induction false} BoardScanHas<T>(f: (int, int) -> seq<T>, n: int, w: int, r: int, c: int, x: T)
    requires 0 <= r < n && 0 <= c < w && x in f(r, c)
    ensures x in BoardScan(f, n, w)
    decreases n
  {
    if r < n - 1 {
      BoardScanHas(f, n - 1, w, r, c, x);
    } else {
      RowScanHas(f, r, w, c, x);
    }
  }

  /** Two square functions that agree on the scanned squares give the same scan. */
  lemma {:induction false} BoardScanAgree<T>(f: (int, int) -> seq<T>, h: (int, int) -> seq<T>, n: int, w: int)
    requires forall r, c :: 0 <= r < n && 0 <= c < w ==> f(r, c) == h(r, c)
    ensures BoardScan(f, n, w) == BoardScan(h, n, w)
    decreases n
  {
    if n > 0 {
      BoardScanAgree(f, h, n - 1, w);
      RowScanAgree(f, h, n - 1, w);
    }
  }

  lemma {:induction false} RowScanAgree<T>(f: (int, int) -> seq<T>, h: (int, int) -> seq<T>, r: int, n: int)
    requires forall c :: 0 <= c < n ==> f(r, c) == h(r, c)
    ensures RowScan(f, r, n) == RowScan(h, r, n)
    decreases n
  {
    if n > 0 {
      RowScanAgree(f, h, r, n - 1);
    }
  }

  // ----- sums -----

  /** The sum of `f` over columns 0 to n - 1 of row r. */
  function RowSum(f: (int, int) -> int, r: int, n: int): int
    decreases n
  {
    if n <= 0 then 0 else RowSum(f, r, n - 1) + f(r, n - 1)
  }

  /** The sum of `f` over every square of rows 0 to n - 1. */
  function BoardSum(f: (int, int) -> int, n: int): int
    decreases n
  {
    if n <= 0 then 0 else BoardSum(f, n - 1) + RowSum(f, n - 1, Width())
  }

  /** Summing the negation of a square function gives the negated sum. */
  lemma {:induction false} BoardSumNegate(f: (int, int) -> int, h: (int, int) -> int, n: int)
    requires n <= 8
    requires forall r, c :: 0 <= r < 8 && 0 <= c < 8 ==> f(r, c) == -h(r, c)
    ensures BoardSum(f, n) == -BoardSum(h, n)
    decreases n
  {
    if n > 0 {
      BoardSumNegate(f, h, n - 1);
      RowSumNegate(f, h, n - 1, Width());
    }
  }

  lemma {:induction false} RowSumNegate(f: (int, int) -> int, h: (int, int) -> int, r: int, n: int)
    requires 0 <= r < 8 && n <= 8
    requires forall c :: 0 <= c < 8 ==> f(r, c) == -h(r, c)
    ensures RowSum(f, r, n) == -RowSum(h, r, n)
    decreases n
  {
    if n > 0 {
      RowSumNegate(f, h, r, n - 1);
    }
  }

  /** Summing the difference of two square functions gives the difference of the sums. */
  lemma {:induction false} BoardSumSub(d: (int, int) -> int, f: (int, int) -> int, h: (int, int) -> int, n: int)
    requires n <= 8
    requires forall r, c :: 0 <= r < 8 && 0 <= c < 8 ==> d(r, c) == f(r, c) - h(r, c)
    ensures BoardSum(d, n) == BoardSum(f, n) - BoardSum(h, n)
    decreases n
  {
    if n > 0 {
      BoardSumSub(d, f, h, n - 1);
      RowSumSub(d, f, h, n - 1, Width());
    }
  }

  lemma {:induction false} RowSumSub(d: (int, int) -> int, f: (int, int) -> int, h: (int, int) -> int, r: int, n: int)
    requires 0 <= r < 8 && n <= 8
    requires forall c :: 0 <= c < 8 ==> d(r, c) == f(r, c) - h(r, c)
    ensures RowSum(d, r, n) == RowSum(f, r, n) - RowSum(h, r, n)
    decreases n
  {
    if n > 0 {
      RowSumSub(d, f, h, r, n - 1);
    }
  }
}
