/** The list operations of JavaScript arrays that the game's bookkeeping uses. */
module Lists {
  /** `indexOf`: the first position of `x` in `l`, or -1 when `x` is not in it. */
  function IndexOf<T(==)>(l: seq<T>, x: T): (i: int)
    ensures -1 <= i < |l| && (i == -1 <==> x !in l)
    ensures 0 <= i ==> l[i] == x && x !in l[..i]
  {
    if l == [] then -1
    else if l[0] == x then 0
    else
      var i := IndexOf(l[1..], x);
      assert l == [l[0]] + l[1..];
      if i == -1 then -1
      else
        assert l[..i + 1] == [l[0]] + l[1..][..i];
        i + 1
  }

  /**
   * `indexOf` then `splice(index, 1)` when the index is not -1: the first
   * occurrence of `x` taken out of `l`, or `l` itself when `x` is not in it.
   */
  function RemoveFirst<T(==)>(l: seq<T>, x: T): (r: seq<T>)
    ensures multiset(r) == multiset(l) - multiset{x}
    ensures x !in l ==> r == l
    ensures x in l ==> exists i :: 0 <= i < |l| && l[i] == x && x !in l[..i] && r == l[..i] + l[i + 1..]
  {
    var i := IndexOf(l, x);
    if i > -1 then
      assert l == l[..i] + [l[i]] + l[i + 1..];
      l[..i] + l[i + 1..]
    else l
  }

  /** Removing the first `x` from a list that has it only at the end drops that end. */
  lemma RemoveFirstLast<T>(l: seq<T>, x: T)
    requires x !in l
    ensures RemoveFirst(l + [x], x) == l
  {
    assert (l + [x])[..|l|] == l;
  }

  /** The elements of `l` with `x` spliced in at `j`, by index. */
  lemma SpliceAt<T>(l: seq<T>, j: int, x: T, t: int)
    requires 0 <= j <= |l| && 0 <= t <= |l|
    ensures (l[..j] + [x] + l[j..])[t] == if t < j then l[t] else if t == j then x else l[t - 1]
  {
  }

  /** Splicing `x` in adds exactly one `x`. */
  lemma SpliceMultiset<T>(l: seq<T>, j: int, x: T)
    requires 0 <= j <= |l|
    ensures multiset(l[..j] + [x] + l[j..]) == multiset(l) + multiset{x}
  {
    assert l == l[..j] + l[j..];
  }
}
