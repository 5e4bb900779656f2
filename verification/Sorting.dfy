/** Sorting and order-insensitive sums over sequences.
    The program sorts its latency samples and its per-peer report rows; the sort is
    written out here, so that "sorted" and "a permutation" are proved rather than assumed. */
module Sorting {

  ghost predicate Ascending<T>(xs: seq<T>, key: T -> int) {
    forall i, j :: 0 <= i < j < |xs| ==> key(xs[i]) <= key(xs[j])
  }

  ghost predicate StrictlyAscending<T>(xs: seq<T>, key: T -> int) {
    forall i, j :: 0 <= i < j < |xs| ==> key(xs[i]) < key(xs[j])
  }

  lemma HeadAndTail<T>(xs: seq<T>)
    requires xs != []
    ensures multiset(xs) == multiset{xs[0]} + multiset(xs[1..])
  {
    assert xs == [xs[0]] + xs[1..];
  }

  lemma SameLength<T>(xs: seq<T>, ys: seq<T>)
    requires multiset(xs) == multiset(ys)
    ensures |xs| == |ys|
  {
    assert |multiset(xs)| == |xs|;
  }

  lemma AscendingCons<T>(x: T, xs: seq<T>, ys: seq<T>, key: T -> int)
    requires Ascending(ys, key) && multiset(xs) == multiset(ys)
    requires forall y :: y in xs ==> key(x) <= key(y)
    ensures Ascending([x] + ys, key)
  {
    forall i | 0 <= i < |ys| ensures key(x) <= key(ys[i]) {
      assert ys[i] in multiset(ys);
      assert ys[i] in xs;
    }
  }

  function Insert<T>(x: T, xs: seq<T>, key: T -> int): (r: seq<T>)
    requires Ascending(xs, key)
    ensures Ascending(r, key)
    ensures multiset(r) == multiset{x} + multiset(xs)
  {
    if xs == [] then [x]
    else if key(x) <= key(xs[0]) then [x] + xs
    else
      var rest := Insert(x, xs[1..], key);
      HeadAndTail(xs);
      AscendingCons(xs[0], [x] + xs[1..], rest, key);
      [xs[0]] + rest
  }

  /** Insertion sort by an integer key. */
  function SortBy<T>(xs: seq<T>, key: T -> int): (r: seq<T>)
    ensures Ascending(r, key)
    ensures multiset(r) == multiset(xs)
  {
    if xs == [] then []
    else
      HeadAndTail(xs);
      Insert(xs[0], SortBy(xs[1..], key), key)
  }

  /** A sequence whose keys are strictly ascending is the only ascending arrangement of its elements. */
  lemma {:induction false} StrictOrderIsUnique<T>(xs: seq<T>, ys: seq<T>, key: T -> int)
    requires StrictlyAscending(xs, key) && Ascending(ys, key)
    requires multiset(xs) == multiset(ys)
    ensures xs == ys
  {
    SameLength(xs, ys);
    if xs != [] {
      FirstIsLeast(xs, ys, key);
      HeadAndTail(xs);
      HeadAndTail(ys);
      assert multiset(xs[1..]) == multiset(xs) - multiset{xs[0]} == multiset(ys[1..]);
      StrictOrderIsUnique(xs[1..], ys[1..], key);
    }
  }

  lemma FirstIsLeast<T>(xs: seq<T>, ys: seq<T>, key: T -> int)
    requires StrictlyAscending(xs, key) && Ascending(ys, key)
    requires multiset(xs) == multiset(ys)
    requires xs != [] && ys != []
    ensures xs[0] == ys[0]
  {
    assert ys[0] in multiset(xs) && xs[0] in multiset(ys);
    var i :| 0 <= i < |xs| && xs[i] == ys[0];
    var j :| 0 <= j < |ys| && ys[j] == xs[0];
    assert key(ys[0]) <= key(ys[j]);
    assert i > 0 ==> key(xs[0]) < key(xs[i]);
  }

  function Identity(x: int): int { x }

  lemma FirstIsLeastInt(xs: seq<int>, ys: seq<int>)
    requires Ascending(xs, Identity) && Ascending(ys, Identity)
    requires multiset(xs) == multiset(ys)
    requires xs != [] && ys != []
    ensures xs[0] == ys[0]
  {
    assert ys[0] in multiset(xs) && xs[0] in multiset(ys);
    var i :| 0 <= i < |xs| && xs[i] == ys[0];
    var j :| 0 <= j < |ys| && ys[j] == xs[0];
    assert Identity(xs[0]) <= Identity(xs[i]);
    assert Identity(ys[0]) <= Identity(ys[j]);
  }

  /** Two ascending integer sequences with the same elements are equal. */
  lemma {:induction false} AscendingIntsAreUnique(xs: seq<int>, ys: seq<int>)
    requires Ascending(xs, Identity) && Ascending(ys, Identity)
    requires multiset(xs) == multiset(ys)
    ensures xs == ys
  {
    SameLength(xs, ys);
    if xs != [] {
      FirstIsLeastInt(xs, ys);
      HeadAndTail(xs);
      HeadAndTail(ys);
      assert multiset(xs[1..]) == multiset(xs) - multiset{xs[0]} == multiset(ys[1..]);
      AscendingIntsAreUnique(xs[1..], ys[1..]);
    }
  }

  /** The sum of f over a sequence. */
  function SumOver(xs: seq<int>, f: int -> real): real {
    if xs == [] then 0.0 else SumOver(xs[..|xs| - 1], f) + f(xs[|xs| - 1])
  }

  function Without<T>(xs: seq<T>, i: nat): seq<T>
    requires i < |xs|
  {
    xs[..i] + xs[i + 1..]
  }

  lemma {:induction false} SumOverRemove(xs: seq<int>, i: nat, f: int -> real)
    requires i < |xs|
    ensures SumOver(xs, f) == SumOver(Without(xs, i), f) + f(xs[i])
  {
    var n := |xs| - 1;
    if i == n {
      assert Without(xs, i) == xs[..n];
    } else {
      SumOverRemove(xs[..n], i, f);
      assert Without(xs, i)[..n - 1] == Without(xs[..n], i);
    }
  }

  /** Some element of ys is the last one of xs, and taking both away leaves permutations of each other. */
  lemma MatchLast(xs: seq<int>, ys: seq<int>) returns (i: nat)
    requires multiset(xs) == multiset(ys) && xs != []
    ensures i < |ys| && ys[i] == xs[|xs| - 1]
    ensures multiset(xs[..|xs| - 1]) == multiset(Without(ys, i))
  {
    var n := |xs| - 1;
    assert xs[n] in multiset(xs);
    i :| 0 <= i < |ys| && ys[i] == xs[n];
    assert ys == ys[..i] + [xs[n]] + ys[i + 1..];
    assert multiset(ys) == multiset(ys[..i]) + multiset{xs[n]} + multiset(ys[i + 1..]);
    assert xs == xs[..n] + [xs[n]];
    assert multiset(xs[..n] + [xs[n]]) == multiset(xs[..n]) + multiset{xs[n]};
    var rest := multiset(ys[..i]) + multiset(ys[i + 1..]);
    assert multiset(Without(ys, i)) == rest;
    assert multiset(xs[..n]) == multiset(xs) - multiset{xs[n]};
    assert rest == multiset(ys) - multiset{xs[n]};
  }

  /** Sums do not depend on the order of the elements. */
  lemma {:induction false} SumOverPermutation(xs: seq<int>, ys: seq<int>, f: int -> real)
    requires multiset(xs) == multiset(ys)
    ensures SumOver(xs, f) == SumOver(ys, f)
  {
    SameLength(xs, ys);
    if xs != [] {
      var i := MatchLast(xs, ys);
      SumOverRemove(ys, i, f);
      SumOverPermutation(xs[..|xs| - 1], Without(ys, i), f);
    }
  }
}
