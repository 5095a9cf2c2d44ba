/** Descending order by a numeric key: the in-memory counterpart of
    `ORDER BY key DESC` followed by `LIMIT`. The database leaves the order of
    equal keys unspecified; this model fixes one (insertion order of a
    stable insertion sort), and every property below holds for any order of
    ties. */
module Ranking {

  ghost predicate SortedDesc<T>(xs: seq<T>, key: T -> real) {
    forall i, j :: 0 <= i < j < |xs| ==> key(xs[i]) >= key(xs[j])
  }

  /** Putting a head no lower than the first element in front keeps the order. */
  lemma ConsSorted<T>(h: T, xs: seq<T>, key: T -> real)
    requires SortedDesc(xs, key)
    requires |xs| > 0 ==> key(h) >= key(xs[0])
    ensures SortedDesc([h] + xs, key)
  {
    var r := [h] + xs;
    forall i, j | 0 <= i < j < |r| ensures key(r[i]) >= key(r[j]) {
      if i == 0 {
        assert r[j] == xs[j - 1];
        assert key(xs[0]) >= key(xs[j - 1]);
      } else {
        assert r[i] == xs[i - 1] && r[j] == xs[j - 1];
      }
    }
  }

  /** Dropping the head keeps the order. */
  lemma TailSorted<T>(xs: seq<T>, key: T -> real)
    requires |xs| > 0 && SortedDesc(xs, key)
    ensures SortedDesc(xs[1..], key)
  {
    forall i, j | 0 <= i < j < |xs[1..]| ensures key(xs[1..][i]) >= key(xs[1..][j]) {
      assert xs[1..][i] == xs[i + 1] && xs[1..][j] == xs[j + 1];
    }
  }

  function Insert<T>(x: T, xs: seq<T>, key: T -> real): (r: seq<T>)
    requires SortedDesc(xs, key)
    ensures multiset(r) == multiset(xs) + multiset{x}
    ensures SortedDesc(r, key)
    ensures |r| == |xs| + 1
    ensures |xs| == 0 ==> r == [x]
    ensures |xs| > 0 ==> r[0] == x || r[0] == xs[0]
    decreases |xs|
  {
    if |xs| == 0 then [x]
    else if key(x) >= key(xs[0]) then
      ConsSorted(x, xs, key);
      [x] + xs
    else
      assert xs == [xs[0]] + xs[1..];
      TailSorted(xs, key);
      var rest := Insert(x, xs[1..], key);
      assert |xs| > 1 ==> key(xs[0]) >= key(xs[1]);
      ConsSorted(xs[0], rest, key);
      [xs[0]] + rest
  }

  function SortDesc<T>(xs: seq<T>, key: T -> real): (r: seq<T>)
    ensures multiset(r) == multiset(xs)
    ensures SortedDesc(r, key)
    decreases |xs|
  {
    if |xs| == 0 then []
    else
      assert xs == [xs[0]] + xs[1..];
      Insert(xs[0], SortDesc(xs[1..], key), key)
  }

  function Take<T>(xs: seq<T>, limit: nat): (r: seq<T>)
    ensures |r| == if |xs| < limit then |xs| else limit
    ensures r == xs[..|r|]
  {
    if |xs| <= limit then xs else xs[..limit]
  }

  /** A prefix of a descending sequence is descending. */
  lemma PrefixSorted<T>(xs: seq<T>, n: nat, key: T -> real)
    requires SortedDesc(xs, key) && n <= |xs|
    ensures SortedDesc(xs[..n], key)
  {
    forall i, j | 0 <= i < j < n ensures key(xs[..n][i]) >= key(xs[..n][j]) {
      assert xs[..n][i] == xs[i] && xs[..n][j] == xs[j];
    }
  }

  /** The first `limit` elements of a descending sequence are the top ones:
      everything left out has a key no higher than the last one kept. */
  lemma TopOfSorted<T>(xs: seq<T>, limit: nat, key: T -> real)
    requires SortedDesc(xs, key)
    ensures SortedDesc(Take(xs, limit), key)
    ensures multiset(Take(xs, limit)) <= multiset(xs)
    ensures var r := Take(xs, limit);
      |r| > 0 ==> forall y :: y in multiset(xs) - multiset(r) ==> key(y) <= key(r[|r| - 1])
  {
    var r := Take(xs, limit);
    var n := |r|;
    PrefixSorted(xs, n, key);
    assert xs == r + xs[n..];
    assert multiset(xs) == multiset(r) + multiset(xs[n..]);
    assert multiset(xs) - multiset(r) == multiset(xs[n..]);
    if n > 0 {
      forall y | y in multiset(xs[n..]) ensures key(y) <= key(r[n - 1]) {
        assert y in xs[n..];
        var j :| 0 <= j < |xs[n..]| && xs[n..][j] == y;
        assert xs[n + j] == y && r[n - 1] == xs[n - 1];
        assert key(xs[n - 1]) >= key(xs[n + j]);
      }
    }
  }
}
