/** Ranking by an integer key, as `arr.sort((a, b) => key(b) - key(a))` does it. JavaScript's
    sort is stable, so the order it produces is fully determined: the first element is the
    earliest one whose key is largest, followed by the stable sort of the others. That is the
    definition used here. */
module Ranking {

  /** Index of the earliest element with the largest key. */
  function FirstMax<T>(xs: seq<T>, key: T -> int): (i: nat)
    requires |xs| > 0
    ensures i < |xs|
    ensures forall j :: 0 <= j < |xs| ==> key(xs[j]) <= key(xs[i])
    ensures forall j :: 0 <= j < i ==> key(xs[j]) < key(xs[i])
  {
    if |xs| == 1 then 0
    else
      var k := FirstMax(xs[1..], key);
      if key(xs[0]) >= key(xs[1..][k]) then 0 else k + 1
  }

  /** `xs` without its element at `i`. */
  function RemoveAt<T>(xs: seq<T>, i: nat): (r: seq<T>)
    requires i < |xs|
    ensures |r| == |xs| - 1
    ensures forall j :: 0 <= j < i ==> r[j] == xs[j]
    ensures forall j :: i <= j < |r| ==> r[j] == xs[j + 1]
  {
    xs[..i] + xs[i + 1..]
  }

  /** The stable descending sort of `xs` by `key`. */
  function SortDesc<T>(xs: seq<T>, key: T -> int): (r: seq<T>)
    ensures |r| == |xs|
    decreases |xs|
  {
    if xs == [] then []
    else
      var i := FirstMax(xs, key);
      [xs[i]] + SortDesc(RemoveAt(xs, i), key)
  }

  lemma RemoveAtMultiset<T>(xs: seq<T>, i: nat)
    requires i < |xs|
    ensures multiset(xs) == multiset{xs[i]} + multiset(RemoveAt(xs, i))
  {
    assert xs == xs[..i] + [xs[i]] + xs[i + 1..];
  }

  /** Sorting only reorders: the result holds the same elements, as many times each. */
  lemma {:induction false} SortDescPermutation<T>(xs: seq<T>, key: T -> int)
    ensures multiset(SortDesc(xs, key)) == multiset(xs)
    decreases |xs|
  {
    if xs != [] {
      var i := FirstMax(xs, key);
      SortDescPermutation(RemoveAt(xs, i), key);
      RemoveAtMultiset(xs, i);
    }
  }

  /** The result is in descending order of the key. */
  lemma {:induction false} SortDescSorted<T>(xs: seq<T>, key: T -> int)
    ensures forall a, b :: 0 <= a < b < |xs| ==> key(SortDesc(xs, key)[a]) >= key(SortDesc(xs, key)[b])
    decreases |xs|
  {
    if xs != [] {
      var i := FirstMax(xs, key);
      var rest := RemoveAt(xs, i);
      var r := SortDesc(xs, key);
      SortDescSorted(rest, key);
      SortDescPermutation(rest, key);
      assert r[1..] == SortDesc(rest, key);
      forall b | 0 < b < |xs|
        ensures key(r[0]) >= key(r[b])
      {
        assert r[b] == r[1..][b - 1];
        assert r[b] in multiset(rest);
        var j :| 0 <= j < |rest| && rest[j] == r[b];
        assert rest[j] == xs[if j < i then j else j + 1];
      }
      forall a, b | 0 < a < b < |xs|
        ensures key(r[a]) >= key(r[b])
      {
        assert r[a] == r[1..][a - 1] && r[b] == r[1..][b - 1];
      }
    }
  }

  /** The leading two elements of the sort: the earliest element with the largest key, then the
      earliest of the remaining elements with the largest key among them. Equal keys therefore
      keep their order in the input. */
  lemma SortDescHead<T>(xs: seq<T>, key: T -> int)
    requires |xs| >= 2
    ensures var i := FirstMax(xs, key);
            var j := FirstMax(RemoveAt(xs, i), key);
            SortDesc(xs, key)[0] == xs[i] &&
            SortDesc(xs, key)[1] == RemoveAt(xs, i)[j]
  {
    var i := FirstMax(xs, key);
    var rest := RemoveAt(xs, i);
    assert SortDesc(xs, key)[1..] == SortDesc(rest, key);
  }
}
