/** Sorting by a key: the comparators the pages pass to `Array.prototype.sort`
    all agree with a lexicographic rank on a pair of integers, so sorting
    with them is sorting by that rank. */
module Sorting {

  datatype Rank = Rank(major: int, minor: int)

  predicate RankLe(a: Rank, b: Rank)
  {
    a.major < b.major || (a.major == b.major && a.minor <= b.minor)
  }

  predicate SortedBy<T>(xs: seq<T>, key: T -> Rank)
  {
    forall i, j :: 0 <= i < j < |xs| ==> RankLe(key(xs[i]), key(xs[j]))
  }

  /** Inserts `x` before the first element it does not rank after. */
  function Insert<T>(x: T, ys: seq<T>, key: T -> Rank): (r: seq<T>)
    ensures multiset(r) == multiset(ys) + multiset{x}
    ensures |r| == |ys| + 1
    ensures SortedBy(ys, key) ==> SortedBy(r, key)
  {
    if ys == [] then [x]
    else if RankLe(key(x), key(ys[0])) then
      assert forall j :: 0 < j < |ys| + 1 ==> ([x] + ys)[j] == ys[j - 1];
      [x] + ys
    else
      var rest := Insert(x, ys[1..], key);
      assert ys == [ys[0]] + ys[1..];
      assert SortedBy(ys, key) ==> SortedBy(ys[1..], key) by {
        if SortedBy(ys, key) {
          forall i, j | 0 <= i < j < |ys| - 1 ensures RankLe(key(ys[1..][i]), key(ys[1..][j])) {
            assert ys[1..][i] == ys[i + 1] && ys[1..][j] == ys[j + 1];
          }
        }
      }
      assert SortedBy(ys, key) ==> forall j :: 0 <= j < |rest| ==> RankLe(key(ys[0]), key(rest[j])) by {
        if SortedBy(ys, key) {
          forall j | 0 <= j < |rest| ensures RankLe(key(ys[0]), key(rest[j])) {
            assert rest[j] in multiset(rest);
            assert rest[j] in multiset(ys[1..]) + multiset{x};
            if rest[j] in multiset(ys[1..]) {
              var k :| 0 <= k < |ys[1..]| && ys[1..][k] == rest[j];
              assert ys[k + 1] == rest[j];
            }
          }
        }
      }
      assert forall j :: 0 < j < |rest| + 1 ==> ([ys[0]] + rest)[j] == rest[j - 1];
      [ys[0]] + rest
  }

  /** Insertion sort: a permutation of the input, sorted by the key. */
  function SortBy<T>(xs: seq<T>, key: T -> Rank): (r: seq<T>)
    ensures multiset(r) == multiset(xs)
    ensures |r| == |xs|
    ensures SortedBy(r, key)
  {
    if xs == [] then []
    else
      assert xs == [xs[0]] + xs[1..];
      Insert(xs[0], SortBy(xs[1..], key), key)
  }

  /** A prefix of a permutation of `ys` draws only on `ys`. */
  lemma PrefixWithin<T>(xs: seq<T>, ys: seq<T>, n: nat)
    requires multiset(xs) == multiset(ys) && n <= |xs|
    ensures multiset(xs[..n]) <= multiset(ys)
    ensures forall e :: e in xs[..n] ==> e in ys
  {
    assert xs == xs[..n] + xs[n..];
    assert multiset(xs) == multiset(xs[..n]) + multiset(xs[n..]);
    forall e | e in xs[..n] ensures e in ys {
      assert e in multiset(xs[..n]);
      assert e in multiset(ys);
    }
  }
}
