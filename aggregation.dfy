/**
 * The query operators the endpoints are built from, over in-memory sequences:
 * Where, Sum, Count, GroupBy (as distinct keys plus the group of each key),
 * Distinct().Count(), Min/Max, OrderByDescending and Take.
 * All recursion peels the LAST element, so `xs + [x]` unfolds in one step.
 */
module Aggregation {
  import opened Numbers

  function Last<T>(xs: seq<T>): T
    requires |xs| > 0
  {
    xs[|xs| - 1]
  }

  function Init<T>(xs: seq<T>): seq<T>
    requires |xs| > 0
  {
    xs[..|xs| - 1]
  }

  predicate Distinct<T(==)>(xs: seq<T>) {
    forall i, j :: 0 <= i < j < |xs| ==> xs[i] != xs[j]
  }

  // ---------------------------------------------------------------------------
  // Where

  /** Enumerable.Where: the elements satisfying p, in their original order. */
  function Where<T>(xs: seq<T>, p: T -> bool): (r: seq<T>)
    ensures |r| <= |xs|
    ensures forall x :: x in r ==> x in xs && p(x)
    ensures forall x :: x in xs && p(x) ==> x in r
  {
    if xs == [] then []
    else Where(Init(xs), p) + (if p(Last(xs)) then [Last(xs)] else [])
  }

  lemma WhereSnoc<T>(xs: seq<T>, x: T, p: T -> bool)
    ensures Where(xs + [x], p) == Where(xs, p) + (if p(x) then [x] else [])
  {
    assert Init(xs + [x]) == xs;
  }

  /** Two chained Where calls filter by the conjunction. */
  lemma {:induction false} WhereWhere<T>(xs: seq<T>, p: T -> bool, q: T -> bool, pq: T -> bool)
    requires forall x :: pq(x) == (p(x) && q(x))
    ensures Where(Where(xs, p), q) == Where(xs, pq)
  {
    if xs != [] {
      var init, x := Init(xs), Last(xs);
      WhereWhere(init, p, q, pq);
      if p(x) {
        WhereSnoc(Where(init, p), x, q);
      } else {
        assert Where(xs, p) == Where(init, p);
      }
    }
  }

  /** Filters by predicates that agree everywhere give the same result. */
  lemma {:induction false} WhereSame<T>(xs: seq<T>, p: T -> bool, q: T -> bool)
    requires forall x :: p(x) == q(x)
    ensures Where(xs, p) == Where(xs, q)
  {
    if xs != [] {
      WhereSame(Init(xs), p, q);
    }
  }

  /** A predicate that holds everywhere keeps the whole sequence. */
  lemma {:induction false} WhereAll<T>(xs: seq<T>, p: T -> bool)
    requires forall x :: x in xs ==> p(x)
    ensures Where(xs, p) == xs
  {
    if xs != [] {
      assert xs == Init(xs) + [Last(xs)];
      WhereAll(Init(xs), p);
    }
  }

  // ---------------------------------------------------------------------------
  // Sum

  /** Enumerable.Sum of m over xs. */
  function SumOf<T>(xs: seq<T>, m: T -> int): int {
    if xs == [] then 0 else SumOf(Init(xs), m) + m(Last(xs))
  }

  lemma SumOfSnoc<T>(xs: seq<T>, x: T, m: T -> int)
    ensures SumOf(xs + [x], m) == SumOf(xs, m) + m(x)
  {
    assert Init(xs + [x]) == xs;
  }

  lemma {:induction false} SumOfAppend<T>(xs: seq<T>, ys: seq<T>, m: T -> int)
    ensures SumOf(xs + ys, m) == SumOf(xs, m) + SumOf(ys, m)
  {
    if ys != [] {
      var init, y := Init(ys), Last(ys);
      assert ys == init + [y];
      assert xs + ys == (xs + init) + [y];
      SumOfAppend(xs, init, m);
      SumOfSnoc(xs + init, y, m);
      SumOfSnoc(init, y, m);
    } else {
      assert xs + ys == xs;
    }
  }

  /** Summing a measure that is never negative gives a non-negative total. */
  lemma {:induction false} SumOfNonNegative<T>(xs: seq<T>, m: T -> int)
    requires forall x :: x in xs ==> m(x) >= 0
    ensures SumOf(xs, m) >= 0
  {
    if xs != [] {
      SumOfNonNegative(Init(xs), m);
    }
  }

  /** A part filtered out of a non-negative sum is at most the whole. */
  lemma {:induction false} SumOfWhereBounded<T>(xs: seq<T>, p: T -> bool, m: T -> int)
    requires forall x :: x in xs ==> m(x) >= 0
    ensures 0 <= SumOf(Where(xs, p), m) <= SumOf(xs, m)
  {
    if xs != [] {
      var init, x := Init(xs), Last(xs);
      assert x in xs;
      SumOfWhereBounded(init, p, m);
      if p(x) {
        SumOfSnoc(Where(init, p), x, m);
      } else {
        assert Where(xs, p) == Where(init, p);
      }
    }
  }

  /** The average of m over a non-empty sequence, as an exact quotient. */
  function Average<T>(xs: seq<T>, m: T -> int): Ratio
    requires |xs| > 0
  {
    Ratio(SumOf(xs, m), |xs|)
  }

  // ---------------------------------------------------------------------------
  // GroupBy

  /** The distinct keys of xs, in order of first appearance. */
  function KeysOf<T, K(==)>(xs: seq<T>, key: T -> K): (ks: seq<K>)
    ensures Distinct(ks)
    ensures |ks| <= |xs|
    ensures forall x :: x in xs ==> key(x) in ks
  {
    if xs == [] then []
    else
      var ks := KeysOf(Init(xs), key);
      if key(Last(xs)) in ks then ks else ks + [key(Last(xs))]
  }

  /** Every key KeysOf lists is the key of some element: no key is invented. */
  lemma {:induction false} KeyWitness<T, K>(xs: seq<T>, key: T -> K, k: K) returns (x: T)
    requires k in KeysOf(xs, key)
    ensures x in xs && key(x) == k
  {
    var ks := KeysOf(Init(xs), key);
    if k in ks {
      x := KeyWitness(Init(xs), key, k);
      assert xs == Init(xs) + [Last(xs)];
    } else {
      x := Last(xs);
    }
  }

  /** The group of a listed key is never empty. */
  lemma KeyGroupNonEmpty<T, K>(xs: seq<T>, key: T -> K, k: K)
    requires k in KeysOf(xs, key)
    ensures Group(xs, key, k) != []
  {
    var x := KeyWitness(xs, key, k);
    assert x in Group(xs, key, k);
  }

  /** The group of key k: the elements whose key is k, in original order. */
  function Group<T, K(==)>(xs: seq<T>, key: T -> K, k: K): (g: seq<T>)
    ensures forall x :: x in g ==> x in xs && key(x) == k
    ensures forall x :: x in xs && key(x) == k ==> x in g
  {
    Where(xs, x => key(x) == k)
  }

  /** With non-negative values, a group's sum is between 0 and the whole sum. */
  lemma GroupSumBounded<T, K>(xs: seq<T>, key: T -> K, k: K, m: T -> int)
    requires forall x :: x in xs ==> m(x) >= 0
    ensures 0 <= SumOf(Group(xs, key, k), m) <= SumOf(xs, m)
  {
    SumOfWhereBounded(xs, x => key(x) == k, m);
  }

  lemma GroupSnoc<T, K>(xs: seq<T>, x: T, key: T -> K, k: K)
    ensures Group(xs + [x], key, k) == Group(xs, key, k) + (if key(x) == k then [x] else [])
  {
    WhereSnoc(xs, x, y => key(y) == k);
  }

  /** The groups of the keys in ks, summed group by group. */
  function SumOverKeys<T, K(==)>(xs: seq<T>, key: T -> K, ks: seq<K>, m: T -> int): int {
    if ks == [] then 0
    else SumOverKeys(xs, key, Init(ks), m) + SumOf(Group(xs, key, Last(ks)), m)
  }

  lemma {:induction false} SumOverKeysSnoc<T, K>(xs: seq<T>, x: T, key: T -> K, ks: seq<K>, m: T -> int)
    requires Distinct(ks)
    ensures SumOverKeys(xs + [x], key, ks, m)
            == SumOverKeys(xs, key, ks, m) + (if key(x) in ks then m(x) else 0)
  {
    if ks != [] {
      var init, k := Init(ks), Last(ks);
      assert ks == init + [k];
      assert Distinct(init);
      assert key(x) in ks <==> key(x) in init || key(x) == k;
      assert key(x) in init ==> key(x) != k;
      SumOverKeysSnoc(xs, x, key, init, m);
      GroupSnoc(xs, x, key, k);
      if key(x) == k {
        SumOfSnoc(Group(xs, key, k), x, m);
      } else {
        assert Group(xs + [x], key, k) == Group(xs, key, k);
      }
    }
  }

  /**
   * Grouping is lossless: when every key of xs occurs exactly once in ks,
   * the per-group sums add up to the sum over xs.
   */
  lemma {:induction false} GroupsPartition<T, K>(xs: seq<T>, key: T -> K, ks: seq<K>, m: T -> int)
    requires Distinct(ks)
    requires forall x :: x in xs ==> key(x) in ks
    ensures SumOverKeys(xs, key, ks, m) == SumOf(xs, m)
  {
    if xs == [] {
      EmptyGroups(key, ks, m);
    } else {
      assert xs == Init(xs) + [Last(xs)];
      GroupsPartition(Init(xs), key, ks, m);
      SumOverKeysSnoc(Init(xs), Last(xs), key, ks, m);
    }
  }

  lemma {:induction false} EmptyGroups<T, K>(key: T -> K, ks: seq<K>, m: T -> int)
    ensures SumOverKeys([], key, ks, m) == 0
  {
    if ks != [] {
      EmptyGroups(key, Init(ks), m);
    }
  }

  /**
   * Rows built one per key: when row i reports the m-sum of the group of
   * ks[i], the rows' column adds up to the sum over the keys' groups.
   */
  lemma {:induction false} SumOverRows<T, K, R>(xs: seq<T>, key: T -> K, ks: seq<K>, m: T -> int,
                                                rows: seq<R>, column: R -> int)
    requires |rows| == |ks|
    requires forall i :: 0 <= i < |ks| ==> column(rows[i]) == SumOf(Group(xs, key, ks[i]), m)
    ensures SumOf(rows, column) == SumOverKeys(xs, key, ks, m)
  {
    if ks != [] {
      SumOverRows(xs, key, Init(ks), m, Init(rows), column);
      assert rows == Init(rows) + [Last(rows)];
    }
  }

  /** Counting is summing ones. */
  function One<T>(x: T): int { 1 }

  lemma {:induction false} SumOfOne<T>(xs: seq<T>)
    ensures SumOf(xs, One) == |xs|
  {
    if xs != [] {
      SumOfOne(Init(xs));
    }
  }

  /** The set of values key takes over xs. */
  ghost function Image<T, K>(xs: seq<T>, key: T -> K): set<K> {
    set x | x in xs :: key(x)
  }

  /** The number of distinct values of key over xs: Select(key).Distinct().Count(). */
  function DistinctCount<T, K(==)>(xs: seq<T>, key: T -> K): (n: nat)
    ensures n <= |xs|
    ensures (n == 0) == (xs == [])
  {
    |KeysOf(xs, key)|
  }

  /** DistinctCount is the size of the set of key values. */
  lemma DistinctCountIsImageSize<T, K>(xs: seq<T>, key: T -> K)
    ensures DistinctCount(xs, key) == |Image(xs, key)|
  {
    var ks := KeysOf(xs, key);
    DistinctCardinality(ks);
    forall k | k in ks
      ensures k in Image(xs, key)
    {
      var x := KeyWitness(xs, key, k);
    }
    assert (set k | k in ks) == Image(xs, key);
  }

  lemma {:induction false} DistinctCardinality<K>(ks: seq<K>)
    requires Distinct(ks)
    ensures |set k | k in ks| == |ks|
  {
    if ks != [] {
      var init := Init(ks);
      DistinctCardinality(init);
      assert (set k | k in ks) == (set k | k in init) + {Last(ks)};
      assert Last(ks) !in (set k | k in init);
    }
  }

  /** The image of a set under f. */
  ghost function MapSet<A, B>(s: set<A>, f: A -> B): set<B> {
    set x | x in s :: f(x)
  }

  /** An injective map loses no element: the image is as large as the set. */
  lemma {:induction false} InjectiveImageCardinality<A, B>(s: set<A>, f: A -> B)
    requires forall x, y :: x in s && y in s && f(x) == f(y) ==> x == y
    ensures |MapSet(s, f)| == |s|
    decreases s
  {
    if s != {} {
      var x :| x in s;
      InjectiveImageCardinality(s - {x}, f);
      assert MapSet(s, f) == MapSet(s - {x}, f) + {f(x)};
      assert f(x) !in MapSet(s - {x}, f);
    }
  }

  /** A subset is no larger than the set containing it. */
  lemma {:induction false} SubsetCardinality<T>(a: set<T>, b: set<T>)
    requires a <= b
    ensures |a| <= |b|
    decreases a
  {
    if a != {} {
      var x :| x in a;
      SubsetCardinality(a - {x}, b - {x});
    }
  }

  // ---------------------------------------------------------------------------
  // Min and Max

  /** An element with the smallest score (the first such one). */
  function MinBy<T>(xs: seq<T>, score: T -> int): (r: T)
    requires |xs| > 0
    ensures r in xs
    ensures forall x :: x in xs ==> score(r) <= score(x)
  {
    if |xs| == 1 then xs[0]
    else
      var m := MinBy(Init(xs), score);
      assert xs == Init(xs) + [Last(xs)];
      if score(Last(xs)) < score(m) then Last(xs) else m
  }

  /** An element with the largest score (the first such one). */
  function MaxBy<T>(xs: seq<T>, score: T -> int): (r: T)
    requires |xs| > 0
    ensures r in xs
    ensures forall x :: x in xs ==> score(x) <= score(r)
  {
    if |xs| == 1 then xs[0]
    else
      var m := MaxBy(Init(xs), score);
      assert xs == Init(xs) + [Last(xs)];
      if score(Last(xs)) > score(m) then Last(xs) else m
  }

  // ---------------------------------------------------------------------------
  // OrderByDescending and Take

  predicate NonIncreasing<T>(xs: seq<T>, score: T -> int) {
    forall i, j :: 0 <= i < j < |xs| ==> score(xs[i]) >= score(xs[j])
  }

  function Insert<T>(x: T, xs: seq<T>, score: T -> int): (r: seq<T>)
    requires NonIncreasing(xs, score)
    ensures NonIncreasing(r, score)
    ensures multiset(r) == multiset(xs) + multiset{x}
  {
    if xs == [] || score(x) >= score(xs[0]) then
      ConsNonIncreasing(x, xs, score);
      [x] + xs
    else
      var rest := Insert(x, xs[1..], score);
      assert xs == [xs[0]] + xs[1..];
      forall y | y in rest
        ensures score(y) <= score(xs[0])
      {
        assert y in multiset(rest);
        assert y == x || y in xs[1..];
      }
      ConsNonIncreasing(xs[0], rest, score);
      [xs[0]] + rest
  }

  lemma ConsNonIncreasing<T>(a: T, xs: seq<T>, score: T -> int)
    requires NonIncreasing(xs, score)
    requires forall y :: y in xs ==> score(y) <= score(a)
    ensures NonIncreasing([a] + xs, score)
  {
    var r := [a] + xs;
    forall i, j | 0 <= i < j < |r|
      ensures score(r[i]) >= score(r[j])
    {
      assert r[j] == xs[j - 1];
      if i > 0 {
        assert r[i] == xs[i - 1];
      }
    }
  }

  /** OrderByDescending(score): a permutation of xs whose scores never increase. */
  function SortDescending<T>(xs: seq<T>, score: T -> int): (r: seq<T>)
    ensures NonIncreasing(r, score)
    ensures multiset(r) == multiset(xs)
  {
    if xs == [] then []
    else
      assert xs == [xs[0]] + xs[1..];
      Insert(xs[0], SortDescending(xs[1..], score), score)
  }

  predicate StrictlyIncreasing<T>(xs: seq<T>, rank: T -> int) {
    forall i, j :: 0 <= i < j < |xs| ==> rank(xs[i]) < rank(xs[j])
  }

  /** A Where keeps the relative order of what it keeps. */
  lemma {:induction false} WhereStrictlyIncreasing<T>(xs: seq<T>, p: T -> bool, rank: T -> int)
    requires StrictlyIncreasing(xs, rank)
    ensures StrictlyIncreasing(Where(xs, p), rank)
  {
    if xs != [] {
      var init, x := Init(xs), Last(xs);
      assert xs == init + [x];
      assert StrictlyIncreasing(init, rank);
      WhereStrictlyIncreasing(init, p, rank);
      WhereSnoc(init, x, p);
      var w := Where(init, p);
      assert forall y :: y in w ==> rank(y) < rank(x) by {
        forall y | y in w
          ensures rank(y) < rank(x)
        {
          var i :| 0 <= i < |init| && init[i] == y;
          assert xs[i] == y && xs[|xs| - 1] == x;
        }
      }
    }
  }

  lemma StrictlyIncreasingDistinct<T>(xs: seq<T>, rank: T -> int)
    requires StrictlyIncreasing(xs, rank)
    ensures Distinct(xs)
  {
  }

  lemma {:induction false} DistinctMultiplicity<T>(xs: seq<T>, v: T)
    requires Distinct(xs)
    ensures multiset(xs)[v] <= 1
  {
    if xs != [] {
      var init := Init(xs);
      assert xs == init + [Last(xs)];
      assert Distinct(init);
      DistinctMultiplicity(init, v);
      if v == Last(xs) {
        assert v !in init;
      }
    }
  }

  /** A permutation of a duplicate-free sequence is duplicate-free. */
  lemma DistinctPermutation<T>(a: seq<T>, b: seq<T>)
    requires multiset(a) == multiset(b)
    requires Distinct(a)
    ensures Distinct(b)
  {
    forall i, j | 0 <= i < j < |b|
      ensures b[i] != b[j]
    {
      if b[i] == b[j] {
        assert b == b[..i] + [b[i]] + b[i + 1..j] + [b[j]] + b[j + 1..];
        assert multiset(b)[b[i]] >= 2;
        DistinctMultiplicity(a, b[i]);
      }
    }
  }

  function Negated<T>(rank: T -> int): T -> int {
    x => -rank(x)
  }

  /**
   * OrderBy(rank) over distinct keys that rank tells apart: the same keys,
   * strictly ascending.
   */
  function OrderByRank<K(==)>(ks: seq<K>, rank: K -> int): (r: seq<K>)
    requires Distinct(ks)
    requires forall a, b :: a in ks && b in ks && rank(a) == rank(b) ==> a == b
    ensures multiset(r) == multiset(ks)
    ensures StrictlyIncreasing(r, rank)
  {
    var r := SortDescending(ks, Negated(rank));
    DistinctPermutation(ks, r);
    assert forall i :: 0 <= i < |r| ==> r[i] in multiset(ks);
    r
  }

  /**
   * A prefix of a list sorted best first is sorted, is part of the list, and
   * nothing after it beats anything in it.
   */
  lemma PrefixOfSorted<T>(sorted: seq<T>, k: nat, score: T -> int)
    requires k <= |sorted|
    requires NonIncreasing(sorted, score)
    ensures NonIncreasing(sorted[..k], score)
    ensures multiset(sorted[..k]) <= multiset(sorted)
    ensures forall x, y :: x in sorted && x !in sorted[..k] && y in sorted[..k] ==> score(x) <= score(y)
  {
    assert sorted == sorted[..k] + sorted[k..];
    assert multiset(sorted) == multiset(sorted[..k]) + multiset(sorted[k..]);
    forall x, y | x in sorted && x !in sorted[..k] && y in sorted[..k]
      ensures score(x) <= score(y)
    {
      var j :| 0 <= j < |sorted| && sorted[j] == x;
      var i :| 0 <= i < k && sorted[..k][i] == y;
      assert j >= k;
      assert sorted[i] == y;
    }
  }

  lemma MembersOfPermutation<T>(xs: seq<T>, ys: seq<T>)
    requires multiset(xs) == multiset(ys)
    ensures forall x :: x in xs <==> x in ys
  {
    forall x
      ensures x in xs <==> x in ys
    {
      assert x in xs <==> x in multiset(xs);
      assert x in ys <==> x in multiset(ys);
    }
  }

  /** Enumerable.Take(n): at most n leading elements; a negative n takes none. */
  function Take<T>(xs: seq<T>, n: int): (r: seq<T>)
    ensures |r| == Min(Max(n, 0), |xs|)
    ensures r == xs[..|r|]
  {
    xs[..Min(Max(n, 0), |xs|)]
  }

  /** Everything TopN keeps comes from its input. */
  lemma TopNMembers<T>(xs: seq<T>, score: T -> int, n: int)
    ensures forall x :: x in TopN(xs, score, n) ==> x in xs
  {
    var r := TopN(xs, score, n);
    forall x | x in r
      ensures x in xs
    {
      assert x in multiset(r);
    }
  }

  /**
   * OrderByDescending(score).Take(n): at most n rows, best first, drawn from
   * xs, and no row left out scores higher than a row kept.
   */
  function TopN<T>(xs: seq<T>, score: T -> int, n: int): (r: seq<T>)
    ensures |r| == Min(Max(n, 0), |xs|)
    ensures NonIncreasing(r, score)
    ensures multiset(r) <= multiset(xs)
    ensures forall x, y :: x in xs && x !in r && y in r ==> score(x) <= score(y)
  {
    var sorted := SortDescending(xs, score);
    var r := Take(sorted, n);
    PrefixOfSorted(sorted, |r|, score);
    MembersOfPermutation(xs, sorted);
    r
  }
}
