/**
 * What the SQL engine does with result rows, stated on sequences: keep the
 * rows that satisfy a predicate, order them, cut out `LIMIT count OFFSET
 * offset`, and list a finite set of ids in ascending order.
 */
module Seqs {

  function Min(a: int, b: int): int {
    if a <= b then a else b
  }

  predicate Distinct<T(==)>(s: seq<T>) {
    forall i, j :: 0 <= i < j < |s| ==> s[i] != s[j]
  }

  // ---------------------------------------------------------------- WHERE

  /** The elements of `s` that satisfy `p`, in the order of `s`. */
  function Filter<T(!new)>(s: seq<T>, p: T -> bool): (r: seq<T>)
    ensures |r| <= |s|
    ensures forall x :: x in r <==> x in s && p(x)
    decreases |s|
  {
    if s == [] then [] else (if p(s[0]) then [s[0]] else []) + Filter(s[1..], p)
  }

  lemma {:induction false} FilterDistinct<T(!new)>(s: seq<T>, p: T -> bool)
    requires Distinct(s)
    ensures Distinct(Filter(s, p))
    decreases |s|
  {
    if s != [] {
      FilterDistinct(s[1..], p);
      HeadNotInTail(s);
    }
  }

  /** Filtering by `p` and then by `q` keeps what filtering once by "`p` and `q`" keeps. */
  lemma {:induction false} FilterFilter<T(!new)>(s: seq<T>, p: T -> bool, q: T -> bool, pq: T -> bool)
    requires forall x :: pq(x) == (p(x) && q(x))
    ensures Filter(Filter(s, p), q) == Filter(s, pq)
    decreases |s|
  {
    if s != [] {
      FilterFilter(s[1..], p, q, pq);
      var head := if p(s[0]) then [s[0]] else [];
      FilterAppend(head, Filter(s[1..], p), q);
      if p(s[0]) {
        assert head[1..] == [];
      }
    }
  }

  lemma HeadNotInTail<T>(s: seq<T>)
    requires s != [] && Distinct(s)
    ensures s[0] !in s[1..]
  {
    forall j | 0 <= j < |s[1..]|
      ensures s[1..][j] != s[0]
    {
      assert s[1..][j] == s[j + 1];
    }
  }

  /** Two predicates that agree on every element select the same elements. */
  lemma {:induction false} FilterAgrees<T(!new)>(s: seq<T>, p: T -> bool, q: T -> bool)
    requires forall x :: x in s ==> p(x) == q(x)
    ensures Filter(s, p) == Filter(s, q)
    decreases |s|
  {
    if s != [] {
      assert forall x :: x in s[1..] ==> x in s;
      FilterAgrees(s[1..], p, q);
    }
  }

  lemma {:induction false} FilterAppend<T(!new)>(a: seq<T>, b: seq<T>, p: T -> bool)
    ensures Filter(a + b, p) == Filter(a, p) + Filter(b, p)
    decreases |a|
  {
    if a == [] {
      assert a + b == b;
    } else {
      assert (a + b)[0] == a[0] && (a + b)[1..] == a[1..] + b;
      FilterAppend(a[1..], b, p);
    }
  }

  /** Keeping the elements that satisfy `p` keeps all of them when all do. */
  lemma {:induction false} FilterAll<T(!new)>(s: seq<T>, p: T -> bool)
    requires forall i :: 0 <= i < |s| ==> p(s[i])
    ensures Filter(s, p) == s
    decreases |s|
  {
    if s != [] {
      assert p(s[0]);
      FilterAll(s[1..], p);
      assert s == [s[0]] + s[1..];
    }
  }

  // ---------------------------------------------------------------- ORDER BY

  /** `le` is a total preorder: every two elements compare, and comparing is transitive. */
  ghost predicate TotalPreorder<T(!new)>(le: (T, T) -> bool) {
    && (forall a, b :: le(a, b) || le(b, a))
    && (forall a, b, c :: le(a, b) && le(b, c) ==> le(a, c))
  }

  predicate SortedBy<T>(s: seq<T>, le: (T, T) -> bool) {
    forall i, j :: 0 <= i < j < |s| ==> le(s[i], s[j])
  }

  function InsertBy<T>(x: T, s: seq<T>, le: (T, T) -> bool): (r: seq<T>)
    ensures multiset(r) == multiset(s) + multiset{x}
    decreases |s|
  {
    if s == [] || le(x, s[0]) then [x] + s
    else
      var t := InsertBy(x, s[1..], le);
      assert s == [s[0]] + s[1..];
      [s[0]] + t
  }

  /** Insertion sort: a permutation of `s` ordered by `le`. */
  function SortBy<T>(s: seq<T>, le: (T, T) -> bool): (r: seq<T>)
    ensures multiset(r) == multiset(s)
    ensures |r| == |s|
    decreases |s|
  {
    if s == [] then []
    else
      assert s == [s[0]] + s[1..];
      InsertBy(s[0], SortBy(s[1..], le), le)
  }

  lemma {:induction false} InsertBySorted<T(!new)>(x: T, s: seq<T>, le: (T, T) -> bool)
    requires TotalPreorder(le) && SortedBy(s, le)
    ensures SortedBy(InsertBy(x, s, le), le)
    decreases |s|
  {
    if s != [] && !le(x, s[0]) {
      InsertBySorted(x, s[1..], le);
      var t := InsertBy(x, s[1..], le);
      forall y | y in t
        ensures le(s[0], y)
      {
        assert y in multiset(t);
        if y != x {
          assert y in multiset(s[1..]);
          var j :| 0 <= j < |s[1..]| && s[1..][j] == y;
          assert s[j + 1] == y;
        }
      }
      var r := [s[0]] + t;
      forall i, j | 0 <= i < j < |r|
        ensures le(r[i], r[j])
      {
        if i == 0 {
          assert r[j] == t[j - 1] && r[j] in t;
        }
      }
    }
  }

  /** The result of `SortBy` is ordered when `le` is a total preorder. */
  lemma {:induction false} SortBySorted<T(!new)>(s: seq<T>, le: (T, T) -> bool)
    requires TotalPreorder(le)
    ensures SortedBy(SortBy(s, le), le)
    decreases |s|
  {
    if s != [] {
      SortBySorted(s[1..], le);
      InsertBySorted(s[0], SortBy(s[1..], le), le);
    }
  }

  lemma {:induction false} DistinctByMultiset<T>(s: seq<T>)
    requires forall x :: multiset(s)[x] <= 1
    ensures Distinct(s)
    decreases |s|
  {
    if s != [] {
      assert s == [s[0]] + s[1..];
      assert multiset(s) == multiset{s[0]} + multiset(s[1..]);
      assert forall x :: multiset(s[1..])[x] <= multiset(s)[x];
      DistinctByMultiset(s[1..]);
      assert multiset(s[1..])[s[0]] == 0;
      forall i, j | 0 <= i < j < |s|
        ensures s[i] != s[j]
      {
        assert s[j] == s[1..][j - 1];
        if i > 0 {
          assert s[i] == s[1..][i - 1];
        }
      }
    }
  }

  lemma {:induction false} MultisetOfDistinct<T>(s: seq<T>)
    requires Distinct(s)
    ensures forall x :: multiset(s)[x] <= 1
    decreases |s|
  {
    if s != [] {
      MultisetOfDistinct(s[1..]);
      assert s == [s[0]] + s[1..];
      HeadNotInTail(s);
    }
  }

  /** Reordering keeps a sequence free of repeats. */
  lemma PermutationDistinct<T>(s: seq<T>, r: seq<T>)
    requires Distinct(s) && multiset(r) == multiset(s)
    ensures Distinct(r)
  {
    MultisetOfDistinct(s);
    DistinctByMultiset(r);
  }

  // ---------------------------------------------------------------- LIMIT / OFFSET

  /**
   * `LIMIT count OFFSET offset`: at most `count` elements, those that follow
   * the first `offset` ones, in their order.
   */
  function Slice<T>(s: seq<T>, offset: nat, count: nat): (r: seq<T>)
    ensures |r| == if offset >= |s| then 0 else Min(count, |s| - offset)
    ensures forall i :: 0 <= i < |r| ==> r[i] == s[offset + i]
  {
    if offset >= |s| then [] else s[offset..Min(offset + count, |s|)]
  }

  /** A slice of a sorted copy holds only elements of the original. */
  lemma SliceOfSorted<T>(s: seq<T>, le: (T, T) -> bool, offset: nat, count: nat)
    ensures forall i :: 0 <= i < |Slice(SortBy(s, le), offset, count)| ==> Slice(SortBy(s, le), offset, count)[i] in s
  {
    var sorted := SortBy(s, le);
    forall i | 0 <= i < |Slice(sorted, offset, count)|
      ensures Slice(sorted, offset, count)[i] in s
    {
      assert sorted[offset + i] in multiset(sorted);
    }
  }

  /** Two slices over index ranges that do not overlap share no element of a repeat-free sequence. */
  lemma SlicesDisjoint<T>(s: seq<T>, o1: nat, c1: nat, o2: nat, c2: nat)
    requires Distinct(s)
    requires o1 + c1 <= o2 || o2 + c2 <= o1
    ensures forall x :: x in Slice(s, o1, c1) ==> x !in Slice(s, o2, c2)
  {
    var r1, r2 := Slice(s, o1, c1), Slice(s, o2, c2);
    forall x | x in r1
      ensures x !in r2
    {
      var i :| 0 <= i < |r1| && r1[i] == x;
      forall j | 0 <= j < |r2|
        ensures r2[j] != x
      {
        assert o1 + i != o2 + j;
      }
    }
  }

  /** Two adjacent slices together are the slice that spans both. */
  lemma AdjacentSlices<T>(s: seq<T>, offset: nat, c1: nat, c2: nat)
    ensures Slice(s, offset, c1) + Slice(s, offset + c1, c2) == Slice(s, offset, c1 + c2)
  {
    var a, b, c := Slice(s, offset, c1), Slice(s, offset + c1, c2), Slice(s, offset, c1 + c2);
    assert |a + b| == |c|;
    forall i | 0 <= i < |c|
      ensures (a + b)[i] == c[i]
    {
      if i >= |a| {
        assert (a + b)[i] == b[i - |a|];
      }
    }
  }

  /** The first `n` elements of a repeat-free sequence are repeat-free and belong to it. */
  lemma PrefixOfDistinct<T>(s: seq<T>, n: nat)
    requires Distinct(s)
    ensures |Slice(s, 0, n)| <= n && Distinct(Slice(s, 0, n))
    ensures forall x :: x in Slice(s, 0, n) ==> x in s
  {
    var r := Slice(s, 0, n);
    forall x | x in r
      ensures x in s
    {
      var i :| 0 <= i < |r| && r[i] == x;
      assert s[i] == x;
    }
  }

  /**
   * An element of an ordered sequence that the first `n` elements leave out
   * comes, by `le`, after each of them; and the first `n` are then full.
   */
  lemma LeftOutOfPrefix<T>(s: seq<T>, n: nat, le: (T, T) -> bool, x: T)
    requires SortedBy(s, le) && x in s && x !in Slice(s, 0, n)
    ensures |Slice(s, 0, n)| == n
    ensures forall y :: y in Slice(s, 0, n) ==> le(y, x)
  {
    var k :| 0 <= k < |s| && s[k] == x;
    var r := Slice(s, 0, n);
    assert forall i :: 0 <= i < |r| ==> r[i] != x;
    assert k >= |r|;
    forall y | y in r
      ensures le(y, x)
    {
      var i :| 0 <= i < |r| && r[i] == y;
      assert s[i] == y;
    }
  }

  // ---------------------------------------------------------------- ids in ascending order

  lemma HasMember(s: set<int>)
    requires s != {}
    ensures exists y :: y in s
  {
    if forall y :: y !in s {
      assert false;
    }
  }

  lemma MinExists(s: set<int>, w: int)
    requires w in s
    ensures exists m :: m in s && forall x :: x in s ==> m <= x
    decreases s
  {
    var rest := s - {w};
    if z :| z in rest {
      MinExists(rest, z);
      var m :| m in rest && forall x :: x in rest ==> m <= x;
      assert forall x :: x in s ==> x == w || x in rest;
    } else {
      assert forall x :: x in s ==> x == w || x in rest;
    }
  }

  /** The least element of a non-empty finite set. */
  function MinOf(s: set<int>): (m: int)
    requires s != {}
    ensures m in s && forall x :: x in s ==> m <= x
  {
    HasMember(s);
    var w :| w in s;
    MinExists(s, w);
    var m :| m in s && forall x :: x in s ==> m <= x;
    m
  }

  /** The ids of a finite set in ascending order, as a primary-key scan yields them. */
  function SortedIds(s: set<int>): (r: seq<int>)
    ensures forall i, j :: 0 <= i < j < |r| ==> r[i] < r[j]
    ensures forall x :: x in r <==> x in s
    decreases s
  {
    if s == {} then []
    else
      var m := MinOf(s);
      var rest := SortedIds(s - {m});
      SmallestFirst(s, m, rest);
      [m] + rest
  }

  /** The least element of `s` followed by the rest of `s` in ascending order is `s` in ascending order. */
  lemma SmallestFirst(s: set<int>, m: int, rest: seq<int>)
    requires m in s && forall x :: x in s ==> m <= x
    requires forall i, j :: 0 <= i < j < |rest| ==> rest[i] < rest[j]
    requires forall x :: x in rest <==> x in s - {m}
    ensures var r := [m] + rest;
      && (forall i, j :: 0 <= i < j < |r| ==> r[i] < r[j])
      && (forall x :: x in r <==> x in s)
  {
    var r := [m] + rest;
    forall i, j | 0 <= i < j < |r|
      ensures r[i] < r[j]
    {
      assert r[j] == rest[j - 1] && r[j] in s - {m};
      if i > 0 {
        assert r[i] == rest[i - 1];
      }
    }
  }

  lemma SortedIdsDistinct(s: set<int>)
    ensures Distinct(SortedIds(s))
  {
  }

  /** Filtering a sequence without repeats keeps as many elements as the set of those that pass. */
  lemma FilterCard(s: seq<int>, p: int -> bool)
    requires Distinct(s)
    ensures |Filter(s, p)| == |set x | x in s && p(x)|
  {
    FilterDistinct(s, p);
    DistinctCard(Filter(s, p));
    assert (set x | x in Filter(s, p)) == set x | x in s && p(x);
  }

  /** A sequence without repeats has as many elements as the set of its elements. */
  lemma {:induction false} DistinctCard(s: seq<int>)
    requires Distinct(s)
    ensures |set x | x in s| == |s|
    decreases |s|
  {
    if s != [] {
      var rest := set x | x in s[1..];
      HeadNotInTail(s);
      DistinctCard(s[1..]);
      assert (set x | x in s) == rest + {s[0]};
      assert s[0] !in rest;
    }
  }
}
