/** Stable sorting by a comparison, as the source's `sorted` and `ORDER BY` use it, with the
    facts the other modules need: the result is ordered, it is a permutation of the input, and
    where ties mean equality the input order does not matter. */
module Ordering {

  datatype Option<+T> = None | Some(value: T)

  ghost predicate TotalPreorder<T(!new)>(leq: (T, T) -> bool) {
    && (forall x, y :: leq(x, y) || leq(y, x))
    && (forall x, y, z :: leq(x, y) && leq(y, z) ==> leq(x, z))
  }

  ghost predicate Sorted<T>(leq: (T, T) -> bool, s: seq<T>) {
    forall i, j :: 0 <= i < j < |s| ==> leq(s[i], s[j])
  }

  /** No two different elements of `s` tie. */
  ghost predicate TieFree<T>(leq: (T, T) -> bool, s: seq<T>) {
    forall x, y :: x in s && y in s && leq(x, y) && leq(y, x) ==> x == y
  }

  /** Puts `x` in front of the first element it does not exceed. */
  function Insert<T>(leq: (T, T) -> bool, x: T, s: seq<T>): (r: seq<T>)
    ensures multiset(r) == multiset([x]) + multiset(s)
    ensures |r| == |s| + 1
  {
    if s == [] || leq(x, s[0]) then [x] + s
    else
      assert s == [s[0]] + s[1..];
      [s[0]] + Insert(leq, x, s[1..])
  }

  /** Stable sort: of two tied elements the one that came first stays first. */
  function Sort<T>(leq: (T, T) -> bool, s: seq<T>): (r: seq<T>)
    ensures multiset(r) == multiset(s)
    ensures |r| == |s|
  {
    if s == [] then []
    else
      assert s == [s[0]] + s[1..];
      Insert(leq, s[0], Sort(leq, s[1..]))
  }

  lemma SameMembers<T>(a: seq<T>, b: seq<T>)
    requires multiset(a) == multiset(b)
    ensures |a| == |b|
    ensures forall x :: x in a <==> x in b
  {
    assert |multiset(a)| == |a| && |multiset(b)| == |b|;
    forall x ensures x in a <==> x in b {
      assert x in a <==> x in multiset(a);
      assert x in b <==> x in multiset(b);
    }
  }

  lemma {:induction false} InsertSorted<T(!new)>(leq: (T, T) -> bool, x: T, s: seq<T>)
    requires TotalPreorder(leq) && Sorted(leq, s)
    ensures Sorted(leq, Insert(leq, x, s))
  {
    if s == [] || leq(x, s[0]) {
      forall i | 0 <= i < |s| ensures leq(x, s[i]) {
        assert leq(s[0], s[i]) || i == 0;
      }
    } else {
      var rest := Insert(leq, x, s[1..]);
      InsertSorted(leq, x, s[1..]);
      forall i | 0 <= i < |rest| ensures leq(s[0], rest[i]) {
        assert rest[i] in multiset(rest);
        if rest[i] != x {
          assert rest[i] in multiset(s[1..]);
          assert rest[i] in s[1..];
        }
      }
    }
  }

  lemma {:induction false} SortSorted<T(!new)>(leq: (T, T) -> bool, s: seq<T>)
    requires TotalPreorder(leq)
    ensures Sorted(leq, Sort(leq, s))
  {
    if s != [] {
      SortSorted(leq, s[1..]);
      InsertSorted(leq, s[0], Sort(leq, s[1..]));
    }
  }

  lemma HeadIsLeast<T>(leq: (T, T) -> bool, s: seq<T>, x: T)
    requires Sorted(leq, s) && x in s && leq(s[0], s[0])
    ensures leq(s[0], x)
  {
    var i :| 0 <= i < |s| && s[i] == x;
    assert i == 0 || leq(s[0], s[i]);
  }

  lemma TailsKeepMultiset<T>(a: seq<T>, b: seq<T>)
    requires a != [] && b != [] && a[0] == b[0] && multiset(a) == multiset(b)
    ensures multiset(a[1..]) == multiset(b[1..])
  {
    assert a == [a[0]] + a[1..] && b == [b[0]] + b[1..];
    assert multiset(a[1..]) == multiset(a) - multiset{a[0]};
    assert multiset(b[1..]) == multiset(b) - multiset{b[0]};
  }

  /** Without ties there is only one ordered arrangement of a multiset. */
  lemma {:induction false} SortedUnique<T(!new)>(leq: (T, T) -> bool, a: seq<T>, b: seq<T>)
    requires TotalPreorder(leq) && Sorted(leq, a) && Sorted(leq, b)
    requires multiset(a) == multiset(b) && TieFree(leq, a)
    ensures a == b
  {
    SameMembers(a, b);
    if a != [] {
      var x, y := a[0], b[0];
      assert x in a && y in b;
      HeadIsLeast(leq, a, y);
      HeadIsLeast(leq, b, x);
      assert x == y;
      TailsKeepMultiset(a, b);
      assert TieFree(leq, a[1..]) by {
        assert forall z :: z in a[1..] ==> z in a;
      }
      SortedUnique(leq, a[1..], b[1..]);
      assert a == [x] + a[1..] && b == [y] + b[1..];
    }
  }

  /** Sorting forgets the input order when no two different elements tie. */
  lemma SortForgetsOrder<T(!new)>(leq: (T, T) -> bool, a: seq<T>, b: seq<T>)
    requires TotalPreorder(leq) && multiset(a) == multiset(b) && TieFree(leq, a)
    ensures Sort(leq, a) == Sort(leq, b)
  {
    SortSorted(leq, a);
    SortSorted(leq, b);
    SameMembers(a, Sort(leq, a));
    SortedUnique(leq, Sort(leq, a), Sort(leq, b));
  }

  lemma {:induction false} SortedIsFixed<T(!new)>(leq: (T, T) -> bool, s: seq<T>)
    requires TotalPreorder(leq) && Sorted(leq, s)
    ensures Sort(leq, s) == s
  {
    if s != [] {
      assert Sorted(leq, s[1..]);
      SortedIsFixed(leq, s[1..]);
      assert |s| == 1 || leq(s[0], s[1]);
    }
  }

  /** With a tie between two different elements the input order shows in the result. */
  lemma TieShowsOrder<T(!new)>(leq: (T, T) -> bool, x: T, y: T)
    requires TotalPreorder(leq) && x != y && leq(x, y) && leq(y, x)
    ensures Sort(leq, [x, y]) == [x, y] && Sort(leq, [y, x]) == [y, x]
  {
    assert Sorted(leq, [x, y]) && Sorted(leq, [y, x]);
    SortedIsFixed(leq, [x, y]);
    SortedIsFixed(leq, [y, x]);
  }

  /** The elements of `s` satisfying `keep`, in order. */
  function Filter<T(!new)>(keep: T -> bool, s: seq<T>): (r: seq<T>)
    ensures forall x :: x in r <==> x in s && keep(x)
  {
    if s == [] then []
    else
      assert s == [s[0]] + s[1..];
      (if keep(s[0]) then [s[0]] else []) + Filter(keep, s[1..])
  }

  lemma {:induction false} FilterMultiset<T(!new)>(keep: T -> bool, s: seq<T>, x: T)
    ensures multiset(Filter(keep, s))[x] == if keep(x) then multiset(s)[x] else 0
  {
    if s != [] {
      assert s == [s[0]] + s[1..];
      FilterMultiset(keep, s[1..], x);
    }
  }

  lemma FilterPermutation<T(!new)>(keep: T -> bool, a: seq<T>, b: seq<T>)
    requires multiset(a) == multiset(b)
    ensures multiset(Filter(keep, a)) == multiset(Filter(keep, b))
  {
    forall x ensures multiset(Filter(keep, a))[x] == multiset(Filter(keep, b))[x] {
      FilterMultiset(keep, a, x);
      FilterMultiset(keep, b, x);
    }
  }

  function Without<T>(s: seq<T>, k: nat): (r: seq<T>)
    requires k < |s|
    ensures |r| == |s| - 1
    ensures forall j :: 0 <= j < |r| ==> r[j] == if j < k then s[j] else s[j + 1]
  {
    s[..k] + s[k + 1..]
  }

  lemma WithoutMultiset<T>(s: seq<T>, k: nat)
    requires k < |s|
    ensures multiset(s) == multiset{s[k]} + multiset(Without(s, k))
  {
    assert s == s[..k] + [s[k]] + s[k + 1..];
  }

  /** Pairs the first element of `a` with one of its occurrences in the permutation `b`. */
  lemma MatchHead<T>(a: seq<T>, b: seq<T>) returns (k: nat)
    requires multiset(a) == multiset(b) && a != []
    ensures k < |b| && b[k] == a[0] && multiset(a[1..]) == multiset(Without(b, k))
  {
    SameMembers(a, b);
    assert a[0] in a && a[0] in b;
    k :| 0 <= k < |b| && b[k] == a[0];
    assert a == [a[0]] + a[1..];
    assert multiset(a[1..]) == multiset(a) - multiset{a[0]};
    WithoutMultiset(b, k);
    assert multiset(Without(b, k)) == multiset(b) - multiset{b[k]};
  }

  ghost predicate Distinct<T>(s: seq<T>) {
    forall i, j :: 0 <= i < j < |s| ==> s[i] != s[j]
  }

  lemma CountedOnceIsDistinct<T(!new)>(s: seq<T>)
    requires forall x :: multiset(s)[x] <= 1
    ensures Distinct(s)
  {
    forall i, j | 0 <= i < j < |s| ensures s[i] != s[j] {
      assert s == s[..j] + s[j..];
      assert multiset(s)[s[i]] == multiset(s[..j])[s[i]] + multiset(s[j..])[s[i]];
      assert s[i] in s[..j];
      assert s[j] in s[j..];
    }
  }

  lemma {:induction false} DistinctIsCountedOnce<T(!new)>(s: seq<T>, x: T)
    requires Distinct(s)
    ensures multiset(s)[x] <= 1
  {
    if s != [] {
      var n := |s| - 1;
      assert s == s[..n] + [s[n]];
      DistinctIsCountedOnce(s[..n], x);
      if s[n] == x { assert x !in s[..n]; }
    }
  }

  /** Selecting and sorting distinct elements neither repeats nor invents any. */
  lemma SelectionIsDistinct<T(!new)>(leq: (T, T) -> bool, keep: T -> bool, s: seq<T>)
    requires Distinct(s)
    ensures Distinct(Sort(leq, Filter(keep, s)))
    ensures forall x :: x in Sort(leq, Filter(keep, s)) <==> x in s && keep(x)
  {
    var filtered := Filter(keep, s);
    forall x ensures multiset(filtered)[x] <= 1 {
      FilterMultiset(keep, s, x);
      DistinctIsCountedOnce(s, x);
    }
    SameMembers(Sort(leq, filtered), filtered);
    CountedOnceIsDistinct(Sort(leq, filtered));
  }

  /** A set that maps one-to-one into the numbers below a bound is no larger than the bound. */
  lemma {:induction false} OneToOneBound<T>(ids: set<T>, f: T -> int, bound: nat)
    requires forall i :: i in ids ==> 0 <= f(i) < bound
    requires forall i, j :: i in ids && j in ids && i != j ==> f(i) != f(j)
    ensures |ids| <= bound
    decreases bound
  {
    if ids != {} {
      if i :| i in ids && f(i) == bound - 1 {
        OneToOneBound(ids - {i}, f, bound - 1);
      } else {
        var j :| j in ids;
        assert 0 <= f(j) < bound - 1;
        OneToOneBound(ids, f, bound - 1);
      }
    }
  }
}
