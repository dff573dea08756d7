/**
 The stable library sort the source calls (`sort_by`, `sort_by_key`), as a function over an
 arbitrary "may stand before" relation, and the facts that pin its result down.
 */
module Sorting {
  import opened Prelude

  ghost predicate TotalPreorder<T(!new)>(le: (T, T) -> bool) {
    && (forall a, b :: le(a, b) || le(b, a))
    && (forall a, b, c :: le(a, b) && le(b, c) ==> le(a, c))
  }

  ghost predicate TotalOrder<T(!new)>(le: (T, T) -> bool) {
    TotalPreorder(le) && forall a, b :: le(a, b) && le(b, a) ==> a == b
  }

  ghost predicate Sorted<T>(xs: seq<T>, le: (T, T) -> bool) {
    forall i, j :: 0 <= i < j < |xs| ==> le(xs[i], xs[j])
  }

  /** Puts `x`, which stood before all of `ys`, in front of the first element it may precede. */
  function Insert<T>(x: T, ys: seq<T>, le: (T, T) -> bool): seq<T> {
    if ys == [] || le(x, ys[0]) then [x] + ys else [ys[0]] + Insert(x, ys[1..], le)
  }

  function StableSort<T>(xs: seq<T>, le: (T, T) -> bool): seq<T> {
    if xs == [] then [] else Insert(xs[0], StableSort(xs[1..], le), le)
  }

  lemma {:induction false} InsertSorts<T(!new)>(x: T, ys: seq<T>, le: (T, T) -> bool)
    requires TotalPreorder(le) && Sorted(ys, le)
    ensures Sorted(Insert(x, ys, le), le)
    ensures multiset(Insert(x, ys, le)) == multiset{x} + multiset(ys)
  {
    if ys == [] || le(x, ys[0]) {
      assert forall j | 0 <= j < |ys| :: le(x, ys[j]);
    } else {
      assert le(ys[0], x) && forall j :: 0 <= j < |ys| - 1 ==> ys[1..][j] == ys[j + 1];
      InsertSorts(x, ys[1..], le);
      InsertedAbove(ys[0], x, ys[1..], Insert(x, ys[1..], le), le);
      assert ys == [ys[0]] + ys[1..];
    }
  }

  lemma InsertedAbove<T(!new)>(y: T, x: T, ys: seq<T>, rest: seq<T>, le: (T, T) -> bool)
    requires le(y, x) && (forall j :: 0 <= j < |ys| ==> le(y, ys[j])) && Sorted(rest, le)
    requires multiset(rest) == multiset{x} + multiset(ys)
    ensures Sorted([y] + rest, le)
  {
    forall j | 0 <= j < |rest|
      ensures le(y, rest[j])
    {
      assert rest[j] in multiset(rest);
      if rest[j] != x {
        assert rest[j] in ys;
      }
    }
  }

  lemma {:induction false} SortSorts<T(!new)>(xs: seq<T>, le: (T, T) -> bool)
    requires TotalPreorder(le)
    ensures Sorted(StableSort(xs, le), le)
    ensures multiset(StableSort(xs, le)) == multiset(xs)
    ensures |StableSort(xs, le)| == |xs|
  {
    if xs != [] {
      SortSorts(xs[1..], le);
      InsertSorts(xs[0], StableSort(xs[1..], le), le);
      assert xs == [xs[0]] + xs[1..];
    }
    assert |multiset(StableSort(xs, le))| == |multiset(xs)|;
  }

  lemma {:induction false} SortMembers<T(!new)>(xs: seq<T>, le: (T, T) -> bool)
    requires TotalPreorder(le)
    ensures forall x :: x in StableSort(xs, le) <==> x in xs
  {
    SortSorts(xs, le);
    forall x
      ensures x in StableSort(xs, le) <==> x in xs
    {
      assert x in multiset(StableSort(xs, le)) <==> x in multiset(xs);
    }
  }

  lemma {:induction false} SortOfSorted<T>(xs: seq<T>, le: (T, T) -> bool)
    requires Sorted(xs, le)
    ensures StableSort(xs, le) == xs
  {
    if xs != [] {
      SortOfSorted(xs[1..], le);
    }
  }

  /** Stability: elements that may stand on either side of each other keep their order. */
  lemma {:induction false} SortIsStable<T(!new)>(xs: seq<T>, le: (T, T) -> bool, p: T -> bool)
    requires TotalPreorder(le)
    requires forall a, b :: p(a) && p(b) ==> le(a, b)
    ensures Filter(p, StableSort(xs, le)) == Filter(p, xs)
  {
    if xs != [] {
      SortIsStable(xs[1..], le, p);
      InsertIsStable(xs[0], StableSort(xs[1..], le), le, p);
    }
  }

  lemma {:induction false} InsertIsStable<T(!new)>(x: T, ys: seq<T>, le: (T, T) -> bool, p: T -> bool)
    requires forall a, b :: p(a) && p(b) ==> le(a, b)
    ensures Filter(p, Insert(x, ys, le)) == Filter(p, [x] + ys)
  {
    assert ([x] + ys)[1..] == ys;
    if ys != [] && !le(x, ys[0]) {
      InsertIsStable(x, ys[1..], le, p);
      assert ([x] + ys[1..])[1..] == ys[1..];
      assert ([ys[0]] + Insert(x, ys[1..], le))[1..] == Insert(x, ys[1..], le);
    }
  }

  lemma Uncons<T>(s: seq<T>)
    requires s != []
    ensures multiset(s[1..]) == multiset(s) - multiset{s[0]}
  {
    assert s == [s[0]] + s[1..];
  }

  lemma SameHead<T(!new)>(xs: seq<T>, ys: seq<T>, le: (T, T) -> bool)
    requires TotalOrder(le) && Sorted(xs, le) && Sorted(ys, le)
    requires xs != [] && ys != [] && multiset(xs) == multiset(ys)
    ensures xs[0] == ys[0]
  {
    var i :| 0 <= i < |ys| && ys[i] == xs[0] by { assert xs[0] in multiset(ys); }
    var j :| 0 <= j < |xs| && xs[j] == ys[0] by { assert ys[0] in multiset(xs); }
    assert i == 0 || le(ys[0], ys[i]);
    assert j == 0 || le(xs[0], xs[j]);
  }

  /** Under a total order given elements have one sorted arrangement. */
  lemma {:induction false} SortedIsUnique<T(!new)>(a: seq<T>, b: seq<T>, le: (T, T) -> bool)
    requires TotalOrder(le) && Sorted(a, le) && Sorted(b, le) && multiset(a) == multiset(b)
    ensures a == b
  {
    assert |a| == |multiset(a)| == |multiset(b)| == |b|;
    if a != [] {
      SameHead(a, b, le);
      Uncons(a);
      Uncons(b);
      SortedIsUnique(a[1..], b[1..], le);
    }
  }

  lemma {:induction false} InsertSkips<T>(x: T, a: seq<T>, b: seq<T>, le: (T, T) -> bool)
    requires forall y :: y in a ==> !le(x, y)
    ensures Insert(x, a + b, le) == a + Insert(x, b, le)
  {
    if a == [] {
      assert a + b == b;
    } else {
      assert (a + b)[0] == a[0] && (a + b)[1..] == a[1..] + b;
      InsertSkips(x, a[1..], b, le);
    }
  }

  lemma {:induction false} InsertStops<T>(x: T, a: seq<T>, b: seq<T>, le: (T, T) -> bool)
    requires b != [] ==> le(x, b[0])
    ensures Insert(x, a + b, le) == Insert(x, a, le) + b
  {
    if a == [] {
      assert a + b == b;
      assert Insert(x, b, le) == [x] + b;
    } else {
      assert (a + b)[0] == a[0] && (a + b)[1..] == a[1..] + b;
      if le(x, a[0]) {
        Regroup([], [x], a, b);
      } else {
        InsertStops(x, a[1..], b, le);
        Regroup([], [a[0]], Insert(x, a[1..], le), b);
      }
    }
  }
}
