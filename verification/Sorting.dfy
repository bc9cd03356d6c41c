/**
 Go's `sort` package by what it promises. `SortSlice` is opaque to its callers beyond
 "some sorted permutation", so whatever is proved from its contract holds for every
 result an unstable sort may produce.
 */
module Sorting {
  /** What `sort.Slice` asks of its `less` argument. */
  ghost predicate StrictWeakOrder<T(!new)>(less: (T, T) -> bool) {
    && (forall a :: !less(a, a))
    && (forall a, b, c :: less(a, b) && less(b, c) ==> less(a, c))
    && (forall a, b, c :: !less(a, b) && !less(b, c) ==> !less(a, c))
  }

  ghost predicate Sorted<T>(less: (T, T) -> bool, s: seq<T>) {
    forall i, j :: 0 <= i < j < |s| ==> !less(s[j], s[i])
  }

  /** Places `x` behind every element that is not greater. */
  function Insert<T>(less: (T, T) -> bool, s: seq<T>, x: T): seq<T> {
    if s == [] || less(x, s[0]) then [x] + s else [s[0]] + Insert(less, s[1..], x)
  }

  function StableSort<T>(less: (T, T) -> bool, s: seq<T>): seq<T> {
    if s == [] then [] else Insert(less, StableSort(less, s[..|s| - 1]), s[|s| - 1])
  }

  /** The elements of `s` that `less` cannot tell from `x`, in order. */
  function Ties<T>(less: (T, T) -> bool, s: seq<T>, x: T): seq<T> {
    if s == [] then []
    else (if !less(s[0], x) && !less(x, s[0]) then [s[0]] else []) + Ties(less, s[1..], x)
  }

  lemma {:induction false} InsertPermutes<T>(less: (T, T) -> bool, s: seq<T>, x: T)
    ensures multiset(Insert(less, s, x)) == multiset(s) + multiset{x}
  {
    if s != [] && !less(x, s[0]) {
      InsertPermutes(less, s[1..], x);
      assert s == [s[0]] + s[1..];
    }
  }

  lemma {:induction false} InsertSorts<T(!new)>(less: (T, T) -> bool, s: seq<T>, x: T)
    requires StrictWeakOrder(less) && Sorted(less, s)
    ensures Sorted(less, Insert(less, s, x))
  {
    if s != [] && !less(x, s[0]) {
      InsertSorts(less, s[1..], x);
      InsertPermutes(less, s[1..], x);
      var r := Insert(less, s[1..], x);
      forall y | y in r ensures !less(y, s[0]) {
        assert y in multiset(r);
        assert y == x || y in s[1..];
      }
    }
  }

  lemma {:induction false} TiesAppend<T>(less: (T, T) -> bool, s: seq<T>, t: seq<T>, x: T)
    ensures Ties(less, s + t, x) == Ties(less, s, x) + Ties(less, t, x)
  {
    if s == [] {
      assert s + t == t;
    } else {
      assert (s + t)[1..] == s[1..] + t;
      TiesAppend(less, s[1..], t, x);
    }
  }

  lemma {:induction false} NoTies<T>(less: (T, T) -> bool, s: seq<T>, x: T)
    requires forall y :: y in s ==> less(x, y)
    ensures Ties(less, s, x) == []
  {
    if s != [] {
      NoTies(less, s[1..], x);
    }
  }

  lemma AllBehind<T(!new)>(less: (T, T) -> bool, s: seq<T>, x: T, y: T)
    requires StrictWeakOrder(less) && Sorted(less, s)
    requires s != [] && less(x, s[0]) && !less(x, y)
    ensures forall z :: z in s ==> less(y, z)
  {
  }

  lemma TiesOne<T>(less: (T, T) -> bool, x: T, y: T)
    ensures Ties(less, [x], y) == if !less(x, y) && !less(y, x) then [x] else []
  {
    assert Ties(less, [x][1..], y) == [];
  }

  /** Putting `x` in front of a sorted sequence that is all behind it. */
  lemma TiesInFront<T(!new)>(less: (T, T) -> bool, s: seq<T>, x: T, y: T)
    requires StrictWeakOrder(less) && Sorted(less, s) && s != [] && less(x, s[0])
    ensures Ties(less, [x] + s, y) == Ties(less, s, y) + Ties(less, [x], y)
  {
    TiesAppend(less, [x], s, y);
    TiesOne(less, x, y);
    if !less(x, y) && !less(y, x) {
      AllBehind(less, s, x, y);
      NoTies(less, s, y);
    }
  }

  lemma {:induction false} InsertKeepsTies<T(!new)>(less: (T, T) -> bool, s: seq<T>, x: T, y: T)
    requires StrictWeakOrder(less) && Sorted(less, s)
    ensures Ties(less, Insert(less, s, x), y) == Ties(less, s, y) + Ties(less, [x], y)
  {
    hide StrictWeakOrder;
    if s == [] {
      assert Insert(less, s, x) == [x];
    } else if less(x, s[0]) {
      TiesInFront(less, s, x, y);
    } else {
      var first, rest := s[0], s[1..];
      InsertKeepsTies(less, rest, x, y);
      hide Sorted;
      TiesAppend(less, [first], Insert(less, rest, x), y);
      TiesAppend(less, [first], rest, y);
      assert s == [first] + rest;
      hide Ties;
    }
  }

  /** `StableSort` sorts, permutes, and keeps equal elements in their order. */
  lemma {:induction false} StableSortIsStable<T(!new)>(less: (T, T) -> bool, s: seq<T>)
    requires StrictWeakOrder(less)
    ensures Sorted(less, StableSort(less, s))
    ensures multiset(StableSort(less, s)) == multiset(s)
    ensures forall x :: Ties(less, StableSort(less, s), x) == Ties(less, s, x)
  {
    if s != [] {
      var init, last := s[..|s| - 1], s[|s| - 1];
      StableSortIsStable(less, init);
      InsertSorts(less, StableSort(less, init), last);
      InsertPermutes(less, StableSort(less, init), last);
      assert s == init + [last];
      forall x ensures Ties(less, StableSort(less, s), x) == Ties(less, s, x) {
        InsertKeepsTies(less, StableSort(less, init), last, x);
        TiesAppend(less, init, [last], x);
      }
    }
  }

  /** `sort.Slice`: callers learn that the result is a sorted permutation and no more. */
  method SortSlice<T(!new)>(s: seq<T>, less: (T, T) -> bool) returns (r: seq<T>)
    requires StrictWeakOrder(less)
    ensures Sorted(less, r)
    ensures multiset(r) == multiset(s)
  {
    r := [];
    for i := 0 to |s|
      invariant Sorted(less, r) && multiset(r) == multiset(s[..i])
    {
      InsertSorts(less, r, s[i]);
      InsertPermutes(less, r, s[i]);
      assert s[..i + 1] == s[..i] + [s[i]];
      r := Insert(less, r, s[i]);
    }
    assert s[..|s|] == s;
  }

  /** `sort.SliceStable`. */
  method SliceStable<T(!new)>(s: seq<T>, less: (T, T) -> bool) returns (r: seq<T>)
    requires StrictWeakOrder(less)
    ensures r == StableSort(less, s)
  {
    r := [];
    for i := 0 to |s|
      invariant r == StableSort(less, s[..i])
    {
      assert s[..i + 1][..i] == s[..i] && s[..i + 1][i] == s[i];
      r := Insert(less, r, s[i]);
    }
    assert s[..|s|] == s;
  }
}
