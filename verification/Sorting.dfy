/** Sorting into the one strictly increasing list of a collection's distinct elements. */
module Sorting {

  ghost predicate StrictOrder<T(!new)>(before: (T, T) -> bool) {
    && (forall x :: !before(x, x))
    && (forall x, y :: x != y ==> before(x, y) || before(y, x))
    && forall x, y, z :: before(x, y) && before(y, z) ==> before(x, z)
  }

  predicate Sorted<T>(s: seq<T>, before: (T, T) -> bool) {
    forall i, j | 0 <= i < j < |s| :: before(s[i], s[j])
  }

  predicate Distinct<T(==)>(s: seq<T>) {
    forall i, j | 0 <= i < j < |s| :: s[i] != s[j]
  }

  function Elements<T>(s: seq<T>): set<T> {
    set x | x in s
  }

  function Insert<T(==)>(x: T, s: seq<T>, before: (T, T) -> bool): seq<T> {
    if s == [] then [x]
    else if s[0] == x then s
    else if before(x, s[0]) then [x] + s
    else [s[0]] + Insert(x, s[1..], before)
  }

  /** The elements of `s` in order, each once. */
  function SortUnique<T(==)>(s: seq<T>, before: (T, T) -> bool): seq<T> {
    if s == [] then [] else Insert(s[0], SortUnique(s[1..], before), before)
  }

  lemma {:induction false} InsertElements<T>(x: T, s: seq<T>, before: (T, T) -> bool)
    ensures forall y :: y in Insert(x, s, before) <==> y == x || y in s
  {
    if s != [] && s[0] != x && !before(x, s[0]) {
      InsertElements(x, s[1..], before);
    }
  }

  lemma {:induction false} InsertSorted<T(!new)>(x: T, s: seq<T>, before: (T, T) -> bool)
    requires StrictOrder(before) && Sorted(s, before)
    ensures Sorted(Insert(x, s, before), before)
  {
    if s != [] && s[0] != x && !before(x, s[0]) {
      InsertSorted(x, s[1..], before);
      InsertElements(x, s[1..], before);
      var r := Insert(x, s[1..], before);
      forall j | 0 <= j < |r|
        ensures before(s[0], r[j])
      {
        assert r[j] in r;
      }
    }
  }

  lemma {:induction false} SortUniqueIsSorted<T(!new)>(s: seq<T>, before: (T, T) -> bool)
    requires StrictOrder(before)
    ensures Sorted(SortUnique(s, before), before)
    ensures forall y :: y in SortUnique(s, before) <==> y in s
  {
    if s != [] {
      SortUniqueIsSorted(s[1..], before);
      InsertSorted(s[0], SortUnique(s[1..], before), before);
      InsertElements(s[0], SortUnique(s[1..], before), before);
    }
  }

  lemma SortedIsDistinct<T(!new)>(s: seq<T>, before: (T, T) -> bool)
    requires StrictOrder(before) && Sorted(s, before)
    ensures Distinct(s)
  {
  }

  lemma TailElements<T(!new)>(s: seq<T>, x: T, before: (T, T) -> bool)
    requires StrictOrder(before) && Sorted(s, before) && s != []
    ensures x in s[1..] <==> x in s && x != s[0]
  {
    if x in s && x != s[0] {
      var i :| 0 <= i < |s| && s[i] == x;
      assert s[1..][i - 1] == x;
    }
  }

  /** A strictly increasing list is determined by its elements. */
  lemma {:induction false} SortedIsUnique<T(!new)>(a: seq<T>, b: seq<T>, before: (T, T) -> bool)
    requires StrictOrder(before) && Sorted(a, before) && Sorted(b, before)
    requires forall x :: x in a <==> x in b
    ensures a == b
    decreases |a|
  {
    assert a != [] ==> a[0] in b;
    assert b != [] ==> b[0] in a;
    if a != [] {
      assert a[0] == b[0];
      forall x
        ensures x in a[1..] <==> x in b[1..]
      {
        TailElements(a, x, before);
        TailElements(b, x, before);
      }
      SortedIsUnique(a[1..], b[1..], before);
    }
  }

  /** Sorting forgets the order and the repetitions of its input. */
  lemma SortUniqueForgetsOrder<T(!new)>(s: seq<T>, t: seq<T>, before: (T, T) -> bool)
    requires StrictOrder(before) && forall x :: x in s <==> x in t
    ensures SortUnique(s, before) == SortUnique(t, before)
  {
    SortUniqueIsSorted(s, before);
    SortUniqueIsSorted(t, before);
    SortedIsUnique(SortUnique(s, before), SortUnique(t, before), before);
  }

  lemma {:induction false} DistinctCount<T>(s: seq<T>)
    ensures |Elements(s)| <= |s|
    ensures |Elements(s)| == |s| <==> Distinct(s)
  {
    if s != [] {
      var n := |s| - 1;
      var init := s[..n];
      DistinctCount(init);
      assert Elements(s) == Elements(init) + {s[n]};
      if s[n] in init {
        assert Elements(s) == Elements(init);
        assert !Distinct(s);
      } else {
        assert s[n] !in Elements(init);
        assert Distinct(s) <==> Distinct(init);
      }
    }
  }
}
