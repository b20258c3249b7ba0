/** The stable sort of the host languages, as a function: ascending by an integer key, equal keys
    in their given order. */
module Sorting {

  function Insert<T>(x: T, s: seq<T>, key: T -> int): seq<T> {
    if s == [] || key(x) <= key(s[0]) then [x] + s
    else [s[0]] + Insert(x, s[1..], key)
  }

  function SortBy<T>(s: seq<T>, key: T -> int): seq<T> {
    if s == [] then [] else Insert(s[0], SortBy(s[1..], key), key)
  }

  predicate IsSortedBy<T>(s: seq<T>, key: T -> int) {
    forall i, j :: 0 <= i < j < |s| ==> key(s[i]) <= key(s[j])
  }

  function WithKey<T>(s: seq<T>, key: T -> int, v: int): seq<T> {
    if s == [] then []
    else (if key(s[0]) == v then [s[0]] else []) + WithKey(s[1..], key, v)
  }

  lemma {:induction false} InsertKeepsElements<T>(x: T, s: seq<T>, key: T -> int)
    ensures multiset(Insert(x, s, key)) == multiset(s) + multiset{x}
  {
    if s != [] && key(x) > key(s[0]) {
      InsertKeepsElements(x, s[1..], key);
      assert s == [s[0]] + s[1..];
    }
  }

  lemma {:induction false} InsertSorts<T>(x: T, s: seq<T>, key: T -> int)
    requires IsSortedBy(s, key)
    ensures IsSortedBy(Insert(x, s, key), key)
  {
    if s != [] && key(x) > key(s[0]) {
      var t := Insert(x, s[1..], key);
      InsertSorts(x, s[1..], key);
      InsertKeepsElements(x, s[1..], key);
      forall y | y in t ensures key(s[0]) <= key(y) {
        assert y in multiset(t);
        assert y == x || y in s[1..];
      }
      hide Insert;
      SortedCons(s[0], t, key);
    }
  }

  lemma SortedCons<T>(x: T, s: seq<T>, key: T -> int)
    requires IsSortedBy(s, key) && forall y <- s :: key(x) <= key(y)
    ensures IsSortedBy([x] + s, key)
  {
  }

  lemma {:induction false} InsertKeepsOrder<T>(x: T, s: seq<T>, key: T -> int, v: int)
    ensures WithKey(Insert(x, s, key), key, v) == (if key(x) == v then [x] else []) + WithKey(s, key, v)
  {
    WithKeyFront(x, s, key, v);
    if s != [] && key(x) > key(s[0]) {
      var t := Insert(x, s[1..], key);
      InsertKeepsOrder(x, s[1..], key, v);
      WithKeyFront(s[0], t, key, v);
      assert key(s[0]) == v ==> WithKey(s[1..], key, v) == WithKey(t, key, v);
    }
  }

  lemma WithKeyFront<T>(x: T, s: seq<T>, key: T -> int, v: int)
    ensures WithKey([x] + s, key, v) == (if key(x) == v then [x] else []) + WithKey(s, key, v)
  {
    assert ([x] + s)[1..] == s;
  }

  /** The result is in order, holds the same elements, and equal keys keep their order. */
  lemma {:induction false} SortByIsStableSort<T>(s: seq<T>, key: T -> int)
    ensures IsSortedBy(SortBy(s, key), key)
    ensures multiset(SortBy(s, key)) == multiset(s)
    ensures forall v :: WithKey(SortBy(s, key), key, v) == WithKey(s, key, v)
  {
    if s == [] {
    } else {
      SortByIsStableSort(s[1..], key);
      var t := SortBy(s[1..], key);
      InsertSorts(s[0], t, key);
      InsertKeepsElements(s[0], t, key);
      forall v ensures WithKey(Insert(s[0], t, key), key, v) == WithKey(s, key, v) {
        InsertKeepsOrder(s[0], t, key, v);
      }
      assert s == [s[0]] + s[1..];
    }
  }

  lemma SortByElements<T>(s: seq<T>, key: T -> int)
    ensures |SortBy(s, key)| == |s|
    ensures forall x :: x in SortBy(s, key) <==> x in s
  {
    SortByIsStableSort(s, key);
    assert |multiset(SortBy(s, key))| == |multiset(s)|;
    forall x ensures x in SortBy(s, key) <==> x in s {
      assert x in multiset(SortBy(s, key)) <==> x in multiset(s);
    }
  }

  lemma {:induction false} SortedStaysPut<T>(s: seq<T>, key: T -> int)
    requires IsSortedBy(s, key)
    ensures SortBy(s, key) == s
  {
    if s == [] {
    } else {
      SortedStaysPut(s[1..], key);
    }
  }

  // ---------- keys first, ranks among equal keys ----------

  ghost predicate Precedes<T(!new)>(x: T, y: T, key: T -> int, rank: T -> int) {
    key(x) < key(y) || (key(x) == key(y) && rank(x) < rank(y))
  }

  ghost predicate IsRankedBy<T(!new)>(s: seq<T>, key: T -> int, rank: T -> int) {
    forall i, j :: 0 <= i < j < |s| ==> Precedes(s[i], s[j], key, rank)
  }

  lemma RankedCons<T(!new)>(x: T, s: seq<T>, key: T -> int, rank: T -> int)
    requires IsRankedBy(s, key, rank) && forall y <- s :: Precedes(x, y, key, rank)
    ensures IsRankedBy([x] + s, key, rank)
  {
  }

  lemma {:induction false} InsertKeepsRanks<T(!new)>(x: T, s: seq<T>, key: T -> int, rank: T -> int)
    requires IsRankedBy(s, key, rank) && forall y <- s :: rank(x) < rank(y)
    ensures IsRankedBy(Insert(x, s, key), key, rank)
  {
    if s != [] && key(x) > key(s[0]) {
      var t := Insert(x, s[1..], key);
      InsertKeepsRanks(x, s[1..], key, rank);
      InsertKeepsElements(x, s[1..], key);
      forall y | y in t ensures Precedes(s[0], y, key, rank) {
        assert y in multiset(t);
        assert y == x || y in s[1..];
      }
      RankedCons(s[0], t, key, rank);
    } else if s != [] {
      forall y | y in s ensures Precedes(x, y, key, rank) {
        assert y == s[0] || Precedes(s[0], y, key, rank);
      }
      RankedCons(x, s, key, rank);
    }
  }

  /** Sorting elements that are given in the order of their ranks. */
  lemma {:induction false} SortByKeepsRanks<T(!new)>(s: seq<T>, key: T -> int, rank: T -> int)
    requires forall i, j :: 0 <= i < j < |s| ==> rank(s[i]) < rank(s[j])
    ensures IsRankedBy(SortBy(s, key), key, rank)
  {
    if s == [] {
    } else {
      var t := s[1..];
      SortByKeepsRanks(t, key, rank);
      SortByElements(t, key);
      forall y | y in t ensures rank(s[0]) < rank(y) {
        var i :| 0 <= i < |t| && t[i] == y;
        assert s[i + 1] == y;
      }
      InsertKeepsRanks(s[0], SortBy(t, key), key, rank);
    }
  }

  /** There is one ranked list of given elements. */
  lemma {:induction false} RankedIsUnique<T(!new)>(s: seq<T>, t: seq<T>, key: T -> int, rank: T -> int)
    requires IsRankedBy(s, key, rank) && IsRankedBy(t, key, rank)
    requires forall x :: x in s <==> x in t
    ensures s == t
  {
    assert s != [] ==> s[0] in t;
    assert t != [] ==> t[0] in s;
    if s == [] {
    } else {
      assert s[0] == t[0];
      forall x ensures x in s[1..] <==> x in t[1..] {
        assert x in s <==> x == s[0] || x in s[1..];
        assert x in t <==> x == t[0] || x in t[1..];
        assert s[0] !in s[1..] && t[0] !in t[1..];
      }
      RankedIsUnique(s[1..], t[1..], key, rank);
    }
  }
}
