/**
 * The stable sort behind LINQ's `OrderBy` (and `OrderByDescending`, which is
 * `OrderBy` on the negated key): an insertion sort that places each element
 * before every later element of an equal key.
 */
module Sorting {

  predicate SortedBy<T>(s: seq<T>, key: T -> int)
  {
    forall i, j :: 0 <= i < j < |s| ==> key(s[i]) <= key(s[j])
  }

  /** The elements of `s` whose key is `v`, in their order in `s`. */
  function WithKey<T>(s: seq<T>, key: T -> int, v: int): seq<T>
  {
    if s == [] then []
    else (if key(s[0]) == v then [s[0]] else []) + WithKey(s[1..], key, v)
  }

  /** Puts `x` in front of the first element whose key is not smaller. */
  function Insert<T>(x: T, s: seq<T>, key: T -> int): (r: seq<T>)
    ensures multiset(r) == multiset{x} + multiset(s)
  {
    if s == [] || key(x) <= key(s[0]) then
      [x] + s
    else
      assert s == [s[0]] + s[1..];
      [s[0]] + Insert(x, s[1..], key)
  }

  lemma {:induction false} InsertSorted<T>(x: T, s: seq<T>, key: T -> int)
    requires SortedBy(s, key)
    ensures SortedBy(Insert(x, s, key), key)
    decreases |s|
  {
    if s != [] && key(x) > key(s[0]) {
      SortedTail(s, key);
      InsertSorted(x, s[1..], key);
      var rest := Insert(x, s[1..], key);
      forall i | 0 <= i < |rest|
        ensures key(s[0]) <= key(rest[i])
      {
        InsertBound(x, s, key, rest[i]);
      }
      var r := [s[0]] + rest;
      assert r == Insert(x, s, key);
      forall i, j | 0 <= i < j < |r|
        ensures key(r[i]) <= key(r[j])
      {
        assert r[j] == rest[j - 1];
        if i > 0 {
          assert r[i] == rest[i - 1];
        }
      }
    }
  }

  /** Every element of `Insert(x, s[1..], key)` is `x` or an element of `s[1..]`, hence not below `s[0]`. */
  lemma InsertBound<T>(x: T, s: seq<T>, key: T -> int, e: T)
    requires SortedBy(s, key) && s != [] && key(x) > key(s[0])
    requires e in Insert(x, s[1..], key)
    ensures key(s[0]) <= key(e)
  {
    assert e in multiset(Insert(x, s[1..], key));
    if e != x {
      assert e in multiset(s[1..]);
      var k :| 0 <= k < |s[1..]| && s[1..][k] == e;
      assert s[k + 1] == e;
    }
  }

  function StableSort<T>(s: seq<T>, key: T -> int): (r: seq<T>)
    ensures multiset(r) == multiset(s)
    ensures SortedBy(r, key)
  {
    if s == [] then []
    else
      assert s == [s[0]] + s[1..];
      InsertSorted(s[0], StableSort(s[1..], key), key);
      Insert(s[0], StableSort(s[1..], key), key)
  }

  lemma {:induction false} InsertKeepsKeyOrder<T>(x: T, s: seq<T>, key: T -> int, v: int)
    ensures WithKey(Insert(x, s, key), key, v) == (if key(x) == v then [x] else []) + WithKey(s, key, v)
    decreases |s|
  {
    if s == [] || key(x) <= key(s[0]) {
      assert Insert(x, s, key) == [x] + s;
      assert ([x] + s)[1..] == s;
    } else {
      var rest := Insert(x, s[1..], key);
      InsertKeepsKeyOrder(x, s[1..], key, v);
      var h := if key(s[0]) == v then [s[0]] else [];
      var hx := if key(x) == v then [x] else [];
      assert ([s[0]] + rest)[1..] == rest;
      assert h == [] || hx == [];
      calc {
        WithKey(Insert(x, s, key), key, v);
        WithKey([s[0]] + rest, key, v);
        h + WithKey(rest, key, v);
        h + (hx + WithKey(s[1..], key, v));
        { assert h + hx == hx + h; }
        hx + (h + WithKey(s[1..], key, v));
        hx + WithKey(s, key, v);
      }
    }
  }

  /** Stability: the elements of any one key keep their relative order. */
  lemma {:induction false} StableSortIsStable<T>(s: seq<T>, key: T -> int, v: int)
    ensures WithKey(StableSort(s, key), key, v) == WithKey(s, key, v)
    decreases |s|
  {
    if s != [] {
      StableSortIsStable(s[1..], key, v);
      InsertKeepsKeyOrder(s[0], StableSort(s[1..], key), key, v);
    }
  }

  lemma SortedTail<T>(s: seq<T>, key: T -> int)
    requires SortedBy(s, key) && s != []
    ensures SortedBy(s[1..], key)
  {
    forall i, j | 0 <= i < j < |s| - 1
      ensures key(s[1..][i]) <= key(s[1..][j])
    {
      assert s[1..][i] == s[i + 1] && s[1..][j] == s[j + 1];
    }
  }

  lemma SortedPrefixBound<T>(s: seq<T>, key: T -> int, e: T)
    requires SortedBy(s, key) && e in s
    ensures key(s[0]) <= key(e)
  {
  }

  // ---------------------------------------------------------------- distinct elements

  predicate Distinct<T(==)>(s: seq<T>)
  {
    forall i, j :: 0 <= i < j < |s| ==> s[i] != s[j]
  }

  lemma DistinctTail<T>(s: seq<T>)
    requires Distinct(s) && s != []
    ensures Distinct(s[1..]) && s[0] !in s[1..]
  {
    forall i, j | 0 <= i < j < |s| - 1
      ensures s[1..][i] != s[1..][j]
    {
      assert s[1..][i] == s[i + 1] && s[1..][j] == s[j + 1];
    }
    forall k | 0 <= k < |s| - 1
      ensures s[1..][k] != s[0]
    {
      assert s[1..][k] == s[k + 1];
    }
  }

  lemma DistinctCons<T>(x: T, s: seq<T>)
    requires Distinct(s) && x !in s
    ensures Distinct([x] + s)
  {
    var r := [x] + s;
    forall i, j | 0 <= i < j < |r|
      ensures r[i] != r[j]
    {
      assert r[j] == s[j - 1];
      if i > 0 {
        assert r[i] == s[i - 1];
      }
    }
  }

  lemma {:induction false} InsertDistinct<T>(x: T, s: seq<T>, key: T -> int)
    requires Distinct(s) && x !in s
    ensures Distinct(Insert(x, s, key))
    decreases |s|
  {
    if s == [] || key(x) <= key(s[0]) {
      DistinctCons(x, s);
    } else {
      DistinctTail(s);
      InsertDistinct(x, s[1..], key);
      var rest := Insert(x, s[1..], key);
      assert s[0] !in multiset(s[1..]);
      assert s[0] !in multiset(rest);
      DistinctCons(s[0], rest);
    }
  }

  /** Sorting keeps the elements distinct. */
  lemma {:induction false} StableSortDistinct<T>(s: seq<T>, key: T -> int)
    requires Distinct(s)
    ensures Distinct(StableSort(s, key))
    decreases |s|
  {
    if s != [] {
      DistinctTail(s);
      StableSortDistinct(s[1..], key);
      var sorted := StableSort(s[1..], key);
      assert s[0] !in multiset(s[1..]);
      assert s[0] !in multiset(sorted);
      InsertDistinct(s[0], sorted, key);
    }
  }
}
