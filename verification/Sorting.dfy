/**
 The stable sort of Rust's slices (`sort`, `sort_by_key`), as far as its contract goes.
 */
module Sorting {

  function Insert<T>(x: T, s: seq<T>, key: T -> int): (r: seq<T>) {
    if s == [] || key(x) <= key(s[0]) then [x] + s else [s[0]] + Insert(x, s[1..], key)
  }

  function Sort<T>(s: seq<T>, key: T -> int): (r: seq<T>) {
    if s == [] then [] else Insert(s[0], Sort(s[1..], key), key)
  }

  ghost predicate Sorted<T>(s: seq<T>, key: T -> int) {
    forall i, j :: 0 <= i < j < |s| ==> key(s[i]) <= key(s[j])
  }

  /** The elements with one key, in order. */
  ghost function Class<T>(s: seq<T>, key: T -> int, k: int): (r: seq<T>) {
    if s == [] then [] else (if key(s[0]) == k then [s[0]] else []) + Class(s[1..], key, k)
  }

  /** Equal keys keep their relative order, and no element is gained or lost. */
  ghost predicate SameClasses<T(!new)>(s: seq<T>, t: seq<T>, key: T -> int) {
    forall k :: Class(s, key, k) == Class(t, key, k)
  }

  lemma {:induction false} InsertPermutes<T>(x: T, s: seq<T>, key: T -> int)
    ensures multiset(Insert(x, s, key)) == multiset{x} + multiset(s)
  {
    if s != [] && key(x) > key(s[0]) {
      InsertPermutes(x, s[1..], key);
      assert s == [s[0]] + s[1..];
    }
  }

  /** The head is no larger than anything behind it, and the rest is sorted. */
  lemma SortedCons<T>(x: T, s: seq<T>, key: T -> int)
    requires Sorted(s, key) && forall y :: y in s ==> key(x) <= key(y)
    ensures Sorted([x] + s, key)
  {
  }

  lemma {:induction false} InsertSorted<T>(x: T, s: seq<T>, key: T -> int)
    requires Sorted(s, key)
    ensures Sorted(Insert(x, s, key), key)
  {
    if s == [] || key(x) <= key(s[0]) {
      SortedCons(x, s, key);
    } else {
      var tail := Insert(x, s[1..], key);
      InsertSorted(x, s[1..], key);
      InsertPermutes(x, s[1..], key);
      forall y | y in tail ensures key(s[0]) <= key(y) {
        assert y in multiset(tail);
      }
      SortedCons(s[0], tail, key);
    }
  }

  lemma ClassCons<T>(x: T, s: seq<T>, key: T -> int, k: int)
    ensures Class([x] + s, key, k) == (if key(x) == k then [x] else []) + Class(s, key, k)
  {
    assert ([x] + s)[1..] == s;
  }

  lemma {:induction false} InsertClass<T>(x: T, s: seq<T>, key: T -> int, k: int)
    ensures Class(Insert(x, s, key), key, k) == Class([x] + s, key, k)
  {
    if s != [] && key(x) > key(s[0]) {
      InsertClass(x, s[1..], key, k);
      ClassCons(s[0], Insert(x, s[1..], key), key, k);
      ClassCons(x, s[1..], key, k);
      ClassCons(x, s, key, k);
    }
  }

  lemma {:induction false} SortCorrect<T(!new)>(s: seq<T>, key: T -> int)
    ensures Sorted(Sort(s, key), key)
    ensures multiset(Sort(s, key)) == multiset(s)
    ensures SameClasses(Sort(s, key), s, key)
  {
    if s != [] {
      var rest := Sort(s[1..], key);
      SortCorrect(s[1..], key);
      InsertSorted(s[0], rest, key);
      InsertPermutes(s[0], rest, key);
      assert s == [s[0]] + s[1..];
      forall k ensures Class(Sort(s, key), key, k) == Class(s, key, k) {
        InsertClass(s[0], rest, key, k);
        ClassCons(s[0], rest, key, k);
        assert Class(rest, key, k) == Class(s[1..], key, k);
      }
    }
  }

  lemma {:induction false} ClassMembers<T>(s: seq<T>, key: T -> int, k: int, x: T)
    requires x in Class(s, key, k)
    ensures key(x) == k && exists i :: 0 <= i < |s| && s[i] == x
  {
    if x != s[0] || key(s[0]) != k {
      ClassMembers(s[1..], key, k, x);
      var i :| 0 <= i < |s[1..]| && s[1..][i] == x;
      assert s[i + 1] == x;
    }
  }

  lemma {:induction false} MemberOfClass<T>(s: seq<T>, key: T -> int, i: nat)
    requires i < |s|
    ensures s[i] in Class(s, key, key(s[i]))
  {
    if i > 0 {
      MemberOfClass(s[1..], key, i - 1);
    }
  }

  lemma TailClass<T>(s: seq<T>, key: T -> int, k: int)
    requires s != []
    ensures |Class(s, key, k)| >= if key(s[0]) == k then 1 else 0
    ensures Class(s[1..], key, k) == Class(s, key, k)[if key(s[0]) == k then 1 else 0..]
  {
  }

  /** A sorted list with given classes is unique, so the three facts above determine the sort. */
  lemma {:induction false} SortedUnique<T(!new)>(s: seq<T>, t: seq<T>, key: T -> int)
    requires Sorted(s, key) && Sorted(t, key) && SameClasses(s, t, key)
    ensures s == t
  {
    if s == [] {
      if t != [] {
        MemberOfClass(t, key, 0);
      }
    } else {
      SameHead(s, t, key);
      forall k ensures Class(s[1..], key, k) == Class(t[1..], key, k) {
        assert Class(s, key, k) == Class(t, key, k);
        TailClass(s, key, k);
        TailClass(t, key, k);
      }
      SortedUnique(s[1..], t[1..], key);
      assert s == [s[0]] + s[1..] && t == [t[0]] + t[1..];
    }
  }

  /** The head of a sorted list has the least key of all. */
  lemma HeadIsLeast<T(!new)>(s: seq<T>, t: seq<T>, key: T -> int)
    requires Sorted(s, key) && SameClasses(s, t, key) && t != []
    ensures s != [] && key(s[0]) <= key(t[0])
  {
    MemberOfClass(t, key, 0);
    assert Class(s, key, key(t[0])) == Class(t, key, key(t[0]));
    ClassMembers(s, key, key(t[0]), t[0]);
  }

  lemma SameHead<T(!new)>(s: seq<T>, t: seq<T>, key: T -> int)
    requires Sorted(s, key) && Sorted(t, key) && SameClasses(s, t, key) && s != []
    ensures t != [] && s[0] == t[0]
  {
    HeadIsLeast(t, s, key);
    HeadIsLeast(s, t, key);
    var k := key(s[0]);
    assert Class(s, key, k) == Class(t, key, k);
    assert Class(s, key, k)[0] == s[0] && Class(t, key, k)[0] == t[0];
  }

  /** The sort is the only stable reordering by ascending key. */
  lemma SortIsTheStableSort<T(!new)>(s: seq<T>, t: seq<T>, key: T -> int)
    ensures t == Sort(s, key) <==> Sorted(t, key) && SameClasses(t, s, key)
  {
    SortCorrect(s, key);
    if Sorted(t, key) && SameClasses(t, s, key) {
      SortedUnique(t, Sort(s, key), key);
    }
  }
}
