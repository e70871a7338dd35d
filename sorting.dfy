/**
 * `Array.prototype.sort(compare)`. Since ECMAScript 2019 the sort is stable; it is modelled as an
 * insertion sort from the back, which places each element before the first one it need not
 * follow. For a comparator derived from an integer key the result is the unique stable sorted
 * permutation (StableSortUnique), so any conforming engine gives the same array.
 */
module Sorting {

  /** Puts `x` in front of the first element `y` with `compare(x, y) <= 0` (x need not come after y). */
  function Insert<T>(x: T, s: seq<T>, compare: (T, T) -> int): (r: seq<T>)
    ensures multiset(r) == multiset(s) + multiset{x}
  {
    if s == [] then [x]
    else if compare(x, s[0]) <= 0 then [x] + s
    else
      assert s == [s[0]] + s[1..];
      [s[0]] + Insert(x, s[1..], compare)
  }

  /** `s.slice().sort(compare)`: a permutation of `s`. */
  function SortWith<T>(s: seq<T>, compare: (T, T) -> int): (r: seq<T>)
    ensures multiset(r) == multiset(s)
  {
    if s == [] then []
    else
      assert s == [s[0]] + s[1..];
      Insert(s[0], SortWith(s[1..], compare), compare)
  }

  /** Non-increasing by `key`. */
  predicate SortedDesc<T>(s: seq<T>, key: T -> int) {
    forall i, j :: 0 <= i < j < |s| ==> key(s[i]) >= key(s[j])
  }

  /** The elements of `s` whose key is `v`, in their order in `s`. */
  function Filter<T>(s: seq<T>, key: T -> int, v: int): seq<T> {
    if s == [] then [] else (if key(s[0]) == v then [s[0]] else []) + Filter(s[1..], key, v)
  }

  /** On the elements of `s`, `compare(a, b)` is `key(b) - key(a)`: sorting by `key`, descending. */
  predicate DescendingBy<T>(s: seq<T>, compare: (T, T) -> int, key: T -> int) {
    forall i, j :: 0 <= i < |s| && 0 <= j < |s| ==> compare(s[i], s[j]) == key(s[j]) - key(s[i])
  }

  /** A sequence stays sorted when an element no smaller than all of it is put in front. */
  lemma ConsSorted<T>(h: T, r: seq<T>, key: T -> int)
    requires SortedDesc(r, key)
    requires forall j :: 0 <= j < |r| ==> key(r[j]) <= key(h)
    ensures SortedDesc([h] + r, key)
  {
    var c := [h] + r;
    forall i, j | 0 <= i < j < |c| ensures key(c[i]) >= key(c[j]) {
      assert c[j] == r[j - 1];
      if i > 0 {
        assert c[i] == r[i - 1];
      }
    }
  }

  /** A bound on the keys of `x` and of `t` bounds the keys of `Insert(x, t)`. */
  lemma {:induction false} InsertBound<T>(x: T, t: seq<T>, compare: (T, T) -> int, key: T -> int, b: int)
    requires key(x) <= b
    requires forall j :: 0 <= j < |t| ==> key(t[j]) <= b
    ensures forall j :: 0 <= j < |Insert(x, t, compare)| ==> key(Insert(x, t, compare)[j]) <= b
  {
    if t != [] && compare(x, t[0]) > 0 {
      InsertBound(x, t[1..], compare, key, b);
      var rest := Insert(x, t[1..], compare);
      assert forall j :: 0 < j < |rest| + 1 ==> ([t[0]] + rest)[j] == rest[j - 1];
    } else if t != [] {
      assert forall j :: 0 < j < |t| + 1 ==> ([x] + t)[j] == t[j - 1];
    }
  }

  lemma {:induction false} InsertSorted<T>(x: T, t: seq<T>, compare: (T, T) -> int, key: T -> int)
    requires SortedDesc(t, key)
    requires forall j :: 0 <= j < |t| ==> compare(x, t[j]) == key(t[j]) - key(x)
    ensures SortedDesc(Insert(x, t, compare), key)
  {
    if t == [] {
    } else if compare(x, t[0]) <= 0 {
      ConsSorted(x, t, key);
    } else {
      var tail := t[1..];
      assert forall j :: 0 <= j < |tail| ==> tail[j] == t[j + 1];
      InsertSorted(x, tail, compare, key);
      InsertBound(x, tail, compare, key, key(t[0]));
      ConsSorted(t[0], Insert(x, tail, compare), key);
    }
  }

  lemma FilterCons<T>(h: T, r: seq<T>, key: T -> int, v: int)
    ensures Filter([h] + r, key, v) == (if key(h) == v then [h] else []) + Filter(r, key, v)
  {
    assert ([h] + r)[1..] == r;
  }

  /** Passing over an element of another key does not change what a filter keeps of `x`. */
  lemma FilterPast<T>(x: T, h: T, rest: seq<T>, tail: seq<T>, key: T -> int, v: int)
    requires key(x) != key(h)
    requires Filter(rest, key, v) == (if key(x) == v then [x] else []) + Filter(tail, key, v)
    ensures Filter([h] + rest, key, v) == (if key(x) == v then [x] else []) + Filter([h] + tail, key, v)
  {
    FilterCons(h, rest, key, v);
    FilterCons(h, tail, key, v);
  }

  /**
   * Inserting `x` into a sorted sequence puts it before every element of its own key, which is
   * what keeps equal keys in input order when the head is inserted into the sorted tail.
   */
  lemma {:induction false} InsertFilter<T>(x: T, t: seq<T>, compare: (T, T) -> int, key: T -> int, v: int)
    requires forall j :: 0 <= j < |t| ==> compare(x, t[j]) == key(t[j]) - key(x)
    ensures Filter(Insert(x, t, compare), key, v) == (if key(x) == v then [x] else []) + Filter(t, key, v)
  {
    if t == [] {
      FilterCons(x, [], key, v);
      assert [x] + [] == [x];
    } else if compare(x, t[0]) <= 0 {
      FilterCons(x, t, key, v);
    } else {
      var tail := t[1..];
      assert forall j :: 0 <= j < |tail| ==> tail[j] == t[j + 1];
      InsertFilter(x, tail, compare, key, v);
      assert t == [t[0]] + tail;
      FilterPast(x, t[0], Insert(x, tail, compare), tail, key, v);
    }
  }

  /** Sorting with a key comparator gives a non-increasing sequence that keeps equal keys in their order. */
  lemma {:induction false} SortWithSpec<T>(s: seq<T>, compare: (T, T) -> int, key: T -> int)
    requires DescendingBy(s, compare, key)
    ensures SortedDesc(SortWith(s, compare), key)
    ensures forall v :: Filter(SortWith(s, compare), key, v) == Filter(s, key, v)
  {
    if s != [] {
      var t := SortWith(s[1..], compare);
      assert DescendingBy(s[1..], compare, key) by {
        forall i, j | 0 <= i < |s| - 1 && 0 <= j < |s| - 1
          ensures compare(s[1..][i], s[1..][j]) == key(s[1..][j]) - key(s[1..][i])
        {
          assert s[1..][i] == s[i + 1] && s[1..][j] == s[j + 1];
        }
      }
      SortWithSpec(s[1..], compare, key);
      forall k | 0 <= k < |t| ensures compare(s[0], t[k]) == key(t[k]) - key(s[0]) {
        assert t[k] in multiset(s[1..]);
        var j :| 0 <= j < |s| - 1 && s[1..][j] == t[k];
        assert s[j + 1] == t[k];
      }
      InsertSorted(s[0], t, compare, key);
      forall v ensures Filter(SortWith(s, compare), key, v) == Filter(s, key, v) {
        InsertFilter(s[0], t, compare, key, v);
      }
    }
  }

  lemma {:induction false} FilterNonEmpty<T>(s: seq<T>, key: T -> int, v: int)
    requires Filter(s, key, v) != []
    ensures exists i :: 0 <= i < |s| && key(s[i]) == v
  {
    if key(s[0]) != v {
      FilterNonEmpty(s[1..], key, v);
      var i :| 0 <= i < |s| - 1 && key(s[1..][i]) == v;
      assert key(s[i + 1]) == v;
    }
  }

  lemma FilterHead<T>(s: seq<T>, key: T -> int)
    requires s != []
    ensures Filter(s, key, key(s[0])) != []
  {
  }

  /** Sequences that agree on every key's elements are empty together. */
  lemma EmptyTogether<T>(r1: seq<T>, r2: seq<T>, key: T -> int)
    requires forall v :: Filter(r1, key, v) == Filter(r2, key, v)
    ensures r1 == [] <==> r2 == []
  {
    if r1 == [] && r2 != [] {
      FilterHead(r2, key);
      assert false;
    } else if r2 == [] && r1 != [] {
      FilterHead(r1, key);
      assert false;
    }
  }

  /** Two sorted sequences that agree on every key's elements have the same head, and so do their tails. */
  lemma HeadsAgree<T>(r1: seq<T>, r2: seq<T>, key: T -> int)
    requires r1 != [] && r2 != []
    requires SortedDesc(r1, key) && SortedDesc(r2, key)
    requires forall v :: Filter(r1, key, v) == Filter(r2, key, v)
    ensures r1[0] == r2[0]
    ensures forall v :: Filter(r1[1..], key, v) == Filter(r2[1..], key, v)
  {
    var v1, v2 := key(r1[0]), key(r2[0]);
    FilterHead(r1, key);
    FilterNonEmpty(r2, key, v1);
    FilterHead(r2, key);
    FilterNonEmpty(r1, key, v2);
    assert v1 == v2;
    var f1, f2 := Filter(r1, key, v1), Filter(r2, key, v1);
    assert f1 == [r1[0]] + Filter(r1[1..], key, v1);
    assert f2 == [r2[0]] + Filter(r2[1..], key, v1);
    assert f1 == f2 && f1[0] == r1[0] && f2[0] == r2[0];
    forall v ensures Filter(r1[1..], key, v) == Filter(r2[1..], key, v) {
      var a, b := Filter(r1[1..], key, v), Filter(r2[1..], key, v);
      var h := if key(r1[0]) == v then [r1[0]] else [];
      assert Filter(r1, key, v) == h + a;
      assert Filter(r2, key, v) == h + b;
      assert (h + a)[|h|..] == a && (h + b)[|h|..] == b;
    }
  }

  /**
   * Two sequences sorted by `key` (non-increasing) that agree on the order of the elements of
   * each key are equal: the stable sort of a sequence is unique.
   */
  lemma {:induction false} StableSortUnique<T>(r1: seq<T>, r2: seq<T>, key: T -> int)
    requires SortedDesc(r1, key) && SortedDesc(r2, key)
    requires forall v :: Filter(r1, key, v) == Filter(r2, key, v)
    ensures r1 == r2
    decreases |r1|
  {
    EmptyTogether(r1, r2, key);
    if r1 != [] {
      HeadsAgree(r1, r2, key);
      StableSortUnique(r1[1..], r2[1..], key);
      assert r1 == [r1[0]] + r1[1..] && r2 == [r2[0]] + r2[1..];
    }
  }
}
