/**
 * Stable sorting in descending order of a numeric key. JavaScript's `Array.prototype.sort`
 * is stable, and the database orderings (`ORDER BY ... DESC`) are modelled the same way,
 * with ties left in store order.
 */
module Ordering {
  import opened Common

  /** Keys never increase from left to right. */
  predicate SortedDesc<T>(s: seq<T>, key: T -> real) {
    forall i, j :: 0 <= i < j < |s| ==> key(s[i]) >= key(s[j])
  }

  /** The test "has key `v`". */
  function HasKey<T>(key: T -> real, v: real): T -> bool {
    y => key(y) == v
  }

  /** Places `x` in front of the first element whose key is not larger than its own. */
  function Insert<T>(x: T, t: seq<T>, key: T -> real): (r: seq<T>)
    ensures |r| == |t| + 1
    ensures multiset(r) == multiset([x] + t)
  {
    if t == [] then [x]
    else if key(t[0]) <= key(x) then [x] + t
    else
      assert t == [t[0]] + t[1..];
      [t[0]] + Insert(x, t[1..], key)
  }

  /** Every key of `Insert(x, t)` is the key of `x` or the key of an element of `t`. */
  lemma {:induction false} InsertKeys<T>(x: T, t: seq<T>, key: T -> real, bound: real)
    requires key(x) <= bound
    requires forall i :: 0 <= i < |t| ==> key(t[i]) <= bound
    ensures forall i :: 0 <= i < |t| + 1 ==> key(Insert(x, t, key)[i]) <= bound
  {
    if t != [] && key(t[0]) > key(x) {
      InsertKeys(x, t[1..], key, bound);
    }
  }

  /** Inserting into a sorted sequence keeps it sorted. */
  lemma {:induction false} InsertSorted<T>(x: T, t: seq<T>, key: T -> real)
    requires SortedDesc(t, key)
    ensures SortedDesc(Insert(x, t, key), key)
  {
    if t != [] && key(t[0]) > key(x) {
      InsertSorted(x, t[1..], key);
      InsertKeys(x, t[1..], key, key(t[0]));
    }
  }

  /** Insertion sort: a permutation of `s` in descending order of `key`. */
  function SortDesc<T>(s: seq<T>, key: T -> real): (r: seq<T>)
    ensures |r| == |s|
    ensures multiset(r) == multiset(s)
    ensures SortedDesc(r, key)
  {
    if s == [] then []
    else
      assert s == [s[0]] + s[1..];
      var t := SortDesc(s[1..], key);
      InsertSorted(s[0], t, key);
      Insert(s[0], t, key)
  }

  /** Inserting `x` changes the elements of key `v` only by putting `x` in front of them. */
  lemma {:induction false} InsertStable<T>(x: T, t: seq<T>, key: T -> real, v: real)
    ensures Filter(Insert(x, t, key), HasKey(key, v))
         == (if key(x) == v then [x] else []) + Filter(t, HasKey(key, v))
  {
    var p := HasKey(key, v);
    if t == [] {
    } else if key(t[0]) <= key(x) {
      FilterAppend([x], t, p);
    } else {
      var r' := Insert(x, t[1..], key);
      InsertStable(x, t[1..], key, v);
      assert ([t[0]] + r')[1..] == r';
      assert Filter([t[0]] + r', p) == (if p(t[0]) then [t[0]] else []) + Filter(r', p);
      assert Filter(t, p) == (if p(t[0]) then [t[0]] else []) + Filter(t[1..], p);
      if key(x) == v {
        assert !p(t[0]);
      }
    }
  }

  /**
   * The sort is stable: the elements that share a key keep their relative order.
   */
  lemma {:induction false} SortStable<T>(s: seq<T>, key: T -> real, v: real)
    ensures Filter(SortDesc(s, key), HasKey(key, v)) == Filter(s, HasKey(key, v))
  {
    if s != [] {
      SortStable(s[1..], key, v);
      InsertStable(s[0], SortDesc(s[1..], key), key, v);
    }
  }

  /** A sequence already in descending order is left unchanged. */
  lemma {:induction false} SortSorted<T>(s: seq<T>, key: T -> real)
    requires SortedDesc(s, key)
    ensures SortDesc(s, key) == s
  {
    if s != [] {
      var t := s[1..];
      SortedTail(s, key);
      SortSorted(t, key);
      InsertInFront(s[0], t, key);
      assert [s[0]] + t == s;
    }
  }

  /** The tail of a sequence in descending order is in descending order, below its head. */
  lemma SortedTail<T>(s: seq<T>, key: T -> real)
    requires s != [] && SortedDesc(s, key)
    ensures SortedDesc(s[1..], key)
    ensures s[1..] != [] ==> key(s[1..][0]) <= key(s[0])
  {
    var t := s[1..];
    forall i, j | 0 <= i < j < |t| ensures key(t[i]) >= key(t[j]) {
      assert t[i] == s[i + 1] && t[j] == s[j + 1];
    }
    if t != [] {
      assert t[0] == s[1];
    }
  }

  /** An element no smaller than the head of the sequence goes in front. */
  lemma InsertInFront<T>(x: T, t: seq<T>, key: T -> real)
    requires t != [] ==> key(t[0]) <= key(x)
    ensures Insert(x, t, key) == [x] + t
  {
  }

  /** Sorting what a filter kept lists exactly the elements that pass the filter. */
  lemma SortFilterMembers<T>(s: seq<T>, p: T -> bool, key: T -> real)
    ensures forall x :: x in SortDesc(Filter(s, p), key) <==> x in s && p(x)
  {
    var c := Filter(s, p);
    FilterMembers(s, p);
    forall x ensures x in SortDesc(c, key) <==> x in c {
      assert x in SortDesc(c, key) <==> x in multiset(SortDesc(c, key));
      assert x in c <==> x in multiset(c);
    }
  }
}
