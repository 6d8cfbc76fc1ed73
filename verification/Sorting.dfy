/**
 Stable descending sort, as performed by list.sort(key=..., reverse=True): reversing keeps
 the original order among equal keys. SortIsTheStableSort shows that the three facts
 "descending", "same elements" and "equal keys keep their order" leave only one result, so
 the insertion sort below stands for the library's algorithm.
 */
module Sorting {

  /** Puts x in front of the first element whose key does not exceed its own. */
  function InsertDesc<T>(x: T, s: seq<T>, key: T -> int): (r: seq<T>)
    ensures |r| == |s| + 1
  {
    if s == [] || key(s[0]) <= key(x) then [x] + s
    else [s[0]] + InsertDesc(x, s[1..], key)
  }

  function SortDesc<T>(s: seq<T>, key: T -> int): (r: seq<T>)
    ensures |r| == |s|
  {
    if s == [] then [] else InsertDesc(s[0], SortDesc(s[1..], key), key)
  }

  ghost predicate Descending<T>(s: seq<T>, key: T -> int) {
    forall i, j :: 0 <= i < j < |s| ==> key(s[j]) <= key(s[i])
  }

  /** The elements that satisfy p, in their original order. */
  function Filter<T>(s: seq<T>, p: T -> bool): seq<T> {
    if s == [] then [] else (if p(s[0]) then [s[0]] else []) + Filter(s[1..], p)
  }

  /** The elements with key k, in their original order. */
  function WithKey<T>(s: seq<T>, key: T -> int, k: int): seq<T> {
    Filter(s, (x: T) => key(x) == k)
  }

  lemma {:induction false} InsertKeepsElements<T>(x: T, s: seq<T>, key: T -> int)
    ensures multiset(InsertDesc(x, s, key)) == multiset{x} + multiset(s)
  {
    if s != [] && key(x) < key(s[0]) {
      InsertKeepsElements(x, s[1..], key);
      assert s == [s[0]] + s[1..];
    }
  }

  lemma {:induction false} InsertBelow<T>(x: T, s: seq<T>, key: T -> int, bound: int)
    requires key(x) <= bound && forall i :: 0 <= i < |s| ==> key(s[i]) <= bound
    ensures forall i :: 0 <= i < |InsertDesc(x, s, key)| ==> key(InsertDesc(x, s, key)[i]) <= bound
  {
    if s != [] && key(x) < key(s[0]) {
      InsertBelow(x, s[1..], key, bound);
    }
  }

  lemma {:induction false} InsertKeepsOrder<T>(x: T, s: seq<T>, key: T -> int)
    requires Descending(s, key)
    ensures Descending(InsertDesc(x, s, key), key)
  {
    if s != [] && key(x) < key(s[0]) {
      InsertKeepsOrder(x, s[1..], key);
      InsertBelow(x, s[1..], key, key(s[0]));
    }
  }

  lemma {:induction false} SortSorts<T>(s: seq<T>, key: T -> int)
    ensures Descending(SortDesc(s, key), key)
    ensures multiset(SortDesc(s, key)) == multiset(s)
  {
    if s != [] {
      SortSorts(s[1..], key);
      InsertKeepsOrder(s[0], SortDesc(s[1..], key), key);
      InsertKeepsElements(s[0], SortDesc(s[1..], key), key);
      assert s == [s[0]] + s[1..];
    }
  }

  lemma {:induction false} FilterConcat<T>(s: seq<T>, t: seq<T>, p: T -> bool)
    ensures Filter(s + t, p) == Filter(s, p) + Filter(t, p)
  {
    if s == [] {
      assert s + t == t;
    } else {
      FilterConcat(s[1..], t, p);
      assert (s + t)[0] == s[0] && (s + t)[1..] == s[1..] + t;
      var head := if p(s[0]) then [s[0]] else [];
      assert head + (Filter(s[1..], p) + Filter(t, p)) == (head + Filter(s[1..], p)) + Filter(t, p);
    }
  }

  lemma {:induction false} FilterMembers<T>(s: seq<T>, p: T -> bool)
    ensures forall x :: x in Filter(s, p) <==> x in s && p(x)
    ensures forall i :: 0 <= i < |Filter(s, p)| ==> Filter(s, p)[i] in s && p(Filter(s, p)[i])
    ensures |Filter(s, p)| <= |s|
  {
    if s != [] {
      FilterMembers(s[1..], p);
      assert s == [s[0]] + s[1..];
    }
  }

  lemma {:induction false} FilterAll<T>(s: seq<T>, p: T -> bool)
    requires forall i :: 0 <= i < |s| ==> p(s[i])
    ensures Filter(s, p) == s
  {
    if s != [] {
      FilterAll(s[1..], p);
    }
  }

  lemma {:induction false} FilterNone<T>(s: seq<T>, p: T -> bool)
    requires forall i :: 0 <= i < |s| ==> !p(s[i])
    ensures Filter(s, p) == []
  {
    if s != [] {
      FilterNone(s[1..], p);
    }
  }

  lemma {:induction false} FilterFilter<T>(s: seq<T>, p: T -> bool, q: T -> bool, both: T -> bool)
    requires forall x :: x in s ==> (both(x) <==> p(x) && q(x))
    ensures Filter(Filter(s, p), q) == Filter(s, both)
  {
    if s != [] {
      FilterFilter(s[1..], p, q, both);
      assert s[0] in s;
      FilterConcat(if p(s[0]) then [s[0]] else [], Filter(s[1..], p), q);
    }
  }

  /** Filtering and inserting commute, and an element that is filtered out leaves no trace. */
  lemma {:induction false} FilterInsert<T>(x: T, s: seq<T>, key: T -> int, p: T -> bool)
    requires Descending(s, key)
    ensures Filter(InsertDesc(x, s, key), p)
            == if p(x) then InsertDesc(x, Filter(s, p), key) else Filter(s, p)
  {
    if s == [] || key(s[0]) <= key(x) {
      FilterConcat([x], s, p);
      FilterMembers(s, p);
      assert [] + Filter(s, p) == Filter(s, p);
    } else {
      FilterInsert(x, s[1..], key, p);
      FilterConcat([s[0]], InsertDesc(x, s[1..], key), p);
      assert [] + Filter(s[1..], p) == Filter(s[1..], p);
      assert [] + Filter(InsertDesc(x, s[1..], key), p) == Filter(InsertDesc(x, s[1..], key), p);
    }
  }

  /** Dropping elements before sorting or after sorting gives the same list. */
  lemma {:induction false} FilterSort<T>(s: seq<T>, key: T -> int, p: T -> bool)
    ensures SortDesc(Filter(s, p), key) == Filter(SortDesc(s, key), p)
  {
    if s != [] {
      FilterSort(s[1..], key, p);
      SortSorts(s[1..], key);
      FilterInsert(s[0], SortDesc(s[1..], key), key, p);
      assert [] + Filter(s[1..], p) == Filter(s[1..], p);
    }
  }

  /** Stability: the elements that share a key keep their original order. */
  lemma SortIsStable<T>(s: seq<T>, key: T -> int, k: int)
    ensures WithKey(SortDesc(s, key), key, k) == WithKey(s, key, k)
  {
    var p := (x: T) => key(x) == k;
    FilterSort(s, key, p);
    FilterMembers(s, p);
    SortOfEqualKeys(Filter(s, p), key, k);
  }

  lemma {:induction false} SortOfEqualKeys<T>(s: seq<T>, key: T -> int, k: int)
    requires forall i :: 0 <= i < |s| ==> key(s[i]) == k
    ensures SortDesc(s, key) == s
  {
    if s != [] {
      SortOfEqualKeys(s[1..], key, k);
    }
  }

  /** Two descending lists that agree key by key are the same list. */
  lemma {:induction false} DescendingIsUnique<T>(s: seq<T>, t: seq<T>, key: T -> int)
    requires Descending(s, key) && Descending(t, key)
    requires forall k :: WithKey(s, key, k) == WithKey(t, key, k)
    ensures s == t
  {
    if s == [] {
      if t != [] {
        HeadKey(t, s, key);
        assert false;
      }
    } else {
      HeadKey(s, t, key);
      HeadKey(t, s, key);
      var k0 := key(s[0]);
      assert WithKey(s, key, k0)[0] == s[0] && WithKey(t, key, k0)[0] == t[0];
      forall k ensures WithKey(s[1..], key, k) == WithKey(t[1..], key, k) {
        assert WithKey(s, key, k) == (if k == k0 then [s[0]] else []) + WithKey(s[1..], key, k);
        assert WithKey(t, key, k) == (if k == k0 then [t[0]] else []) + WithKey(t[1..], key, k);
        assert WithKey(s[1..], key, k) == WithKey(s, key, k)[if k == k0 then 1 else 0..];
        assert WithKey(t[1..], key, k) == WithKey(t, key, k)[if k == k0 then 1 else 0..];
      }
      DescendingIsUnique(s[1..], t[1..], key);
    }
  }

  /** The other list has an element with the head's key, hence a head at least as large. */
  lemma HeadKey<T>(s: seq<T>, t: seq<T>, key: T -> int)
    requires s != [] && Descending(t, key)
    requires WithKey(s, key, key(s[0])) == WithKey(t, key, key(s[0]))
    ensures t != [] && key(s[0]) <= key(t[0])
  {
    var p := (x: T) => key(x) == key(s[0]);
    FilterMembers(t, p);
    assert Filter(t, p) == WithKey(t, key, key(s[0]));
    assert Filter(t, p)[0] in t;
  }

  /** Any stable descending rearrangement of s is SortDesc(s). */
  lemma SortIsTheStableSort<T>(s: seq<T>, t: seq<T>, key: T -> int)
    requires Descending(t, key)
    requires forall k :: WithKey(t, key, k) == WithKey(s, key, k)
    ensures t == SortDesc(s, key)
  {
    SortSorts(s, key);
    forall k ensures WithKey(t, key, k) == WithKey(SortDesc(s, key), key, k) {
      SortIsStable(s, key, k);
    }
    DescendingIsUnique(t, SortDesc(s, key), key);
  }
}
