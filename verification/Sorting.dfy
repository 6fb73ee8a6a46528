/** Python's `sorted`: stable, by an ascending key (a descending sort negates the key). */
module Sorting {

  /** `t` is `s` with some of its elements left out, the others in their order. */
  ghost predicate Subsequence<T>(t: seq<T>, s: seq<T>)
    decreases |s|
  {
    t == [] ||
    (s != [] &&
      (Subsequence(t, s[..|s| - 1])
       || (t[|t| - 1] == s[|s| - 1] && Subsequence(t[..|t| - 1], s[..|s| - 1]))))
  }

  ghost predicate Ordered<T>(s: seq<T>, key: T -> real) {
    forall i, j :: 0 <= i < j < |s| ==> key(s[i]) <= key(s[j])
  }

  /** `x` goes in front of its equals: it came before them. */
  function Insert<T>(x: T, s: seq<T>, key: T -> real): seq<T> {
    if s == [] || key(x) <= key(s[0]) then [x] + s else [s[0]] + Insert(x, s[1..], key)
  }

  function SortBy<T>(s: seq<T>, key: T -> real): seq<T> {
    if s == [] then [] else Insert(s[0], SortBy(s[1..], key), key)
  }

  lemma {:induction false} InsertOrdered<T>(x: T, s: seq<T>, key: T -> real)
    requires Ordered(s, key)
    ensures Ordered(Insert(x, s, key), key)
    ensures forall i :: 0 <= i < |Insert(x, s, key)| ==> Insert(x, s, key)[i] == x || Insert(x, s, key)[i] in s
  {
    if s != [] && key(x) > key(s[0]) {
      InsertOrdered(x, s[1..], key);
      var r := Insert(x, s[1..], key);
      assert forall i :: 0 <= i < |r| ==> key(s[0]) <= key(r[i]);
    }
  }

  lemma {:induction false} InsertElements<T>(x: T, s: seq<T>, key: T -> real)
    ensures multiset(Insert(x, s, key)) == multiset{x} + multiset(s)
    ensures |Insert(x, s, key)| == |s| + 1
  {
    if s != [] && key(x) > key(s[0]) {
      InsertElements(x, s[1..], key);
      assert s == [s[0]] + s[1..];
    }
  }

  /** The sorted sequence is ordered and has the same elements, repetitions included. */
  lemma {:induction false} SortSorts<T>(s: seq<T>, key: T -> real)
    ensures Ordered(SortBy(s, key), key)
    ensures multiset(SortBy(s, key)) == multiset(s)
    ensures |SortBy(s, key)| == |s|
  {
    if s != [] {
      SortSorts(s[1..], key);
      InsertOrdered(s[0], SortBy(s[1..], key), key);
      InsertElements(s[0], SortBy(s[1..], key), key);
      assert s == [s[0]] + s[1..];
    }
  }

  /** The elements with key `v`, in order. */
  function OfKey<T>(s: seq<T>, key: T -> real, v: real): seq<T> {
    if s == [] then [] else (if key(s[0]) == v then [s[0]] else []) + OfKey(s[1..], key, v)
  }

  lemma {:induction false} OfKeyConcat<T>(s: seq<T>, t: seq<T>, key: T -> real, v: real)
    ensures OfKey(s + t, key, v) == OfKey(s, key, v) + OfKey(t, key, v)
  {
    if s == [] {
      assert s + t == t;
    } else {
      var head := if key(s[0]) == v then [s[0]] else [];
      OfKeyConcat(s[1..], t, key, v);
      assert OfKey(s + t, key, v) == head + OfKey(s[1..] + t, key, v) by {
        assert (s + t)[1..] == s[1..] + t;
      }
      assert head + (OfKey(s[1..], key, v) + OfKey(t, key, v)) == (head + OfKey(s[1..], key, v)) + OfKey(t, key, v);
    }
  }

  lemma {:induction false} InsertStable<T>(x: T, s: seq<T>, key: T -> real, v: real)
    ensures OfKey(Insert(x, s, key), key, v) == OfKey([x] + s, key, v)
  {
    assert ([x] + s)[1..] == s;
    if s != [] && key(x) > key(s[0]) {
      InsertStable(x, s[1..], key, v);
      assert ([x] + s[1..])[1..] == s[1..];
      assert ([s[0]] + Insert(x, s[1..], key))[1..] == Insert(x, s[1..], key);
    }
  }

  /** Elements with equal keys keep their order. */
  lemma {:induction false} SortStable<T>(s: seq<T>, key: T -> real, v: real)
    ensures OfKey(SortBy(s, key), key, v) == OfKey(s, key, v)
  {
    if s != [] {
      SortStable(s[1..], key, v);
      InsertStable(s[0], SortBy(s[1..], key), key, v);
      assert ([s[0]] + SortBy(s[1..], key))[1..] == SortBy(s[1..], key);
    }
  }

  /** How many elements have a smaller key than `v`. */
  function Before<T>(s: seq<T>, key: T -> real, v: real): nat {
    if s == [] then 0 else (if key(s[0]) < v then 1 else 0) + Before(s[1..], key, v)
  }

  lemma {:induction false} InsertBefore<T>(x: T, s: seq<T>, key: T -> real, v: real)
    ensures Before(Insert(x, s, key), key, v) == (if key(x) < v then 1 else 0) + Before(s, key, v)
  {
    assert ([x] + s)[1..] == s;
    if s != [] && key(x) > key(s[0]) {
      InsertBefore(x, s[1..], key, v);
      assert ([s[0]] + Insert(x, s[1..], key))[1..] == Insert(x, s[1..], key);
    }
  }

  lemma {:induction false} SortBefore<T>(s: seq<T>, key: T -> real, v: real)
    ensures Before(SortBy(s, key), key, v) == Before(s, key, v)
  {
    if s != [] {
      SortBefore(s[1..], key, v);
      InsertBefore(s[0], SortBy(s[1..], key), key, v);
    }
  }

  lemma {:induction false} NoneBefore<T>(s: seq<T>, key: T -> real, v: real)
    requires forall x <- s :: key(x) >= v
    ensures Before(s, key, v) == 0
    ensures (forall x <- s :: key(x) > v) ==> OfKey(s, key, v) == []
  {
    if s != [] {
      NoneBefore(s[1..], key, v);
    }
  }

  /** A cut of a sorted sequence takes this many of the elements with key `v`. */
  function TakenOf<T>(s: seq<T>, key: T -> real, v: real, k: nat): (m: nat)
    ensures m <= |OfKey(s, key, v)|
  {
    if k <= Before(s, key, v) then 0
    else if k - Before(s, key, v) <= |OfKey(s, key, v)| then k - Before(s, key, v)
    else |OfKey(s, key, v)|
  }

  lemma {:induction false} CutTakes<T>(d: seq<T>, key: T -> real, v: real, k: nat)
    requires Ordered(d, key) && k <= |d|
    ensures |OfKey(d[..k], key, v)| == TakenOf(d, key, v, k)
  {
    if d != [] {
      var rest := d[1..];
      assert Ordered(rest, key);
      if key(d[0]) >= v {
        NoneBefore(rest, key, v);
        NoneBefore(d, key, v);
      }
      if k > 0 {
        assert d[..k][1..] == rest[..k - 1];
        CutTakes(rest, key, v, k - 1);
      }
    }
  }

  lemma {:induction false} OfKeyMembers<T>(s: seq<T>, key: T -> real, x: T)
    ensures x in OfKey(s, key, key(x)) <==> x in s
  {
    if s != [] {
      OfKeyMembers(s[1..], key, x);
      assert s == [s[0]] + s[1..];
    }
  }

  lemma {:induction false} KeysFit<T>(s: seq<T>, key: T -> real, v: real)
    ensures Before(s, key, v) + |OfKey(s, key, v)| <= |s|
  {
    if s != [] {
      KeysFit(s[1..], key, v);
    }
  }
}
