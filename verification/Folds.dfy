/** Sums over sequences, shared by the models that keep a list of running tasks. */
module Folds {

  /** The sum of `f` over the elements of `s`. */
  function SumBy<T>(s: seq<T>, f: T -> nat): nat {
    if s == [] then 0 else f(s[0]) + SumBy(s[1..], f)
  }

  lemma {:induction false} SumByUpdate<T>(s: seq<T>, f: T -> nat, i: nat, x: T)
    requires i < |s|
    ensures SumBy(s[i := x], f) + f(s[i]) == SumBy(s, f) + f(x)
  {
    if i == 0 {
      assert s[i := x][1..] == s[1..];
    } else {
      assert s[i := x][1..] == s[1..][i - 1 := x];
      SumByUpdate(s[1..], f, i - 1, x);
    }
  }

  lemma {:induction false} SumByConcat<T>(s: seq<T>, t: seq<T>, f: T -> nat)
    ensures SumBy(s + t, f) == SumBy(s, f) + SumBy(t, f)
  {
    if s == [] {
      assert s + t == t;
    } else {
      assert (s + t)[1..] == s[1..] + t;
      SumByConcat(s[1..], t, f);
    }
  }

  lemma {:induction false} SumByRemove<T>(s: seq<T>, f: T -> nat, i: nat)
    requires i < |s|
    ensures SumBy(s[..i] + s[i + 1..], f) + f(s[i]) == SumBy(s, f)
  {
    if i == 0 {
      assert s[..0] + s[1..] == s[1..];
    } else {
      assert (s[..i] + s[i + 1..])[1..] == s[1..][..i - 1] + s[1..][i..];
      SumByRemove(s[1..], f, i - 1);
    }
  }

  /** A sum is positive exactly when one of its terms is. */
  lemma {:induction false} SumByPositive<T>(s: seq<T>, f: T -> nat)
    ensures SumBy(s, f) > 0 <==> exists i :: 0 <= i < |s| && f(s[i]) > 0
  {
    if s != [] {
      SumByPositive(s[1..], f);
      if i :| 0 <= i < |s| && f(s[i]) > 0 {
        if i > 0 {
          assert s[1..][i - 1] == s[i];
        }
      }
      if SumBy(s[1..], f) > 0 {
        var j :| 0 <= j < |s[1..]| && f(s[1..][j]) > 0;
        assert s[j + 1] == s[1..][j];
      }
    }
  }

  /** A bounded sum equals its length exactly when every term is one. */
  lemma {:induction false} SumByAllOne<T>(s: seq<T>, f: T -> nat)
    requires forall i :: 0 <= i < |s| ==> f(s[i]) == 1
    ensures SumBy(s, f) == |s|
  {
    if s != [] {
      assert forall i :: 0 <= i < |s[1..]| ==> s[1..][i] == s[i + 1];
      SumByAllOne(s[1..], f);
    }
  }

  /** The elements of the inner sequences, in order. */
  function Flatten<T>(s: seq<seq<T>>): seq<T> {
    if s == [] then [] else s[0] + Flatten(s[1..])
  }

  lemma {:induction false} FlattenConcat<T>(s: seq<seq<T>>, t: seq<seq<T>>)
    ensures Flatten(s + t) == Flatten(s) + Flatten(t)
  {
    if s == [] {
      assert s + t == t;
    } else {
      assert (s + t)[1..] == s[1..] + t;
      FlattenConcat(s[1..], t);
    }
  }

  lemma FlattenOne<T>(s: seq<T>)
    ensures Flatten([s]) == s
  {
    assert [s][1..] == [] && s + [] == s;
  }
}
