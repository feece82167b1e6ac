/**
 What several of the models need: an optional value, and sums over sequences.
 */
module Basics {

  datatype Option<T> = None | Some(value: T)

  lemma Associative<T>(a: seq<T>, b: seq<T>, c: seq<T>)
    ensures (a + b) + c == a + (b + c)
  {
  }

  function Sum<T>(s: seq<T>, f: T -> nat): nat
  {
    if s == [] then 0 else f(s[0]) + Sum(s[1..], f)
  }

  lemma {:induction false} SumAppend<T>(a: seq<T>, b: seq<T>, f: T -> nat)
    ensures Sum(a + b, f) == Sum(a, f) + Sum(b, f)
  {
    if a == [] {
      assert a + b == b;
    } else {
      assert (a + b)[0] == a[0] && (a + b)[1..] == a[1..] + b;
      SumAppend(a[1..], b, f);
    }
  }

  lemma SumNone<T>(f: T -> nat)
    ensures Sum<T>([], f) == 0
  {
  }

  lemma SumOne<T>(x: T, rest: seq<T>, f: T -> nat)
    ensures Sum([x] + rest, f) == f(x) + Sum(rest, f)
    ensures Sum([x], f) == f(x)
  {
    assert ([x] + rest)[1..] == rest;
    assert [x][1..] == [];
  }

  lemma {:induction false} SumSet<T>(s: seq<T>, k: nat, x: T, f: T -> nat)
    requires k < |s|
    ensures Sum(s[k := x], f) + f(s[k]) == Sum(s, f) + f(x)
  {
    if k == 0 {
      assert s[0 := x][1..] == s[1..];
    } else {
      assert s[k := x][1..] == s[1..][k - 1 := x] && s[k := x][0] == s[0];
      SumSet(s[1..], k - 1, x, f);
    }
  }

  lemma {:induction false} SumZero<T>(s: seq<T>, f: T -> nat)
    requires forall k :: 0 <= k < |s| ==> f(s[k]) == 0
    ensures Sum(s, f) == 0
  {
    if s != [] {
      assert forall k :: 0 <= k < |s[1..]| ==> s[1..][k] == s[k + 1];
      SumZero(s[1..], f);
    }
  }

  lemma {:induction false} SumAtLeast<T>(s: seq<T>, k: nat, f: T -> nat)
    requires k < |s|
    ensures Sum(s, f) >= f(s[k])
  {
    if k > 0 {
      SumAtLeast(s[1..], k - 1, f);
    }
  }

  lemma {:induction false} SumAtLeastLength<T>(s: seq<T>, f: T -> nat)
    requires forall x :: x in s ==> f(x) >= 1
    ensures Sum(s, f) >= |s|
  {
    if s != [] {
      SumAtLeastLength(s[1..], f);
    }
  }
}
