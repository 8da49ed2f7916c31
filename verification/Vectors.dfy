/**
 The pure view of a vector of pointers: how often an element occurs, removing
 the first occurrence (what TnmVectorDelete does), and removing every element
 of a set (what a cascade of deletions amounts to).
 */
module Vectors {

  datatype Option<+T> = None | Some(value: T)

  function Count<T(==)>(s: seq<T>, x: T): nat {
    if s == [] then 0 else (if s[0] == x then 1 else 0) + Count(s[1..], x)
  }

  function RemoveFirst<T(==)>(s: seq<T>, x: T): seq<T> {
    if s == [] then [] else if s[0] == x then s[1..] else [s[0]] + RemoveFirst(s[1..], x)
  }

  function Without<T(==)>(s: seq<T>, r: set<T>): seq<T> {
    if s == [] then [] else (if s[0] in r then [] else [s[0]]) + Without(s[1..], r)
  }

  lemma {:induction false} CountIn<T>(s: seq<T>, x: T)
    ensures Count(s, x) > 0 <==> x in s
  {
    if s != [] { CountIn(s[1..], x); }
  }

  lemma {:induction false} CountAppend<T>(s: seq<T>, t: seq<T>, x: T)
    ensures Count(s + t, x) == Count(s, x) + Count(t, x)
  {
    if s == [] {
      assert s + t == t;
    } else {
      assert (s + t)[1..] == s[1..] + t;
      CountAppend(s[1..], t, x);
    }
  }

  lemma {:induction false} CountWithout<T>(s: seq<T>, r: set<T>, x: T)
    ensures Count(Without(s, r), x) == if x in r then 0 else Count(s, x)
  {
    if s != [] {
      CountWithout(s[1..], r, x);
      if s[0] !in r {
        assert ([s[0]] + Without(s[1..], r))[1..] == Without(s[1..], r);
      } else {
        assert Without(s, r) == Without(s[1..], r);
      }
    }
  }

  lemma {:induction false} WithoutIn<T>(s: seq<T>, r: set<T>, x: T)
    ensures x in Without(s, r) <==> x in s && x !in r
  {
    CountIn(Without(s, r), x);
    CountIn(s, x);
    CountWithout(s, r, x);
  }

  lemma {:induction false} CountRemoveFirst<T>(s: seq<T>, x: T, y: T)
    ensures Count(RemoveFirst(s, x), y) == if x == y && Count(s, x) > 0 then Count(s, x) - 1 else Count(s, y)
    ensures |RemoveFirst(s, x)| == if Count(s, x) > 0 then |s| - 1 else |s|
  {
    if s != [] && s[0] != x {
      CountRemoveFirst(s[1..], x, y);
      assert ([s[0]] + RemoveFirst(s[1..], x))[1..] == RemoveFirst(s[1..], x);
    }
  }

  lemma {:induction false} WithoutTwice<T>(s: seq<T>, a: set<T>, b: set<T>)
    ensures Without(Without(s, a), b) == Without(s, a + b)
  {
    if s != [] {
      WithoutTwice(s[1..], a, b);
      if s[0] !in a {
        assert ([s[0]] + Without(s[1..], a))[1..] == Without(s[1..], a);
      } else {
        assert Without(s, a) == Without(s[1..], a);
      }
    }
  }

  lemma {:induction false} WithoutAbsent<T>(s: seq<T>, r: set<T>)
    requires forall x :: x in r ==> Count(s, x) == 0
    ensures Without(s, r) == s
  {
    if s != [] {
      forall x | x in r ensures Count(s[1..], x) == 0 { assert Count(s, x) == 0; }
      assert Count(s, s[0]) > 0;
      WithoutAbsent(s[1..], r);
    }
  }

  // Adding or removing x does not show once all x are gone.
  lemma {:induction false} WithoutMoved<T>(s: seq<T>, x: T)
    ensures Without(s + [x], {x}) == Without(s, {x}) == Without(RemoveFirst(s, x), {x})
  {
    if s == [] {
      assert ([] + [x])[1..] == [];
    } else {
      assert (s + [x])[0] == s[0] && (s + [x])[1..] == s[1..] + [x];
      WithoutMoved(s[1..], x);
      assert ([s[0]] + RemoveFirst(s[1..], x))[1..] == RemoveFirst(s[1..], x);
    }
  }

  // Removing an element as often as it occurs removes it altogether, and keeps the order of the rest.
  lemma {:induction false} RemoveFirstOnce<T>(s: seq<T>, x: T)
    requires Count(s, x) <= 1
    ensures RemoveFirst(s, x) == Without(s, {x})
  {
    if s != [] {
      if s[0] == x {
        WithoutAbsent(s[1..], {x});
      } else {
        RemoveFirstOnce(s[1..], x);
      }
    }
  }

  lemma {:induction false} RemoveFirstTwice<T>(s: seq<T>, x: T)
    requires Count(s, x) == 2
    ensures RemoveFirst(RemoveFirst(s, x), x) == Without(s, {x})
  {
    if s[0] == x {
      RemoveFirstOnce(s[1..], x);
    } else {
      RemoveFirstTwice(s[1..], x);
      var t := RemoveFirst(s[1..], x);
      assert ([s[0]] + t)[1..] == t;
    }
  }

  lemma {:induction false} RemoveFirstAt<T>(s: seq<T>, x: T, k: nat)
    requires k < |s| && s[k] == x && forall j :: 0 <= j < k ==> s[j] != x
    ensures RemoveFirst(s, x) == s[..k] + s[k + 1..]
  {
    if k > 0 {
      RemoveFirstAt(s[1..], x, k - 1);
      assert s[1..][..k - 1] == s[1..k] && s[1..][k..] == s[k + 1..];
      assert [s[0]] + s[1..k] == s[..k];
    }
  }

  lemma {:induction false} RemoveFirstNone<T>(s: seq<T>, x: T)
    requires forall j :: 0 <= j < |s| ==> s[j] != x
    ensures RemoveFirst(s, x) == s
  {
    if s != [] { RemoveFirstNone(s[1..], x); }
  }

  // What f makes of each element, in order.
  function Collect<S, T>(s: seq<S>, f: S -> seq<T>): seq<T> {
    if s == [] then [] else f(s[0]) + Collect(s[1..], f)
  }

  lemma {:induction false} CollectAppend<S, T>(a: seq<S>, b: seq<S>, f: S -> seq<T>)
    ensures Collect(a + b, f) == Collect(a, f) + Collect(b, f)
  {
    if a == [] {
      assert a + b == b;
    } else {
      assert (a + b)[0] == a[0] && (a + b)[1..] == a[1..] + b;
      CollectAppend(a[1..], b, f);
      Assoc(f(a[0]), Collect(a[1..], f), Collect(b, f));
    }
  }

  lemma Assoc<T>(a: seq<T>, b: seq<T>, c: seq<T>)
    ensures a + (b + c) == (a + b) + c
  {
  }

  lemma CollectOne<S, T>(x: S, f: S -> seq<T>)
    ensures Collect([x], f) == f(x)
  {
    assert [x][1..] == [];
    assert f(x) + [] == f(x);
  }

  lemma Slices<T>(s: seq<T>, i: nat, j: nat)
    requires i <= j <= |s|
    ensures s[..i] + s[i..j] == s[..j] && s[i..j] + s[j..] == s[i..]
  {
  }

  function Elements<T>(s: seq<T>): set<T> {
    set x | x in s
  }

  lemma ElementsSnoc<T>(s: seq<T>, i: nat)
    requires i < |s|
    ensures Elements(s[..i + 1]) == Elements(s[..i]) + {s[i]}
  {
    assert s[..i + 1] == s[..i] + [s[i]];
  }
}
