/** Facts about sequences that do not depend on what they hold. */
module Sequences {

  function FlatMap<S, T>(s: seq<S>, f: S -> seq<T>): seq<T> {
    if s == [] then [] else FlatMap(s[..|s| - 1], f) + f(s[|s| - 1])
  }

  function Map<S, T>(s: seq<S>, f: S -> T): (r: seq<T>)
    ensures |r| == |s| && forall i :: 0 <= i < |s| ==> r[i] == f(s[i])
  {
    seq(|s|, i requires 0 <= i < |s| => f(s[i]))
  }

  predicate Distinct<T(==)>(s: seq<T>) {
    forall i, j :: 0 <= i < j < |s| ==> s[i] != s[j]
  }

  lemma FlatMapSnoc<S, T>(s: seq<S>, x: S, f: S -> seq<T>)
    ensures FlatMap(s + [x], f) == FlatMap(s, f) + f(x)
  {
    assert (s + [x])[..|s + [x]| - 1] == s;
  }

  lemma {:induction false} FlatMapConcat<S, T>(a: seq<S>, b: seq<S>, f: S -> seq<T>)
    ensures FlatMap(a + b, f) == FlatMap(a, f) + FlatMap(b, f)
  {
    if b == [] {
      assert a + b == a;
    } else {
      var b', x := b[..|b| - 1], b[|b| - 1];
      assert b == b' + [x] && a + b == (a + b') + [x];
      FlatMapConcat(a, b', f);
      FlatMapSnoc(a + b', x, f);
    }
  }

  lemma {:induction false} InFlatMap<S, T>(s: seq<S>, f: S -> seq<T>, y: T)
    ensures y in FlatMap(s, f) <==> exists i :: 0 <= i < |s| && y in f(s[i])
  {
    if s != [] {
      var t := s[..|s| - 1];
      InFlatMap(t, f, y);
      if y in FlatMap(t, f) {
        var i :| 0 <= i < |t| && y in f(t[i]);
        assert y in f(s[i]);
      }
    }
  }

  /** Removing one element of a sequence from the middle. */
  lemma SplitOut<S>(s: seq<S>, x: S) returns (i: nat)
    requires x in multiset(s)
    ensures i < |s| && s[i] == x && s == s[..i] + [x] + s[i + 1..]
    ensures multiset(s[..i] + s[i + 1..]) == multiset(s) - multiset{x}
  {
    i :| 0 <= i < |s| && s[i] == x;
    assert s == s[..i] + [x] + s[i + 1..];
  }

  /** What a sequence's elements contribute together does not depend on their order. */
  lemma {:induction false} FlatMapPermutes<S, T>(a: seq<S>, b: seq<S>, f: S -> seq<T>)
    requires multiset(a) == multiset(b)
    ensures multiset(FlatMap(a, f)) == multiset(FlatMap(b, f))
    decreases |a|
  {
    assert |multiset(a)| == |multiset(b)|;
    if a != [] {
      var a', x := a[..|a| - 1], a[|a| - 1];
      assert a == a' + [x];
      assert x in multiset(a);
      var i := SplitOut(b, x);
      var b' := b[..i] + b[i + 1..];
      assert multiset(a') == multiset(a) - multiset{x};
      FlatMapPermutes(a', b', f);
      FlatMapConcat(b[..i], b[i + 1..], f);
      FlatMapConcat(b[..i] + [x], b[i + 1..], f);
      FlatMapSnoc(b[..i], x, f);
      FlatMapSnoc(a', x, f);
    }
  }

  lemma {:induction false} MapIsFlatMap<S, T>(s: seq<S>, f: S -> T)
    ensures Map(s, f) == FlatMap(s, x => [f(x)])
  {
    if s != [] {
      MapIsFlatMap(s[..|s| - 1], f);
      assert Map(s, f) == Map(s[..|s| - 1], f) + [f(s[|s| - 1])];
    }
  }

  lemma MapPermutes<S, T>(a: seq<S>, b: seq<S>, f: S -> T)
    requires multiset(a) == multiset(b)
    ensures multiset(Map(a, f)) == multiset(Map(b, f))
  {
    var g := (x: S) => [f(x)];
    MapIsFlatMap(a, f);
    MapIsFlatMap(b, f);
    FlatMapPermutes(a, b, g);
  }

  lemma {:induction false} DistinctIffOnce<T>(s: seq<T>)
    ensures Distinct(s) <==> forall x :: multiset(s)[x] <= 1
  {
    if s != [] {
      var t, y := s[..|s| - 1], s[|s| - 1];
      assert s == t + [y];
      DistinctIffOnce(t);
      if Distinct(s) {
        forall x ensures multiset(s)[x] <= 1 {
          assert multiset(s)[x] == multiset(t)[x] + multiset([y])[x];
          assert y !in t;
          assert y !in multiset(t);
        }
      } else if Distinct(t) {
        assert y in t;
        assert multiset(t)[y] >= 1;
        assert multiset(s)[y] >= 2;
      } else {
        var x :| multiset(t)[x] > 1;
        assert multiset(s)[x] > 1;
      }
    }
  }
}
