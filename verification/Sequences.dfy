/** Sequences with elements taken out, for queues that are edited in place. */
module Sequences {
  ghost predicate NoDuplicates<T>(s: seq<T>) {
    forall i, j | 0 <= i < j < |s| :: s[i] != s[j]
  }

  /** `s` without the elements in `out`, order kept. */
  function Without<T(==)>(s: seq<T>, out: set<T>): (r: seq<T>)
    ensures forall x {:trigger x in r} {:trigger x in s} | x in s :: x in r <==> x !in out
    ensures forall x {:trigger x in r} | x in r :: x in s
    ensures |r| <= |s|
  {
    if s == [] then []
    else (if s[0] in out then [] else [s[0]]) + Without(s[1..], out)
  }

  lemma {:induction false} WithoutConcat<T>(a: seq<T>, b: seq<T>, out: set<T>)
    ensures Without(a + b, out) == Without(a, out) + Without(b, out)
  {
    if a == [] {
      assert a + b == b;
    } else {
      assert (a + b)[1..] == a[1..] + b;
      WithoutConcat(a[1..], b, out);
    }
  }

  lemma {:induction false} WithoutTwice<T>(s: seq<T>, out: set<T>, more: set<T>)
    ensures Without(Without(s, out), more) == Without(s, out + more)
  {
    if s != [] {
      WithoutTwice(s[1..], out, more);
      WithoutConcat(if s[0] in out then [] else [s[0]], Without(s[1..], out), more);
    }
  }

  lemma {:induction false} WithoutNothing<T>(s: seq<T>, out: set<T>)
    requires forall x <- s :: x !in out
    ensures Without(s, out) == s
  {
    if s != [] {
      WithoutNothing(s[1..], out);
    }
  }

  lemma {:induction false} WithoutKeepsDistinct<T>(s: seq<T>, out: set<T>)
    requires NoDuplicates(s)
    ensures NoDuplicates(Without(s, out))
  {
    if s != [] {
      WithoutKeepsDistinct(s[1..], out);
      var r := Without(s[1..], out);
      assert s[0] !in s[1..];
      assert forall j | 0 <= j < |r| :: r[j] in r && r[j] in s[1..];
    }
  }

  /** Without one element of distinct ones. */
  lemma {:induction false} WithoutOne<T>(s: seq<T>, i: nat)
    requires NoDuplicates(s) && i < |s|
    ensures Without(s, {s[i]}) == s[..i] + s[i + 1..]
  {
    if i == 0 {
      WithoutNothing(s[1..], {s[0]});
    } else {
      WithoutOne(s[1..], i - 1);
      assert s[0] != s[i];
      assert s[..i] == [s[0]] + s[1..][..i - 1] && s[1..][i..] == s[i + 1..];
    }
  }

  /** Where `x` stands in `s`. */
  function Position<T(==)>(s: seq<T>, x: T): (i: nat)
    requires x in s
    ensures i < |s| && s[i] == x && x !in s[..i]
  {
    if s[0] == x then 0 else
      var i := Position(s[1..], x) + 1;
      assert s[..i] == [s[0]] + s[1..][..i - 1];
      i
  }

  /** `s` without its first `x`. */
  function RemoveFirst<T(==)>(s: seq<T>, x: T): seq<T>
    requires x in s
  {
    var i := Position(s, x);
    s[..i] + s[i + 1..]
  }

  lemma {:induction false} RemoveFirstOfDistinct<T>(s: seq<T>, x: T)
    requires NoDuplicates(s) && x in s
    ensures NoDuplicates(RemoveFirst(s, x)) && RemoveFirst(s, x) == Without(s, {x})
    ensures forall y {:trigger y in RemoveFirst(s, x)} {:trigger y in s} :: y in RemoveFirst(s, x) <==> y in s && y != x
  {
    WithoutOne(s, Position(s, x));
    hide Without;
    var i, r := Position(s, x), RemoveFirst(s, x);
    assert forall k | 0 <= k < |r| :: r[k] == s[if k < i then k else k + 1];
    forall y | y in s && y != x ensures y in r {
      var k :| 0 <= k < |s| && s[k] == y;
      assert r[if k < i then k else k - 1] == y;
    }
  }

  lemma {:induction false} PositionBehind<T>(h: T, s: seq<T>, x: T)
    requires x in s && h != x
    ensures Position([h] + s, x) == Position(s, x) + 1
  {
    assert ([h] + s)[1..] == s;
  }

  lemma {:induction false} PositionAt<T>(a: seq<T>, x: T, b: seq<T>)
    requires x !in a
    ensures Position(a + [x] + b, x) == |a|
  {
    if a != [] {
      PositionAt(a[1..], x, b);
      PositionBehind(a[0], a[1..] + [x] + b, x);
      assert a + [x] + b == [a[0]] + (a[1..] + [x] + b);
    }
  }

  /** The others keep their order. */
  lemma {:induction false} RemoveFirstIs<T>(a: seq<T>, x: T, b: seq<T>)
    requires x !in a
    ensures RemoveFirst(a + [x] + b, x) == a + b
  {
    PositionAt(a, x, b);
  }

  /** Taking other elements out never moves an element back. */
  lemma {:induction false} WithoutMovesUp<T>(s: seq<T>, out: set<T>, x: T)
    requires x in s && x !in out
    ensures Position(Without(s, out), x) <= Position(s, x)
  {
    if s[0] == x {
      assert Without(s, out)[0] == x;
    } else {
      WithoutMovesUp(s[1..], out, x);
      if s[0] in out {
        assert Without(s, out) == Without(s[1..], out);
      } else {
        PositionBehind(s[0], Without(s[1..], out), x);
      }
    }
  }

  lemma {:induction false} AppendKeepsPosition<T>(s: seq<T>, x: T, y: T)
    requires x in s
    ensures Position(s + [y], x) == Position(s, x)
  {
    assert (s + [y])[0] == s[0];
    if s[0] != x {
      assert (s + [y])[1..] == s[1..] + [y];
      AppendKeepsPosition(s[1..], x, y);
    }
  }

  lemma {:induction false} Regroup<T>(a: seq<T>, b: seq<T>, c: seq<T>)
    ensures a + (b + c) == a + b + c
  {
  }
}
