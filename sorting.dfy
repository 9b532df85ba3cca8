/**
 * `Array.prototype.sort()` on strings with the default comparison, and the
 * de-duplication of a list into first-seen order (`new Set(xs)`).
 */
module Sorting {
  import opened Text

  predicate Sorted(xs: seq<string>)
  {
    forall i, j :: 0 <= i < j < |xs| ==> LexLessEq(xs[i], xs[j])
  }

  predicate Distinct<T(==)>(xs: seq<T>)
  {
    forall i, j :: 0 <= i < j < |xs| ==> xs[i] != xs[j]
  }

  lemma {:induction false} LexLessEqTransitive(a: string, b: string, c: string)
    requires LexLessEq(a, b) && LexLessEq(b, c)
    ensures LexLessEq(a, c)
  {
    if LexLess(a, b) && LexLess(b, c) {
      LexLessTransitive(a, b, c);
    }
  }

  /** Inserts `x` into a sorted list in front of the first element not below it. */
  function Insert(x: string, xs: seq<string>): (r: seq<string>)
    requires Sorted(xs)
    ensures Sorted(r) && multiset(r) == multiset(xs) + multiset{x}
  {
    if xs == [] then [x]
    else if LexLessEq(x, xs[0]) then
      assert forall j :: 0 < j < |xs| ==> LexLessEq(x, xs[j]) by {
        forall j | 0 < j < |xs| {
          LexLessEqTransitive(x, xs[0], xs[j]);
        }
      }
      [x] + xs
    else
      LexLessTotal(x, xs[0]);
      assert xs == [xs[0]] + xs[1..];
      var rest := Insert(x, xs[1..]);
      InsertBehind(x, xs, rest);
      [xs[0]] + rest
  }

  /** Everything inserted behind the head of a sorted list is at least the head. */
  lemma {:induction false} InsertBehind(x: string, xs: seq<string>, rest: seq<string>)
    requires Sorted(xs) && xs != [] && LexLess(xs[0], x)
    requires Sorted(rest) && multiset(rest) == multiset(xs[1..]) + multiset{x}
    ensures Sorted([xs[0]] + rest)
  {
    forall y | y in rest
      ensures LexLessEq(xs[0], y)
    {
      assert y in multiset(rest);
      if y != x {
        assert y in multiset(xs[1..]);
        var j :| 0 <= j < |xs| - 1 && xs[1..][j] == y;
        assert xs[j + 1] == y;
      }
    }
    var r := [xs[0]] + rest;
    forall i, j | 0 <= i < j < |r|
      ensures LexLessEq(r[i], r[j])
    {
      if i == 0 {
        assert r[j] == rest[j - 1] && r[j] in rest;
      } else {
        assert r[i] == rest[i - 1] && r[j] == rest[j - 1];
      }
    }
  }

  /** The sorted permutation of `xs`. */
  function Sort(xs: seq<string>): (r: seq<string>)
    ensures Sorted(r) && multiset(r) == multiset(xs)
  {
    if xs == [] then []
    else
      assert xs == xs[..|xs| - 1] + [xs[|xs| - 1]];
      Insert(xs[|xs| - 1], Sort(xs[..|xs| - 1]))
  }

  /** A permutation of a list without repeats has none either. */
  lemma {:induction false} PermutationDistinct(xs: seq<string>, ys: seq<string>)
    requires multiset(xs) == multiset(ys) && Distinct(xs)
    ensures Distinct(ys)
  {
    forall i, j | 0 <= i < j < |ys|
      ensures ys[i] != ys[j]
    {
      if ys[i] == ys[j] {
        assert ys == ys[..i] + [ys[i]] + ys[i + 1..j] + [ys[j]] + ys[j + 1..];
        assert multiset(ys)[ys[i]] >= 2;
        DistinctOnce(xs, ys[i]);
        assert false;
      }
    }
  }

  /** An element occurs at most once in a list without repeats. */
  lemma {:induction false} DistinctOnce(xs: seq<string>, x: string)
    requires Distinct(xs)
    ensures multiset(xs)[x] <= 1
  {
    if xs != [] {
      assert xs == [xs[0]] + xs[1..];
      DistinctOnce(xs[1..], x);
      if xs[0] == x {
        assert x !in xs[1..];
      }
    }
  }

  /** Sorted and without repeats: strictly increasing. */
  predicate StrictlySorted(xs: seq<string>)
  {
    forall i, j :: 0 <= i < j < |xs| ==> LexLess(xs[i], xs[j])
  }

  /**
   * Two strictly increasing lists with the same elements are equal: the order
   * a sorted key list comes from does not matter.
   */
  lemma {:induction false} StrictlySortedUnique(xs: seq<string>, ys: seq<string>)
    requires StrictlySorted(xs) && StrictlySorted(ys)
    requires forall x :: x in xs <==> x in ys
    ensures xs == ys
  {
    assert xs != [] ==> xs[0] in ys;
    assert ys != [] ==> ys[0] in xs;
    if xs != [] && ys != [] {
      if xs[0] != ys[0] {
        var a, b := xs[0], ys[0];
        assert b in xs;
        var i :| 0 <= i < |xs| && xs[i] == b;
        assert a in ys;
        var j :| 0 <= j < |ys| && ys[j] == a;
        assert LexLess(a, b);
        assert LexLess(b, a);
        LexLessAsymmetric(a, b);
      }
      assert xs == [xs[0]] + xs[1..] && ys == [ys[0]] + ys[1..];
      forall x
        ensures x in xs[1..] <==> x in ys[1..]
      {
        if x in xs[1..] {
          var i :| 1 <= i < |xs| && xs[i] == x;
          assert LexLess(xs[0], x);
          LexLessIrreflexive(x);
          assert x in xs && x in ys;
          var j :| 0 <= j < |ys| && ys[j] == x;
          assert j != 0 && ys[1..][j - 1] == x;
        }
        if x in ys[1..] {
          var j :| 1 <= j < |ys| && ys[j] == x;
          assert LexLess(ys[0], x);
          LexLessIrreflexive(x);
          assert x in ys && x in xs;
          var i :| 0 <= i < |xs| && xs[i] == x;
          assert i != 0 && xs[1..][i - 1] == x;
        }
      }
      StrictlySortedUnique(xs[1..], ys[1..]);
      assert xs == [xs[0]] + xs[1..] && ys == [ys[0]] + ys[1..];
    }
  }

  /** A sorted list without repeats is strictly increasing. */
  lemma {:induction false} SortedDistinctStrict(xs: seq<string>)
    requires Sorted(xs) && Distinct(xs)
    ensures StrictlySorted(xs)
  {
  }

  /** The elements of `xs` without repeats, each at its first occurrence: `[...new Set(xs)]`. */
  function Dedupe(xs: seq<string>): (r: seq<string>)
    ensures Distinct(r)
    ensures forall x :: x in r <==> x in xs
  {
    if xs == [] then []
    else
      var prefix := Dedupe(xs[..|xs| - 1]);
      var x := xs[|xs| - 1];
      assert xs == xs[..|xs| - 1] + [x];
      if x in prefix then prefix else prefix + [x]
  }

  /** Appending an element adds it at the end unless it was already there. */
  lemma {:induction false} DedupeSnoc(xs: seq<string>, x: string)
    ensures Dedupe(xs + [x]) == if x in Dedupe(xs) then Dedupe(xs) else Dedupe(xs) + [x]
  {
    assert (xs + [x])[..|xs|] == xs;
  }

  /** The first element is kept first. */
  lemma {:induction false} DedupeFirst(xs: seq<string>)
    requires xs != []
    ensures Dedupe(xs) != [] && Dedupe(xs)[0] == xs[0]
  {
    if |xs| > 1 {
      DedupeFirst(xs[..|xs| - 1]);
    }
  }

  /** Sorting a de-duplicated list gives the strictly increasing list of the distinct elements. */
  lemma {:induction false} SortDedupe(xs: seq<string>)
    ensures StrictlySorted(Sort(Dedupe(xs)))
    ensures forall x :: x in Sort(Dedupe(xs)) <==> x in xs
  {
    var d := Dedupe(xs);
    PermutationDistinct(d, Sort(d));
    SortedDistinctStrict(Sort(d));
    forall x
      ensures x in Sort(d) <==> x in d
    {
      assert x in Sort(d) <==> x in multiset(Sort(d));
    }
  }
}
