/** Small value types shared by every module of the model. */
module Base {

  /** A value that may be absent: JavaScript's `null`/`undefined` next to a real value. */
  datatype Option<+T> = None | Some(value: T) {
    function GetOr(default: T): T {
      match this
      case Some(v) => v
      case None => default
    }
  }

  /** The first index of `x` in `s`, or -1: JavaScript's `Array.prototype.indexOf`. */
  function IndexOf<T(==)>(s: seq<T>, x: T): (r: int)
    ensures -1 <= r < |s|
    ensures r == -1 <==> x !in s
    ensures r >= 0 ==> s[r] == x && x !in s[..r]
  {
    if |s| == 0 then -1
    else if s[0] == x then 0
    else
      var k := IndexOf(s[1..], x);
      assert s == [s[0]] + s[1..];
      if k == -1 then -1
      else
        assert s[..k + 1] == [s[0]] + s[1..][..k];
        k + 1
  }

  /** `s[i]` when `i` is an index of `s`, else `undefined`. */
  function At<T>(s: seq<T>, i: int): (r: Option<T>)
    ensures r.Some? <==> 0 <= i < |s|
    ensures r.Some? ==> r.value == s[i]
  {
    if 0 <= i < |s| then Some(s[i]) else None
  }

  /** `xs.filter(p)`: the elements satisfying `p`, in order. */
  function Filter<T(!new)>(xs: seq<T>, p: T -> bool): (r: seq<T>)
    ensures |r| <= |xs|
    ensures forall x :: x in r <==> x in xs && p(x)
    ensures r == [] <==> forall x :: x in xs ==> !p(x)
  {
    if xs == [] then []
    else
      var last := xs[|xs| - 1];
      assert xs == xs[..|xs| - 1] + [last];
      Filter(xs[..|xs| - 1], p) + (if p(last) then [last] else [])
  }

  /** The first `x` of `a + [x] + b` is the one after `a` when `a` has none. */
  lemma {:induction false} IndexOfAfter<T>(a: seq<T>, x: T, b: seq<T>)
    requires x !in a
    ensures IndexOf(a + [x] + b, x) == |a|
  {
    var s := a + [x] + b;
    assert s[|a|] == x;
    assert s[..|a|] == a;
  }

  lemma {:induction false} ConcatAssoc<T>(a: seq<T>, b: seq<T>, c: seq<T>)
    ensures a + b + c == a + (b + c)
  {
  }

  lemma {:induction false} SnocMultiset<T>(xs: seq<T>)
    requires xs != []
    ensures multiset(xs) == multiset(xs[..|xs| - 1]) + multiset{xs[|xs| - 1]}
  {
    assert xs == xs[..|xs| - 1] + [xs[|xs| - 1]];
  }

  /** Filtering a concatenation filters each part. */
  lemma {:induction false} FilterAppend<T(!new)>(a: seq<T>, b: seq<T>, p: T -> bool)
    ensures Filter(a + b, p) == Filter(a, p) + Filter(b, p)
  {
    if b == [] {
      assert a + b == a;
    } else {
      var n := |b| - 1;
      var tail := if p(b[n]) then [b[n]] else [];
      assert (a + b)[..|a + b| - 1] == a + b[..n];
      assert (a + b)[|a + b| - 1] == b[n];
      assert Filter(a + b, p) == Filter(a + b[..n], p) + tail;
      FilterAppend(a, b[..n], p);
      assert Filter(b, p) == Filter(b[..n], p) + tail;
      ConcatAssoc(Filter(a, p), Filter(b[..n], p), tail);
    }
  }

  /** Filtering by a test and by its negation splits a list into two parts that together hold all of it. */
  lemma {:induction false} FilterComplement<T(!new)>(xs: seq<T>, p: T -> bool, q: T -> bool)
    requires forall x :: q(x) == !p(x)
    ensures multiset(Filter(xs, p)) + multiset(Filter(xs, q)) == multiset(xs)
  {
    if xs != [] {
      var n := |xs| - 1;
      var last := xs[n];
      FilterComplement(xs[..n], p, q);
      SnocMultiset(xs);
      FilterSnocMultiset(xs, p);
      FilterSnocMultiset(xs, q);
      OneSide(last, p(last), q(last));
      MultisetSwap(multiset(Filter(xs[..n], p)), multiset(if p(last) then [last] else []),
                   multiset(Filter(xs[..n], q)), multiset(if q(last) then [last] else []));
    }
  }

  lemma {:induction false} FilterSnocMultiset<T(!new)>(xs: seq<T>, p: T -> bool)
    requires xs != []
    ensures var n := |xs| - 1;
      multiset(Filter(xs, p)) == multiset(Filter(xs[..n], p)) + multiset(if p(xs[n]) then [xs[n]] else [])
  {
  }

  /** Exactly one of a test and its negation keeps an element. */
  lemma {:induction false} OneSide<T>(x: T, a: bool, b: bool)
    requires b == !a
    ensures multiset(if a then [x] else []) + multiset(if b then [x] else []) == multiset{x}
  {
  }

  lemma {:induction false} MultisetSwap<T>(a: multiset<T>, b: multiset<T>, c: multiset<T>, d: multiset<T>)
    ensures (a + b) + (c + d) == (a + c) + (b + d)
  {
  }

  /** Filtering twice by the same test changes nothing; by the negated test leaves nothing. */
  lemma {:induction false} FilterTwice<T(!new)>(xs: seq<T>, p: T -> bool, q: T -> bool)
    requires forall x :: q(x) == !p(x)
    ensures Filter(Filter(xs, p), p) == Filter(xs, p)
    ensures Filter(Filter(xs, p), q) == []
  {
    if xs != [] {
      var n := |xs| - 1;
      FilterTwice(xs[..n], p, q);
      var last := xs[n];
      FilterAppend(Filter(xs[..n], p), if p(last) then [last] else [], p);
      FilterAppend(Filter(xs[..n], p), if p(last) then [last] else [], q);
      if p(last) {
        assert [last][..0] == [];
        assert Filter([last], p) == [last];
      }
    }
  }

  /** Filtering by pointwise equal tests gives the same list. */
  lemma {:induction false} FilterSameTest<T(!new)>(xs: seq<T>, p: T -> bool, q: T -> bool)
    requires forall x :: x in xs ==> p(x) == q(x)
    ensures Filter(xs, p) == Filter(xs, q)
  {
    if xs != [] {
      var n := |xs| - 1;
      assert forall x :: x in xs[..n] ==> x in xs;
      FilterSameTest(xs[..n], p, q);
      assert xs[n] in xs;
      FilterSnoc(xs, p);
      FilterSnoc(xs, q);
      FilterSingle(xs[n], p);
      FilterSingle(xs[n], q);
    }
  }

  /** A weaker test keeps at least as many elements. */
  lemma {:induction false} FilterWeaker<T(!new)>(xs: seq<T>, p: T -> bool, q: T -> bool)
    requires forall x :: x in xs && p(x) ==> q(x)
    ensures |Filter(xs, p)| <= |Filter(xs, q)|
  {
    if xs != [] {
      var n := |xs| - 1;
      assert forall x :: x in xs[..n] ==> x in xs;
      FilterWeaker(xs[..n], p, q);
      assert xs[n] in xs;
      FilterSnoc(xs, p);
      FilterSnoc(xs, q);
      FilterSingle(xs[n], p);
      FilterSingle(xs[n], q);
    }
  }

  /** A test every element passes keeps the whole list. */
  lemma {:induction false} FilterAll<T(!new)>(xs: seq<T>, p: T -> bool)
    requires forall x :: x in xs ==> p(x)
    ensures Filter(xs, p) == xs
  {
    if xs != [] {
      var n := |xs| - 1;
      var init, last := xs[..n], xs[n];
      assert xs == init + [last];
      forall x | x in init
        ensures p(x)
      {
        var i :| 0 <= i < n && init[i] == x;
        assert xs[i] == x;
      }
      FilterAll(init, p);
      assert p(last) by { assert last in xs; }
      FilterSnoc(xs, p);
      FilterSingle(last, p);
    }
  }

  lemma {:induction false} FilterSingle<T(!new)>(x: T, p: T -> bool)
    ensures Filter([x], p) == if p(x) then [x] else []
  {
    assert [x][..0] == [];
  }

  /** The last element's contribution to a filter. */
  lemma {:induction false} FilterSnoc<T(!new)>(xs: seq<T>, p: T -> bool)
    requires xs != []
    ensures Filter(xs, p) == Filter(xs[..|xs| - 1], p) + Filter([xs[|xs| - 1]], p)
  {
    FilterSingle(xs[|xs| - 1], p);
  }

  /** Filtering first by a test that the second implies changes nothing. */
  lemma {:induction false} FilterNarrower<T(!new)>(xs: seq<T>, a: T -> bool, b: T -> bool)
    requires forall x :: x in xs && b(x) ==> a(x)
    ensures Filter(Filter(xs, a), b) == Filter(xs, b)
  {
    if xs != [] {
      var n := |xs| - 1;
      var init, last := xs[..n], xs[n];
      assert forall x :: x in init ==> x in xs;
      FilterNarrower(init, a, b);
      assert last in xs;
      FilterSnoc(xs, a);
      FilterSnoc(xs, b);
      FilterAppend(Filter(init, a), Filter([last], a), b);
      FilterSingle(last, a);
      FilterSingle(last, b);
    }
  }

  /** A test and its negation keep as many elements together as the list has. */
  lemma {:induction false} FilterSizes<T(!new)>(xs: seq<T>, q: T -> bool, r: T -> bool)
    requires forall x :: r(x) == !q(x)
    ensures |Filter(xs, q)| + |Filter(xs, r)| == |xs|
  {
    if xs != [] {
      FilterSizes(xs[..|xs| - 1], q, r);
    }
  }

  /** Splitting a list by a test and its negation splits the count of any other test. */
  lemma {:induction false} FilterSplitSize<T(!new)>(xs: seq<T>, p: T -> bool, q: T -> bool, r: T -> bool)
    requires forall x :: r(x) == !q(x)
    ensures |Filter(xs, p)| == |Filter(Filter(xs, q), p)| + |Filter(Filter(xs, r), p)|
  {
    if xs != [] {
      var n := |xs| - 1;
      var init, last := xs[..n], xs[n];
      FilterSplitSize(init, p, q, r);
      FilterSnoc(xs, p);
      FilterSnoc(xs, q);
      FilterSnoc(xs, r);
      FilterAppend(Filter(init, q), Filter([last], q), p);
      FilterAppend(Filter(init, r), Filter([last], r), p);
      FilterSingle(last, p);
      FilterSingle(last, q);
      FilterSingle(last, r);
    }
  }

  lemma {:induction false} SnocMembers<T>(xs: seq<T>)
    requires xs != []
    ensures forall x :: x in xs <==> x in xs[..|xs| - 1] || x == xs[|xs| - 1]
  {
    assert xs == xs[..|xs| - 1] + [xs[|xs| - 1]];
  }
}
