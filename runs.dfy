/**
 * Run-length grouping of consecutive timetable slots into blocks, the loop
 * shared by the student view, the teacher view and the legacy viewer.
 *
 * Each slot is seen as an `Item`: the tag it shows on the current axis, whether
 * it takes part at all (`kept`; the student view skips empty cells) and whether
 * it forces a new block even under an unchanged tag (`hard`; an empty period).
 * A block is a `Span` of slot indices from its first to its last member.
 */
module Runs {

  datatype Item<L> = Item(tag: L, kept: bool, hard: bool)

  datatype Span = Span(first: nat, last: nat)

  /** Item `j` cannot extend the block that began at item `s`. */
  predicate Breaks<L(==)>(items: seq<Item<L>>, j: nat, s: nat)
    requires j < |items| && s < |items|
  {
    items[j].tag != items[s].tag || items[j].hard
  }

  /**
   * The blocks formed by the first `k` items, scanning left to right: a kept
   * item opens a block when none is open or when it breaks the open one, and
   * otherwise becomes the open block's last member; items not kept are passed over.
   */
  function SpansOf<L(==)>(items: seq<Item<L>>, k: nat): (r: seq<Span>)
    requires k <= |items|
    ensures forall t :: 0 <= t < |r| ==> r[t].first <= r[t].last < k
  {
    if k == 0 then []
    else
      var prev := SpansOf(items, k - 1);
      var j := k - 1;
      if !items[j].kept then prev
      else if prev == [] || Breaks(items, j, prev[|prev| - 1].first) then prev + [Span(j, j)]
      else prev[..|prev| - 1] + [Span(prev[|prev| - 1].first, j)]
  }

  /** Index `j` lies within span number `t`. */
  predicate Within(sp: seq<Span>, t: int, j: int)
  {
    0 <= t < |sp| && sp[t].first <= j <= sp[t].last
  }

  /** Every span lies within the first `k` items, first member before last. */
  ghost predicate InRange(k: nat, sp: seq<Span>) {
    forall t :: 0 <= t < |sp| ==> sp[t].first <= sp[t].last < k
  }

  /** Earlier spans end before later ones begin. */
  ghost predicate Disjoint(sp: seq<Span>) {
    forall t, u :: 0 <= t < u < |sp| ==> sp[t].last < sp[u].first
  }

  /** Spans begin and end at kept items. */
  ghost predicate EndsKept<L>(items: seq<Item<L>>, sp: seq<Span>)
    requires InRange(|items|, sp)
  {
    forall t :: 0 <= t < |sp| ==> items[sp[t].first].kept && items[sp[t].last].kept
  }

  /** Item `j` takes part in the grouping. */
  predicate KeptAt<L>(items: seq<Item<L>>, j: nat)
    requires j < |items|
  {
    items[j].kept
  }

  /** Every kept item among the first `k` lies in some span. */
  ghost predicate Covers<L>(items: seq<Item<L>>, k: nat, sp: seq<Span>)
    requires k <= |items|
  {
    forall j :: 0 <= j < k && KeptAt(items, j) ==> exists t :: Within(sp, t, j)
  }

  /** No kept item inside a span breaks it. */
  ghost predicate Unbroken<L>(items: seq<Item<L>>, sp: seq<Span>)
    requires InRange(|items|, sp)
  {
    forall t, j {:trigger Within(sp, t, j)} ::
      Within(sp, t, j) && sp[t].first < j && KeptAt(items, j) ==> !Breaks(items, j, sp[t].first)
  }

  /** Every span but the first begins at an item that breaks the span before it. */
  ghost predicate StartsBreak<L>(items: seq<Item<L>>, sp: seq<Span>)
    requires InRange(|items|, sp)
  {
    forall t, u :: 0 <= t && t + 1 == u < |sp| ==> Breaks(items, sp[u].first, sp[t].first)
  }

  /**
   * `sp` is a partition of the kept items among the first `k` into maximal runs:
   * spans are ordered and disjoint, begin and end at kept items, hold every kept
   * item, no kept item inside a span breaks it, and every span but the first
   * begins at an item that breaks the span before it.
   */
  ghost predicate Partitions<L>(items: seq<Item<L>>, k: nat, sp: seq<Span>)
    requires k <= |items|
  {
    && InRange(k, sp)
    && InRange(|items|, sp)
    && Disjoint(sp)
    && EndsKept(items, sp)
    && Covers(items, k, sp)
    && Unbroken(items, sp)
    && StartsBreak(items, sp)
  }

  /** The left-to-right scan produces exactly such a partition. */
  lemma {:induction false} SpansOfPartitions<L>(items: seq<Item<L>>, k: nat)
    requires k <= |items|
    ensures Partitions(items, k, SpansOf(items, k))
  {
    if k > 0 {
      SpansOfPartitions(items, k - 1);
      var prev := SpansOf(items, k - 1);
      var j := k - 1;
      if !items[j].kept {
        assert SpansOf(items, k) == prev;
        SkipKeepsPartition(items, k, prev);
      } else if prev == [] || Breaks(items, j, prev[|prev| - 1].first) {
        assert SpansOf(items, k) == prev + [Span(j, j)];
        OpenKeepsPartition(items, k, prev);
      } else {
        assert SpansOf(items, k) == prev[..|prev| - 1] + [Span(prev[|prev| - 1].first, j)];
        ExtendKeepsPartition(items, k, prev);
      }
    }
  }

  /** An item not kept leaves a partition as it is. */
  lemma {:induction false} SkipKeepsPartition<L>(items: seq<Item<L>>, k: nat, prev: seq<Span>)
    requires 0 < k <= |items| && Partitions(items, k - 1, prev) && !items[k - 1].kept
    ensures Partitions(items, k, prev)
  {
  }

  /** A kept item that breaks the last span opens a new one. */
  lemma {:induction false} OpenKeepsPartition<L>(items: seq<Item<L>>, k: nat, prev: seq<Span>)
    requires 0 < k <= |items| && Partitions(items, k - 1, prev) && items[k - 1].kept
    requires prev == [] || Breaks(items, k - 1, prev[|prev| - 1].first)
    ensures Partitions(items, k, prev + [Span(k - 1, k - 1)])
  {
    var sp := prev + [Span(k - 1, k - 1)];
    OpenShape(items, k, prev);
    OpenCovers(items, k, prev);
    OpenUnbroken(items, k, prev);
  }

  lemma {:induction false} OpenShape<L>(items: seq<Item<L>>, k: nat, prev: seq<Span>)
    requires 0 < k <= |items| && items[k - 1].kept
    requires InRange(k - 1, prev) && Disjoint(prev) && EndsKept(items, prev) && StartsBreak(items, prev)
    requires prev == [] || Breaks(items, k - 1, prev[|prev| - 1].first)
    ensures var sp := prev + [Span(k - 1, k - 1)];
      InRange(k, sp) && InRange(|items|, sp) && Disjoint(sp) && EndsKept(items, sp) && StartsBreak(items, sp)
  {
  }

  lemma {:induction false} OpenCovers<L>(items: seq<Item<L>>, k: nat, prev: seq<Span>)
    requires 0 < k <= |items| && Covers(items, k - 1, prev)
    ensures Covers(items, k, prev + [Span(k - 1, k - 1)])
  {
    var sp := prev + [Span(k - 1, k - 1)];
    forall i | 0 <= i < k && KeptAt(items, i)
      ensures exists t :: Within(sp, t, i)
    {
      if i == k - 1 {
        assert Within(sp, |prev|, i);
      } else {
        var t :| Within(prev, t, i);
        assert Within(sp, t, i);
      }
    }
  }

  lemma {:induction false} OpenUnbroken<L>(items: seq<Item<L>>, k: nat, prev: seq<Span>)
    requires 0 < k <= |items| && InRange(k - 1, prev) && Unbroken(items, prev)
    ensures InRange(|items|, prev + [Span(k - 1, k - 1)])
    ensures Unbroken(items, prev + [Span(k - 1, k - 1)])
  {
    var sp := prev + [Span(k - 1, k - 1)];
    forall t, i | Within(sp, t, i) && sp[t].first < i && KeptAt(items, i)
      ensures !Breaks(items, i, sp[t].first)
    {
      assert t < |prev| && Within(prev, t, i);
    }
  }

  /** A kept item that does not break the last span becomes its last member. */
  lemma {:induction false} ExtendKeepsPartition<L>(items: seq<Item<L>>, k: nat, prev: seq<Span>)
    requires 0 < k <= |items| && Partitions(items, k - 1, prev) && items[k - 1].kept
    requires prev != [] && !Breaks(items, k - 1, prev[|prev| - 1].first)
    ensures Partitions(items, k, prev[..|prev| - 1] + [Span(prev[|prev| - 1].first, k - 1)])
  {
    ExtendShape(items, k, prev);
    ExtendCovers(items, k, prev);
    forall i | prev[|prev| - 1].last < i < k - 1
      ensures !items[i].kept
    {
      if items[i].kept { AfterLastUnkept(items, k - 1, prev, i); }
    }
    ExtendUnbroken(items, k, prev);
  }

  /** Past the last span of a partition no item is kept. */
  lemma {:induction false} AfterLastUnkept<L>(items: seq<Item<L>>, k: nat, sp: seq<Span>, i: nat)
    requires k <= |items| && Partitions(items, k, sp) && sp != []
    requires sp[|sp| - 1].last < i < k
    ensures !items[i].kept
  {
    if KeptAt(items, i) {
      var t :| Within(sp, t, i);
    }
  }

  lemma {:induction false} ExtendShape<L>(items: seq<Item<L>>, k: nat, prev: seq<Span>)
    requires 0 < k <= |items| && items[k - 1].kept && prev != []
    requires InRange(k - 1, prev) && Disjoint(prev) && EndsKept(items, prev) && StartsBreak(items, prev)
    ensures var sp := prev[..|prev| - 1] + [Span(prev[|prev| - 1].first, k - 1)];
      InRange(k, sp) && InRange(|items|, sp) && Disjoint(sp) && EndsKept(items, sp) && StartsBreak(items, sp)
  {
    var n := |prev| - 1;
    var sp := prev[..n] + [Span(prev[n].first, k - 1)];
    assert forall t :: 0 <= t < n ==> sp[t] == prev[t];
  }

  lemma {:induction false} ExtendCovers<L>(items: seq<Item<L>>, k: nat, prev: seq<Span>)
    requires 0 < k <= |items| && prev != [] && Covers(items, k - 1, prev)
    requires InRange(k - 1, prev) && Disjoint(prev)
    ensures Covers(items, k, prev[..|prev| - 1] + [Span(prev[|prev| - 1].first, k - 1)])
  {
    var n := |prev| - 1;
    var sp := prev[..n] + [Span(prev[n].first, k - 1)];
    forall i | 0 <= i < k && KeptAt(items, i)
      ensures exists t :: Within(sp, t, i)
    {
      if i == k - 1 {
        assert Within(sp, n, i);
      } else {
        var t :| Within(prev, t, i);
        assert Within(sp, t, i);
      }
    }
  }

  lemma {:induction false} ExtendUnbroken<L>(items: seq<Item<L>>, k: nat, prev: seq<Span>)
    requires 0 < k <= |items| && prev != [] && InRange(k - 1, prev) && Unbroken(items, prev)
    requires !Breaks(items, k - 1, prev[|prev| - 1].first)
    requires forall i :: prev[|prev| - 1].last < i < k - 1 ==> !items[i].kept
    ensures InRange(|items|, prev[..|prev| - 1] + [Span(prev[|prev| - 1].first, k - 1)])
    ensures Unbroken(items, prev[..|prev| - 1] + [Span(prev[|prev| - 1].first, k - 1)])
  {
    var n := |prev| - 1;
    var sp := prev[..n] + [Span(prev[n].first, k - 1)];
    forall t, i | Within(sp, t, i) && sp[t].first < i && KeptAt(items, i)
      ensures !Breaks(items, i, sp[t].first)
    {
      if t < n || i < k - 1 {
        assert Within(prev, t, i);
      }
    }
  }

  /**
   * Conversely the partition is unique: any `sp` meeting `Partitions` is the
   * scan's result, so `Partitions` is a complete reference definition of it.
   */
  lemma {:induction false} PartitionsUnique<L>(items: seq<Item<L>>, k: nat, sp: seq<Span>)
    requires k <= |items| && Partitions(items, k, sp)
    ensures sp == SpansOf(items, k)
    decreases k, 1
  {
    if k > 0 {
      if !KeptAt(items, k - 1) {
        DropUnkept(items, k, sp);
        PartitionsUnique(items, k - 1, sp);
      } else {
        var n := LastOwns(items, k, sp);
        if sp[n].first == k - 1 {
          UniqueOpened(items, k, sp);
        } else {
          UniqueExtended(items, k, sp);
        }
      }
    }
  }

  /** The unique partition whose last span holds only the last item. */
  lemma {:induction false} UniqueOpened<L>(items: seq<Item<L>>, k: nat, sp: seq<Span>)
    requires 0 < k <= |items| && Partitions(items, k, sp) && sp != []
    requires sp[|sp| - 1] == Span(k - 1, k - 1)
    ensures sp == SpansOf(items, k)
    decreases k, 0
  {
    var n := |sp| - 1;
    DropOpened(items, k, sp);
    PartitionsUnique(items, k - 1, sp[..n]);
    var prev := SpansOf(items, k - 1);
    assert prev == [] || Breaks(items, k - 1, prev[|prev| - 1].first) by {
      if prev != [] {
        assert prev[|prev| - 1] == sp[n - 1];
        assert Breaks(items, sp[n].first, sp[n - 1].first);
      }
    }
    assert KeptAt(items, k - 1);
    assert sp == sp[..n] + [Span(k - 1, k - 1)];
  }

  /** The unique partition whose last span holds the last item and earlier ones. */
  lemma {:induction false} UniqueExtended<L>(items: seq<Item<L>>, k: nat, sp: seq<Span>)
    requires 0 < k <= |items| && Partitions(items, k, sp) && sp != []
    requires sp[|sp| - 1].first < k - 1 && sp[|sp| - 1].last == k - 1
    ensures sp == SpansOf(items, k)
    decreases k, 0
  {
    var n := |sp| - 1;
    var l := LastKeptBefore(items, sp[n].first, k - 1);
    DropExtended(items, k, sp, l);
    var sp' := sp[..n] + [Span(sp[n].first, l)];
    PartitionsUnique(items, k - 1, sp');
    LastSpanUnbroken(items, k, sp);
    LastReplaced(sp, l, k - 1);
    ExtendStep(items, k, sp');
  }

  /** The last item of a partition, kept and inside a longer last span, does not break it. */
  lemma {:induction false} LastSpanUnbroken<L>(items: seq<Item<L>>, k: nat, sp: seq<Span>)
    requires 0 < k <= |items| && InRange(|items|, sp) && Unbroken(items, sp) && sp != []
    requires sp[|sp| - 1].first < k - 1 && sp[|sp| - 1].last == k - 1 && KeptAt(items, k - 1)
    ensures !Breaks(items, k - 1, sp[|sp| - 1].first)
  {
    assert Within(sp, |sp| - 1, k - 1);
  }

  /** Replacing the end of the last span and then restoring it gives back the spans. */
  lemma {:induction false} LastReplaced(sp: seq<Span>, l: nat, e: nat)
    requires sp != [] && sp[|sp| - 1].last == e
    ensures var n := |sp| - 1; var sp' := sp[..n] + [Span(sp[n].first, l)];
      |sp'| == |sp| && sp == sp'[..n] + [Span(sp'[n].first, e)]
  {
    var n := |sp| - 1;
    var sp' := sp[..n] + [Span(sp[n].first, l)];
    assert sp'[..n] == sp[..n];
  }

  /** One step of the scan: a kept item that does not break the last span extends it. */
  lemma {:induction false} ExtendStep<L>(items: seq<Item<L>>, k: nat, prev: seq<Span>)
    requires 0 < k <= |items| && prev == SpansOf(items, k - 1) && prev != [] && KeptAt(items, k - 1)
    requires !Breaks(items, k - 1, prev[|prev| - 1].first)
    ensures SpansOf(items, k) == prev[..|prev| - 1] + [Span(prev[|prev| - 1].first, k - 1)]
  {
  }

  /** In a partition of `k` items whose last item is kept, that item ends the last span. */
  lemma {:induction false} LastOwns<L>(items: seq<Item<L>>, k: nat, sp: seq<Span>) returns (n: nat)
    requires 0 < k <= |items| && Partitions(items, k, sp) && KeptAt(items, k - 1)
    ensures n == |sp| - 1 && sp[n].last == k - 1
  {
    var t :| Within(sp, t, k - 1);
    n := |sp| - 1;
  }

  /** The greatest kept index in `[lo, hi)`, given that `lo` is kept. */
  function LastKeptBefore<L>(items: seq<Item<L>>, lo: nat, hi: nat): (r: nat)
    requires lo < hi <= |items| && items[lo].kept
    ensures lo <= r < hi && items[r].kept
    ensures forall i :: r < i < hi ==> !items[i].kept
    decreases hi
  {
    if items[hi - 1].kept then hi - 1 else LastKeptBefore(items, lo, hi - 1)
  }

  /** An item not kept can be dropped from the end of a partition. */
  lemma {:induction false} DropUnkept<L>(items: seq<Item<L>>, k: nat, sp: seq<Span>)
    requires 0 < k <= |items| && Partitions(items, k, sp) && !KeptAt(items, k - 1)
    ensures Partitions(items, k - 1, sp)
  {
    forall t | 0 <= t < |sp|
      ensures sp[t].last < k - 1
    {
      assert items[sp[t].last].kept;
    }
  }

  /** A span made of the last item alone can be dropped from a partition. */
  lemma {:induction false} DropOpened<L>(items: seq<Item<L>>, k: nat, sp: seq<Span>)
    requires 0 < k <= |items| && Partitions(items, k, sp) && sp != []
    requires sp[|sp| - 1] == Span(k - 1, k - 1)
    ensures Partitions(items, k - 1, sp[..|sp| - 1])
  {
    var n := |sp| - 1;
    var sp' := sp[..n];
    forall t | 0 <= t < n
      ensures sp'[t].last < k - 1
    {
      assert sp[t].last < sp[n].first;
    }
    forall i | 0 <= i < k - 1 && KeptAt(items, i)
      ensures exists t :: Within(sp', t, i)
    {
      var t :| Within(sp, t, i);
      assert Within(sp', t, i);
    }
    forall t, i | Within(sp', t, i) && sp'[t].first < i && KeptAt(items, i)
      ensures !Breaks(items, i, sp'[t].first)
    {
      assert Within(sp, t, i);
    }
  }

  /** The last item can be dropped from a longer last span, which then ends at `l`. */
  lemma {:induction false} DropExtended<L>(items: seq<Item<L>>, k: nat, sp: seq<Span>, l: nat)
    requires 0 < k <= |items| && Partitions(items, k, sp) && sp != []
    requires sp[|sp| - 1].first < k - 1 && sp[|sp| - 1].last == k - 1
    requires sp[|sp| - 1].first <= l < k - 1 && items[l].kept
    requires forall i :: l < i < k - 1 ==> !items[i].kept
    ensures Partitions(items, k - 1, sp[..|sp| - 1] + [Span(sp[|sp| - 1].first, l)])
  {
    DropExtendedShape(items, k, sp, l);
    DropExtendedCovers(items, k, sp, l);
    DropExtendedUnbroken(items, k, sp, l);
  }

  lemma {:induction false} DropExtendedShape<L>(items: seq<Item<L>>, k: nat, sp: seq<Span>, l: nat)
    requires 0 < k <= |items| && sp != []
    requires InRange(k, sp) && Disjoint(sp) && EndsKept(items, sp) && StartsBreak(items, sp)
    requires sp[|sp| - 1].first <= l < k - 1 && items[l].kept
    ensures var sp' := sp[..|sp| - 1] + [Span(sp[|sp| - 1].first, l)];
      InRange(k - 1, sp') && InRange(|items|, sp') && Disjoint(sp') && EndsKept(items, sp') && StartsBreak(items, sp')
  {
    var n := |sp| - 1;
    var sp' := sp[..n] + [Span(sp[n].first, l)];
    assert forall t :: 0 <= t < n ==> sp'[t] == sp[t];
    forall t | 0 <= t < n
      ensures sp'[t].last < sp'[n].first
    {
      assert sp[t].last < sp[n].first;
    }
  }

  lemma {:induction false} DropExtendedCovers<L>(items: seq<Item<L>>, k: nat, sp: seq<Span>, l: nat)
    requires 0 < k <= |items| && sp != [] && Covers(items, k, sp)
    requires sp[|sp| - 1].first <= l < k - 1 && sp[|sp| - 1].last == k - 1
    requires forall i :: l < i < k - 1 ==> !items[i].kept
    ensures Covers(items, k - 1, sp[..|sp| - 1] + [Span(sp[|sp| - 1].first, l)])
  {
    var n := |sp| - 1;
    var sp' := sp[..n] + [Span(sp[n].first, l)];
    forall i | 0 <= i < k - 1 && KeptAt(items, i)
      ensures exists t :: Within(sp', t, i)
    {
      var t :| Within(sp, t, i);
      assert Within(sp', t, i);
    }
  }

  lemma {:induction false} DropExtendedUnbroken<L>(items: seq<Item<L>>, k: nat, sp: seq<Span>, l: nat)
    requires 0 < k <= |items| && sp != [] && InRange(|items|, sp) && Unbroken(items, sp)
    requires sp[|sp| - 1].first <= l < k - 1 && sp[|sp| - 1].last == k - 1
    ensures InRange(|items|, sp[..|sp| - 1] + [Span(sp[|sp| - 1].first, l)])
    ensures Unbroken(items, sp[..|sp| - 1] + [Span(sp[|sp| - 1].first, l)])
  {
    var n := |sp| - 1;
    var sp' := sp[..n] + [Span(sp[n].first, l)];
    forall t, i | Within(sp', t, i) && sp'[t].first < i && KeptAt(items, i)
      ensures !Breaks(items, i, sp'[t].first)
    {
      assert Within(sp, t, i);
    }
  }

  /** `Partitions` characterises the scan's result completely. */
  lemma {:induction false} PartitionsIff<L>(items: seq<Item<L>>, k: nat, sp: seq<Span>)
    requires k <= |items|
    ensures Partitions(items, k, sp) <==> sp == SpansOf(items, k)
  {
    SpansOfPartitions(items, k);
    if Partitions(items, k, sp) { PartitionsUnique(items, k, sp); }
  }

  /** When the item right after a span is kept, the next span starts there. */
  lemma {:induction false} NextSpanStarts<L>(items: seq<Item<L>>, k: nat, sp: seq<Span>, t: nat)
    requires k <= |items| && Partitions(items, k, sp) && t + 1 < |sp|
    requires sp[t].last + 1 < k && KeptAt(items, sp[t].last + 1)
    ensures sp[t + 1].first == sp[t].last + 1
  {
    var j := sp[t].last + 1;
    assert sp[t].last < sp[t + 1].first;
    var u :| Within(sp, u, j);
  }

  /** When the `k`-th item is kept, the last span ends there. */
  lemma {:induction false} LastSpanEnds<L>(items: seq<Item<L>>, k: nat, sp: seq<Span>)
    requires 0 < k <= |items| && Partitions(items, k, sp) && KeptAt(items, k - 1)
    ensures sp != [] && sp[|sp| - 1].last == k - 1
  {
    var n := LastOwns(items, k, sp);
  }

  /**
   * When every item takes part, the spans tile the items from first to last,
   * and without forced breaks neighbouring spans carry different tags.
   */
  lemma {:induction false} Tiles<L>(items: seq<Item<L>>, k: nat, sp: seq<Span>)
    requires k <= |items| && Partitions(items, k, sp)
    requires forall j :: 0 <= j < k ==> KeptAt(items, j)
    ensures sp == [] <==> k == 0
    ensures sp != [] ==> sp[0].first == 0 && sp[|sp| - 1].last == k - 1
    ensures forall t :: 0 <= t < |sp| - 1 ==> sp[t + 1].first == sp[t].last + 1
    ensures forall t :: 0 <= t < |sp| - 1 && !items[sp[t + 1].first].hard ==>
      items[sp[t + 1].first].tag != items[sp[t].first].tag
  {
    if k == 0 {
      PartitionsUnique(items, k, sp);
    } else {
      LastSpanEnds(items, k, sp);
      assert KeptAt(items, 0);
      var u :| Within(sp, u, 0);
    }
    forall t | 0 <= t < |sp| - 1
      ensures sp[t + 1].first == sp[t].last + 1
    {
      assert sp[t].last < sp[t + 1].first <= sp[t + 1].last < k;
      NextSpanStarts(items, k, sp, t);
    }
    forall t | 0 <= t < |sp| - 1 && !items[sp[t + 1].first].hard
      ensures items[sp[t + 1].first].tag != items[sp[t].first].tag
    {
      assert Breaks(items, sp[t + 1].first, sp[t].first);
    }
  }

  /** A kept item lies in a span whose first item carries its tag. */
  lemma {:induction false} OwnerTag<L>(items: seq<Item<L>>, k: nat, sp: seq<Span>, j: nat) returns (t: nat)
    requires k <= |items| && Partitions(items, k, sp) && j < k && KeptAt(items, j)
    ensures Within(sp, t, j) && items[sp[t].first].tag == items[j].tag
  {
    t :| Within(sp, t, j);
    if sp[t].first < j {
      assert !Breaks(items, j, sp[t].first);
    }
  }

  /** An item lies in at most one span of a partition. */
  lemma {:induction false} OwnerUnique<L>(items: seq<Item<L>>, k: nat, sp: seq<Span>, j: nat, t: nat, u: nat)
    requires k <= |items| && Partitions(items, k, sp)
    requires Within(sp, t, j) && Within(sp, u, j)
    ensures t == u
  {
  }
}
