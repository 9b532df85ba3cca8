/**
 * The two keyed collections the admin pages keep their edits in: a
 * JavaScript `Map` keyed by number, which remembers insertion order, and a
 * plain object keyed by number (`Record<number, T>`), whose `Object.values`
 * lists the array-index keys in ascending order before the other keys in
 * insertion order.
 */
module JsCollections {
  import opened Base

  datatype Entry<V> = Entry(key: int, value: V)

  /** No key occurs twice. */
  predicate KeysDistinct<V>(m: seq<Entry<V>>)
  {
    forall i, j :: 0 <= i < j < |m| ==> m[i].key != m[j].key
  }

  function Keys<V>(m: seq<Entry<V>>): (r: seq<int>)
    ensures |r| == |m| && forall i :: 0 <= i < |m| ==> r[i] == m[i].key
  {
    if m == [] then [] else Keys(m[..|m| - 1]) + [m[|m| - 1].key]
  }

  function Values<V>(m: seq<Entry<V>>): (r: seq<V>)
    ensures |r| == |m| && forall i :: 0 <= i < |m| ==> r[i] == m[i].value
  {
    if m == [] then [] else Values(m[..|m| - 1]) + [m[|m| - 1].value]
  }

  /** The value stored under `k` (the first one, were a key to repeat). */
  function Find<V>(m: seq<Entry<V>>, k: int): (r: Option<V>)
    ensures r.None? <==> k !in Keys(m)
    ensures r.Some? ==> exists i :: 0 <= i < |m| && m[i] == Entry(k, r.value)
  {
    if m == [] then None
    else if m[0].key == k then
      assert m[0] == Entry(k, m[0].value);
      Some(m[0].value)
    else
      var r := Find(m[1..], k);
      assert Keys(m) == [m[0].key] + Keys(m[1..]);
      assert forall i :: 0 <= i < |m| - 1 ==> m[1..][i] == m[i + 1];
      r
  }

  /**
   * `map.set(k, v)` and `{...obj, [k]: v}`: a key already present keeps its
   * place and takes the new value; a new key goes to the end.
   */
  function Put<V>(m: seq<Entry<V>>, k: int, v: V): (r: seq<Entry<V>>)
    ensures k in Keys(m) ==> |r| == |m| && Keys(r) == Keys(m)
    ensures k !in Keys(m) ==> r == m + [Entry(k, v)]
    ensures forall i :: 0 <= i < |m| && i != IndexOf(Keys(m), k) ==> r[i] == m[i]
    ensures k in Keys(m) ==> r[IndexOf(Keys(m), k)] == Entry(k, v)
  {
    var i := IndexOf(Keys(m), k);
    if i < 0 then m + [Entry(k, v)]
    else
      var r := m[i := Entry(k, v)];
      assert Keys(r) == Keys(m);
      r
  }

  /** An entry of a map without repeated keys is what `Find` gives for its key. */
  lemma {:induction false} FindEntry<V>(m: seq<Entry<V>>, e: Entry<V>)
    requires KeysDistinct(m) && e in m
    ensures Find(m, e.key) == Some(e.value)
  {
    var i :| 0 <= i < |m| && m[i] == e;
    FindAt(m, i);
  }

  /** Putting a record under its own key keeps every entry filed under its own key. */
  lemma {:induction false} PutFiled<V>(m: seq<Entry<V>>, key: V -> int, v: V)
    requires forall e :: e in m ==> e.key == key(e.value)
    ensures forall e :: e in Put(m, key(v), v) ==> e.key == key(e.value)
  {
    var p := Put(m, key(v), v);
    forall e | e in p
      ensures e.key == key(e.value)
    {
      var i :| 0 <= i < |p| && p[i] == e;
      if i < |m| && i != IndexOf(Keys(m), key(v)) {
        assert m[i] in m;
      }
    }
  }

  /** Putting keeps the keys distinct, stores the new value and leaves the other keys alone. */
  lemma {:induction false} PutFind<V>(m: seq<Entry<V>>, k: int, v: V)
    requires KeysDistinct(m)
    ensures KeysDistinct(Put(m, k, v))
    ensures Find(Put(m, k, v), k) == Some(v)
    ensures forall j :: j != k ==> Find(Put(m, k, v), j) == Find(m, j)
  {
    var r := Put(m, k, v);
    assert Keys(r) == if k in Keys(m) then Keys(m) else Keys(m) + [k];
    assert KeysDistinct(r);
    var i := IndexOf(Keys(m), k);
    assert r[if i < 0 then |m| else i] == Entry(k, v);
    FindEntry(r, Entry(k, v));
    forall j | j != k
      ensures Find(r, j) == Find(m, j)
    {
      if j in Keys(m) {
        var p :| 0 <= p < |m| && Keys(m)[p] == j;
        FindEntry(m, m[p]);
        assert r[p] == m[p];
        FindEntry(r, m[p]);
      } else {
        assert j !in Keys(r);
      }
    }
  }

  /** The first entry holding a key is the one `Find` returns for it. */
  lemma {:induction false} FindAt<V>(m: seq<Entry<V>>, i: nat)
    requires i < |m| && forall j :: 0 <= j < i ==> m[j].key != m[i].key
    ensures Find(m, m[i].key) == Some(m[i].value)
  {
    if i > 0 {
      FindAt(m[1..], i - 1);
    }
  }

  /** `delete obj[k]` and `map.delete(k)`: the entry goes, the others keep their order. */
  function Remove<V(!new)>(m: seq<Entry<V>>, k: int): (r: seq<Entry<V>>)
    ensures |r| <= |m|
    ensures forall e :: e in r <==> e in m && e.key != k
    ensures KeysDistinct(m) ==> KeysDistinct(r)
  {
    if m == [] then []
    else
      var prefix := m[..|m| - 1];
      var rest := Remove(prefix, k);
      KeptDistinct(m, rest);
      assert m == prefix + [m[|m| - 1]];
      rest + (if m[|m| - 1].key == k then [] else [m[|m| - 1]])
  }

  /** Removing keeps keys distinct and forgets exactly `k`. */
  lemma {:induction false} RemoveFind<V(!new)>(m: seq<Entry<V>>, k: int)
    requires KeysDistinct(m)
    ensures Find(Remove(m, k), k) == None
    ensures forall j :: j != k ==> Find(Remove(m, k), j) == Find(m, j)
  {
    var r := Remove(m, k);
    forall i | 0 <= i < |r|
      ensures r[i].key != k
    {
      assert r[i] in r;
    }
    forall j | j != k
      ensures Find(r, j) == Find(m, j)
    {
      if j in Keys(m) {
        var p :| 0 <= p < |m| && Keys(m)[p] == j;
        FindEntry(m, m[p]);
        FindEntry(r, m[p]);
      } else {
        forall p | 0 <= p < |r|
          ensures r[p].key != j
        {
          assert r[p] in r;
          var q :| 0 <= q < |m| && m[q] == r[p];
          assert Keys(m)[q] == r[p].key;
        }
      }
    }
  }

  /** Integer keys JavaScript treats as array indices. */
  predicate IsIndexKey(k: int)
  {
    0 <= k < 0xFFFF_FFFF
  }

  /** Entries kept from all but the last of `m` never share the last entry's key. */
  lemma {:induction false} KeptDistinct<V>(m: seq<Entry<V>>, rest: seq<Entry<V>>)
    requires m != []
    requires forall e :: e in rest ==> e in m[..|m| - 1]
    requires KeysDistinct(m[..|m| - 1]) ==> KeysDistinct(rest)
    ensures KeysDistinct(m) ==> KeysDistinct(rest) && KeysDistinct(rest + [m[|m| - 1]])
  {
    var prefix := m[..|m| - 1];
    forall i | 0 <= i < |rest| && KeysDistinct(m)
      ensures rest[i].key != m[|m| - 1].key
    {
      assert rest[i] in rest;
      assert rest[i] in prefix;
      var p :| 0 <= p < |prefix| && prefix[p] == rest[i];
      assert m[p] == rest[i];
    }
  }

  function IndexEntries<V(!new)>(m: seq<Entry<V>>): (r: seq<Entry<V>>)
    ensures forall e :: e in r <==> e in m && IsIndexKey(e.key)
    ensures KeysDistinct(m) ==> KeysDistinct(r)
  {
    if m == [] then []
    else
      var prefix := m[..|m| - 1];
      var rest := IndexEntries(prefix);
      KeptDistinct(m, rest);
      rest + (if IsIndexKey(m[|m| - 1].key) then [m[|m| - 1]] else [])
  }

  function OtherEntries<V(!new)>(m: seq<Entry<V>>): (r: seq<Entry<V>>)
    ensures forall e :: e in r <==> e in m && !IsIndexKey(e.key)
    ensures KeysDistinct(m) ==> KeysDistinct(r)
  {
    if m == [] then []
    else
      var prefix := m[..|m| - 1];
      var rest := OtherEntries(prefix);
      KeptDistinct(m, rest);
      rest + (if IsIndexKey(m[|m| - 1].key) then [] else [m[|m| - 1]])
  }

  /** The entry's key is an array index. */
  predicate IndexKeyed<V>(e: Entry<V>)
  {
    IsIndexKey(e.key)
  }

  /** The entry's key is not an array index. */
  predicate OtherKeyed<V>(e: Entry<V>)
  {
    !IsIndexKey(e.key)
  }

  /** The index-keyed entries keep their insertion order: they are a `filter`. */
  lemma {:induction false} IndexEntriesIsFilter<V(!new)>(m: seq<Entry<V>>)
    ensures IndexEntries(m) == Filter(m, IndexKeyed)
  {
    if m != [] {
      IndexEntriesIsFilter(m[..|m| - 1]);
      FilterSnoc(m, IndexKeyed);
      FilterSingle(m[|m| - 1], IndexKeyed);
    }
  }

  /** The other entries keep their insertion order: they are a `filter`. */
  lemma {:induction false} OtherEntriesIsFilter<V(!new)>(m: seq<Entry<V>>)
    ensures OtherEntries(m) == Filter(m, OtherKeyed)
  {
    if m != [] {
      OtherEntriesIsFilter(m[..|m| - 1]);
      FilterSnoc(m, OtherKeyed);
      FilterSingle(m[|m| - 1], OtherKeyed);
    }
  }

  /** Deleting a key keeps the other entries in their order: it is a `filter` on the key. */
  lemma {:induction false} RemoveIsFilter<V(!new)>(m: seq<Entry<V>>, k: int)
    ensures Remove(m, k) == Filter(m, (e: Entry<V>) => e.key != k)
  {
    var keep := (e: Entry<V>) => e.key != k;
    if m != [] {
      RemoveIsFilter(m[..|m| - 1], k);
      FilterSnoc(m, keep);
      FilterSingle(m[|m| - 1], keep);
    }
  }

  predicate KeysAscending<V>(m: seq<Entry<V>>)
  {
    forall i, j :: 0 <= i < j < |m| ==> m[i].key < m[j].key
  }

  /** Puts `e` in front of the first entry with a larger key. */
  function InsertByKey<V(!new)>(e: Entry<V>, m: seq<Entry<V>>): (r: seq<Entry<V>>)
    requires KeysAscending(m) && e.key !in Keys(m)
    ensures KeysAscending(r)
    ensures forall x :: x in r <==> x == e || x in m
  {
    if m == [] then [e]
    else if e.key < m[0].key then [e] + m
    else
      AscendingTail(e, m);
      var rest := InsertByKey(e, m[1..]);
      AscendingCons(e, m, rest);
      [m[0]] + rest
  }

  lemma {:induction false} AscendingTail<V>(e: Entry<V>, m: seq<Entry<V>>)
    requires m != [] && KeysAscending(m) && e.key !in Keys(m)
    ensures KeysAscending(m[1..]) && e.key !in Keys(m[1..]) && e.key != m[0].key
  {
    assert Keys(m) == [m[0].key] + Keys(m[1..]);
  }

  /** The head of `m`, below `e`, in front of `e` inserted into the tail. */
  lemma {:induction false} AscendingCons<V>(e: Entry<V>, m: seq<Entry<V>>, rest: seq<Entry<V>>)
    requires m != [] && KeysAscending(m) && m[0].key < e.key
    requires KeysAscending(rest) && forall x :: x in rest <==> x == e || x in m[1..]
    ensures KeysAscending([m[0]] + rest)
    ensures forall x :: x in [m[0]] + rest <==> x == e || x in m
  {
    forall x | x in rest
      ensures m[0].key < x.key
    {
      if x != e {
        var i :| 0 <= i < |m| - 1 && m[1..][i] == x;
        assert m[i + 1] == x;
      }
    }
    var r := [m[0]] + rest;
    forall i, j | 0 <= i < j < |r|
      ensures r[i].key < r[j].key
    {
      if i > 0 {
        assert r[i] == rest[i - 1] && r[j] == rest[j - 1];
      } else {
        assert r[j] in rest;
      }
    }
    assert m == [m[0]] + m[1..];
  }

  /** The entries in ascending key order. */
  function SortByKey<V(!new)>(m: seq<Entry<V>>): (r: seq<Entry<V>>)
    requires KeysDistinct(m)
    ensures KeysAscending(r)
    ensures forall x :: x in r <==> x in m
  {
    if m == [] then []
    else
      var prefix := m[..|m| - 1];
      var last := m[|m| - 1];
      assert forall x :: x in m <==> x in prefix || x == last by {
        assert m == prefix + [last];
      }
      var sorted := SortByKey(prefix);
      forall i | 0 <= i < |sorted|
        ensures sorted[i].key != last.key
      {
        assert sorted[i] in prefix;
        var p :| 0 <= p < |prefix| && prefix[p] == sorted[i];
        assert m[p] == sorted[i];
      }
      InsertByKey(last, sorted)
  }

  /** `Object.entries(obj)` for an object keyed by numbers. */
  function ObjectEntries<V(!new)>(m: seq<Entry<V>>): (r: seq<Entry<V>>)
    requires KeysDistinct(m)
    ensures KeysDistinct(r)
    ensures forall e :: e in r <==> e in m
  {
    var index := SortByKey(IndexEntries(m));
    var other := OtherEntries(m);
    IndexKeysFirst(index, other);
    index + other
  }

  /**
   * The order of `Object.entries`: a first part holding exactly the
   * index-keyed entries in ascending key order, then the other entries in
   * insertion order.
   */
  lemma {:induction false} ObjectEntriesOrder<V(!new)>(m: seq<Entry<V>>)
    requires KeysDistinct(m)
    ensures var r := ObjectEntries(m);
      exists n :: 0 <= n <= |r| && KeysAscending(r[..n])
        && (forall e :: e in r[..n] <==> e in m && IsIndexKey(e.key))
        && r[n..] == Filter(m, OtherKeyed)
  {
    var index := SortByKey(IndexEntries(m));
    var r := ObjectEntries(m);
    OtherEntriesIsFilter(m);
    var n := |index|;
    assert r[..n] == index && r[n..] == OtherEntries(m);
  }

  /** Array-index keys and other keys never clash, so listing the one group before the other repeats no key. */
  lemma {:induction false} IndexKeysFirst<V>(index: seq<Entry<V>>, other: seq<Entry<V>>)
    requires KeysAscending(index) && KeysDistinct(other)
    requires forall e :: e in index ==> IsIndexKey(e.key)
    requires forall e :: e in other ==> !IsIndexKey(e.key)
    ensures KeysDistinct(index + other)
  {
    var r := index + other;
    forall i, j | 0 <= i < j < |r|
      ensures r[i].key != r[j].key
    {
      if j < |index| {
        assert r[i] == index[i] && r[j] == index[j];
      } else if i >= |index| {
        assert r[i] == other[i - |index|] && r[j] == other[j - |index|];
      } else {
        assert r[i] == index[i] && r[j] == other[j - |index|];
        assert r[i] in index && r[j] in other;
      }
    }
  }

  /** `Object.values(obj)` for an object keyed by numbers. */
  function ObjectValues<V(!new)>(m: seq<Entry<V>>): seq<V>
    requires KeysDistinct(m)
  {
    Values(ObjectEntries(m))
  }

  /** Applies `map.set(e.key, e.value)` for each entry in turn. */
  function PutAll<V>(m: seq<Entry<V>>, es: seq<Entry<V>>): seq<Entry<V>>
  {
    if es == [] then m
    else
      var last := es[|es| - 1];
      Put(PutAll(m, es[..|es| - 1]), last.key, last.value)
  }

  /** The entries of `es` whose key `m` does not hold, in order. */
  function Fresh<V>(es: seq<Entry<V>>, m: seq<Entry<V>>): seq<Entry<V>>
  {
    if es == [] then []
    else Fresh(es[..|es| - 1], m) + (if es[|es| - 1].key in Keys(m) then [] else [es[|es| - 1]])
  }

  /** The new entries come from `es` and carry keys `m` lacks; every such key of `es` is among them. */
  lemma {:induction false} FreshKeys<V>(es: seq<Entry<V>>, m: seq<Entry<V>>)
    ensures forall e :: e in Fresh(es, m) ==> e in es && e.key !in Keys(m)
    ensures forall k :: k in Keys(es) && k !in Keys(m) ==> k in Keys(Fresh(es, m))
  {
    if es != [] {
      var prefix := es[..|es| - 1];
      var last := es[|es| - 1];
      FreshKeys(prefix, m);
      assert es == prefix + [last];
      assert Keys(es) == Keys(prefix) + [last.key];
      assert Keys(Fresh(es, m)) == Keys(Fresh(prefix, m)) + (if last.key in Keys(m) then [] else [last.key]);
    }
  }

  /** The last key of a list without repeated keys is not among the new keys of the rest. */
  lemma {:induction false} LastKeyFresh<V>(es: seq<Entry<V>>, m: seq<Entry<V>>)
    requires es != [] && KeysDistinct(es)
    ensures es[|es| - 1].key !in Keys(Fresh(es[..|es| - 1], m))
  {
    var prefix := es[..|es| - 1];
    var f := Fresh(prefix, m);
    FreshKeys(prefix, m);
    forall i | 0 <= i < |f|
      ensures f[i].key != es[|es| - 1].key
    {
      assert f[i] in f;
      var q :| 0 <= q < |prefix| && prefix[q] == f[i];
      assert es[q] == f[i];
    }
  }

  /** The new entries of a list without repeated keys have none either. */
  lemma {:induction false} FreshDistinct<V>(es: seq<Entry<V>>, m: seq<Entry<V>>)
    requires KeysDistinct(es)
    ensures KeysDistinct(Fresh(es, m))
  {
    if es != [] {
      var prefix := es[..|es| - 1];
      var last := es[|es| - 1];
      var fp := Fresh(prefix, m);
      assert KeysDistinct(fp) by {
        assert KeysDistinct(prefix);
        FreshDistinct(prefix, m);
      }
      if last.key in Keys(m) {
        assert Fresh(es, m) == fp + [];
      } else {
        LastKeyFresh(es, m);
        DistinctSnoc(fp, last);
      }
    }
  }

  /** Appending an entry with a new key keeps the keys distinct. */
  lemma {:induction false} DistinctSnoc<V>(m: seq<Entry<V>>, e: Entry<V>)
    requires KeysDistinct(m) && e.key !in Keys(m)
    ensures KeysDistinct(m + [e])
  {
    assert forall i :: 0 <= i < |m| ==> Keys(m)[i] == m[i].key;
  }

  /** Looking a key up after appending an entry. */
  lemma {:induction false} FindSnoc<V>(xs: seq<Entry<V>>, e: Entry<V>, k: int)
    ensures Find(xs + [e], k) == if k in Keys(xs) then Find(xs, k) else if e.key == k then Some(e.value) else None
  {
    if xs != [] {
      assert (xs + [e])[1..] == xs[1..] + [e];
      assert Keys(xs) == [xs[0].key] + Keys(xs[1..]);
      FindSnoc(xs[1..], e, k);
    }
  }

  lemma {:induction false} KeysAppend<V>(a: seq<Entry<V>>, b: seq<Entry<V>>)
    ensures Keys(a + b) == Keys(a) + Keys(b)
  {
  }

  /** The keys after one `Put`: unchanged, or the new key at the end. */
  lemma {:induction false} PutKeys<V>(p: seq<Entry<V>>, k: int, v: V)
    ensures Keys(Put(p, k, v)) == if k in Keys(p) then Keys(p) else Keys(p) + [k]
  {
    KeysAppend(p, [Entry(k, v)]);
  }

  /** The keys after setting each entry of `es`: those of `m`, then the new ones in order. */
  lemma {:induction false} PutAllKeys<V>(m: seq<Entry<V>>, es: seq<Entry<V>>)
    requires KeysDistinct(es)
    ensures Keys(PutAll(m, es)) == Keys(m) + Keys(Fresh(es, m))
  {
    if es != [] {
      var prefix := es[..|es| - 1];
      var last := es[|es| - 1];
      var p := PutAll(m, prefix);
      var fp := Fresh(prefix, m);
      var added := if last.key in Keys(m) then [] else [last];
      assert Keys(p) == Keys(m) + Keys(fp) by {
        assert KeysDistinct(prefix);
        PutAllKeys(m, prefix);
      }
      assert last.key in Keys(p) <==> last.key in Keys(m) by {
        LastKeyFresh(es, m);
      }
      PutKeys(p, last.key, last.value);
      KeysAppend(fp, added);
      assert Keys(added) == if last.key in Keys(m) then [] else [last.key];
      assert Keys(Fresh(es, m)) == Keys(fp) + Keys(added);
      if last.key in Keys(m) {
        assert Keys(Fresh(es, m)) == Keys(fp);
        assert Keys(PutAll(m, es)) == Keys(p);
      } else {
        assert Keys(Fresh(es, m)) == Keys(fp) + [last.key];
        assert Keys(PutAll(m, es)) == Keys(p) + [last.key];
        ConcatAssoc(Keys(m), Keys(fp), [last.key]);
      }
    } else {
      assert Keys(m) + Keys(Fresh(es, m)) == Keys(m) + [];
    }
  }

  /** Setting entries with distinct keys on a map without repeated keys leaves none repeated. */
  lemma {:induction false} PutAllDistinct<V>(m: seq<Entry<V>>, es: seq<Entry<V>>)
    requires KeysDistinct(m) && KeysDistinct(es)
    ensures KeysDistinct(PutAll(m, es))
  {
    var r := PutAll(m, es);
    var f := Fresh(es, m);
    PutAllKeys(m, es);
    FreshKeys(es, m);
    FreshDistinct(es, m);
    forall i, j | 0 <= i < j < |r|
      ensures r[i].key != r[j].key
    {
      assert Keys(r)[i] == r[i].key && Keys(r)[j] == r[j].key;
      if j < |m| {
        assert Keys(m)[i] == m[i].key && Keys(m)[j] == m[j].key;
      } else if i >= |m| {
        assert Keys(f)[i - |m|] == f[i - |m|].key && Keys(f)[j - |m|] == f[j - |m|].key;
      } else {
        assert f[j - |m|] in f;
        assert Keys(m)[i] == r[i].key;
      }
    }
  }

  /** After setting each entry of `es`, a key has the value `es` gives it, or else its old one. */
  lemma {:induction false} PutAllFind<V>(m: seq<Entry<V>>, es: seq<Entry<V>>, k: int)
    requires KeysDistinct(m) && KeysDistinct(es)
    ensures Find(PutAll(m, es), k) == if k in Keys(es) then Find(es, k) else Find(m, k)
  {
    if es != [] {
      var prefix := es[..|es| - 1];
      assert KeysDistinct(prefix);
      PutAllFind(m, prefix, k);
      PutAllDistinct(m, prefix);
      PutFindStep(PutAll(m, prefix), m, es, k);
    }
  }

  /** One step of `PutAllFind`: setting the last entry of `es`. */
  lemma {:induction false} PutFindStep<V>(p: seq<Entry<V>>, m: seq<Entry<V>>, es: seq<Entry<V>>, k: int)
    requires es != [] && KeysDistinct(p) && KeysDistinct(es)
    requires Find(p, k) == if k in Keys(es[..|es| - 1]) then Find(es[..|es| - 1], k) else Find(m, k)
    ensures Find(Put(p, es[|es| - 1].key, es[|es| - 1].value), k)
         == if k in Keys(es) then Find(es, k) else Find(m, k)
  {
    var prefix := es[..|es| - 1];
    var last := es[|es| - 1];
    assert k in Keys(es) <==> k in Keys(prefix) || k == last.key by {
      assert es == prefix + [last];
      assert Keys(es) == Keys(prefix) + [last.key];
    }
    assert Find(es, k) == if k in Keys(prefix) then Find(prefix, k) else if last.key == k then Some(last.value) else None by {
      assert es == prefix + [last];
      FindSnoc(prefix, last, k);
    }
    assert last.key !in Keys(prefix) by {
      forall i | 0 <= i < |prefix|
        ensures prefix[i].key != last.key
      {
        assert es[i] == prefix[i];
      }
    }
    PutFind(p, last.key, last.value);
  }

  /**
   * Setting every entry of `es` (keys distinct) on the map `m`: each entry of
   * `m` keeps its place and takes the value `es` has for its key, if any; the
   * entries with new keys follow in their order in `es`.
   */
  lemma {:induction false} PutAllShape<V>(m: seq<Entry<V>>, es: seq<Entry<V>>)
    requires KeysDistinct(m) && KeysDistinct(es)
    ensures KeysDistinct(PutAll(m, es))
    ensures |PutAll(m, es)| == |m| + |Fresh(es, m)|
    ensures forall i :: 0 <= i < |m| ==> PutAll(m, es)[i].key == m[i].key
    ensures forall i :: 0 <= i < |m| ==> Some(PutAll(m, es)[i].value) == if m[i].key in Keys(es) then Find(es, m[i].key) else Some(m[i].value)
    ensures PutAll(m, es)[|m|..] == Fresh(es, m)
  {
    PutAllKeys(m, es);
    PutAllDistinct(m, es);
    forall i | 0 <= i < |m|
      ensures PutAll(m, es)[i].key == m[i].key
    {
      assert Keys(PutAll(m, es))[i] == Keys(m)[i];
    }
    forall i | 0 <= i < |m|
      ensures Some(PutAll(m, es)[i].value) == if m[i].key in Keys(es) then Find(es, m[i].key) else Some(m[i].value)
    {
      PutAllKept(m, es, i);
    }
    PutAllAppended(m, es);
  }

  /** An entry of `m` after setting the entries of `es`. */
  lemma {:induction false} PutAllKept<V>(m: seq<Entry<V>>, es: seq<Entry<V>>, i: nat)
    requires KeysDistinct(m) && KeysDistinct(es) && i < |m|
    requires KeysDistinct(PutAll(m, es)) && Keys(PutAll(m, es)) == Keys(m) + Keys(Fresh(es, m))
    ensures Some(PutAll(m, es)[i].value) == if m[i].key in Keys(es) then Find(es, m[i].key) else Some(m[i].value)
  {
    var r := PutAll(m, es);
    assert Keys(r)[i] == m[i].key;
    FindAt(r, i);
    PutAllFind(m, es, m[i].key);
    FindAt(m, i);
  }

  /** The entries appended by setting the entries of `es` are its new ones, in order. */
  lemma {:induction false} PutAllAppended<V>(m: seq<Entry<V>>, es: seq<Entry<V>>)
    requires KeysDistinct(m) && KeysDistinct(es)
    requires KeysDistinct(PutAll(m, es)) && Keys(PutAll(m, es)) == Keys(m) + Keys(Fresh(es, m))
    ensures PutAll(m, es)[|m|..] == Fresh(es, m)
  {
    var r := PutAll(m, es);
    forall t | 0 <= t < |Fresh(es, m)|
      ensures r[|m| + t] == Fresh(es, m)[t]
    {
      PutAllFind(m, es, Fresh(es, m)[t].key);
      AppendedAt(r, m, es, t);
    }
  }

  /** An appended entry of a map that holds the values `es` gives: the new entry of `es` at that place. */
  lemma {:induction false} AppendedAt<V>(r: seq<Entry<V>>, m: seq<Entry<V>>, es: seq<Entry<V>>, t: nat)
    requires KeysDistinct(es) && t < |Fresh(es, m)|
    requires KeysDistinct(r) && Keys(r) == Keys(m) + Keys(Fresh(es, m))
    requires var k := Fresh(es, m)[t].key; Find(r, k) == if k in Keys(es) then Find(es, k) else Find(m, k)
    ensures r[|m| + t] == Fresh(es, m)[t]
  {
    var f := Fresh(es, m);
    var i := |m| + t;
    assert i < |r| && r[i].key == f[t].key by { KeyAtAppended(r, m, f, t); }
    assert Find(r, f[t].key) == Some(f[t].value) by { FreshEntryFound(es, m, t); }
    EntryAt(r, i, f[t]);
  }

  /** When the keys of `r` are those of `m` followed by those of `f`, entry `t` of `f` has its key at `|m| + t` in `r`. */
  lemma {:induction false} KeyAtAppended<V>(r: seq<Entry<V>>, m: seq<Entry<V>>, f: seq<Entry<V>>, t: nat)
    requires t < |f| && Keys(r) == Keys(m) + Keys(f)
    ensures |m| + t < |r| && r[|m| + t].key == f[t].key
  {
    assert |Keys(m)| == |m| && Keys(f)[t] == f[t].key;
    assert (Keys(m) + Keys(f))[|m| + t] == f[t].key;
  }

  /** A new entry comes from `es`, which maps its key to its value. */
  lemma {:induction false} FreshEntryFound<V>(es: seq<Entry<V>>, m: seq<Entry<V>>, t: nat)
    requires KeysDistinct(es) && t < |Fresh(es, m)|
    ensures var e := Fresh(es, m)[t]; e.key in Keys(es) && Find(es, e.key) == Some(e.value)
  {
    var e := Fresh(es, m)[t];
    assert e in Fresh(es, m);
    FreshKeys(es, m);
    var q :| 0 <= q < |es| && es[q] == e;
    assert Keys(es)[q] == e.key;
    FindEntry(es, e);
  }

  /** In a map without repeated keys, the entry at a key's position is the one `Find` reports. */
  lemma {:induction false} EntryAt<V>(r: seq<Entry<V>>, i: nat, e: Entry<V>)
    requires KeysDistinct(r) && i < |r| && r[i].key == e.key && Find(r, e.key) == Some(e.value)
    ensures r[i] == e
  {
    FindAt(r, i);
  }

  /** `xs.map(x => [key(x), x])`: the entries a `Map` is built from. */
  function EntriesBy<V>(xs: seq<V>, key: V -> int): (r: seq<Entry<V>>)
    ensures |r| == |xs| && forall i :: 0 <= i < |xs| ==> r[i] == Entry(key(xs[i]), xs[i])
  {
    seq(|xs|, i requires 0 <= i < |xs| => Entry(key(xs[i]), xs[i]))
  }

  /** The keys of a list of records. */
  function KeysBy<V>(xs: seq<V>, key: V -> int): (r: seq<int>)
    ensures |r| == |xs| && forall i :: 0 <= i < |xs| ==> r[i] == key(xs[i])
  {
    seq(|xs|, i requires 0 <= i < |xs| => key(xs[i]))
  }

  /** No two records share a key (as database ids do not). */
  predicate DistinctBy<V>(xs: seq<V>, key: V -> int)
  {
    forall i, j :: 0 <= i < j < |xs| ==> key(xs[i]) != key(xs[j])
  }

  /** `new Map(xs.map(x => [key(x), x]))`. */
  function MapFrom<V>(xs: seq<V>, key: V -> int): seq<Entry<V>>
  {
    PutAll([], EntriesBy(xs, key))
  }

  /**
   * `Array.from(map.values())` after `map.set(key(e), e)` for each `e` of
   * `edits`, on the map built from `base`.
   */
  function Overlaid<V>(base: seq<V>, edits: seq<V>, key: V -> int): seq<V>
  {
    Values(PutAll(MapFrom(base, key), EntriesBy(edits, key)))
  }

  /** The edits whose key no base record has, in order. */
  function Unmatched<V(!new)>(edits: seq<V>, base: seq<V>, key: V -> int): (r: seq<V>)
    ensures forall x :: x in r <==> x in edits && key(x) !in KeysBy(base, key)
  {
    if edits == [] then []
    else
      var last := edits[|edits| - 1];
      assert edits == edits[..|edits| - 1] + [last];
      Unmatched(edits[..|edits| - 1], base, key) + (if key(last) in KeysBy(base, key) then [] else [last])
  }

  lemma {:induction false} FreshOfEmpty<V>(es: seq<Entry<V>>)
    ensures Fresh(es, []) == es
  {
    if es != [] {
      FreshOfEmpty(es[..|es| - 1]);
    }
  }

  /** Building a map from entries with distinct keys keeps them all, in order. */
  lemma {:induction false} PutAllOnEmpty<V>(es: seq<Entry<V>>)
    requires KeysDistinct(es)
    ensures PutAll([], es) == es
  {
    PutAllShape([], es);
    FreshOfEmpty(es);
  }

  lemma {:induction false} FreshBy<V(!new)>(edits: seq<V>, base: seq<V>, key: V -> int)
    ensures Fresh(EntriesBy(edits, key), EntriesBy(base, key)) == EntriesBy(Unmatched(edits, base, key), key)
  {
    assert Keys(EntriesBy(base, key)) == KeysBy(base, key);
    if edits != [] {
      var prefix := edits[..|edits| - 1];
      FreshBy(prefix, base, key);
      assert EntriesBy(edits, key)[..|edits| - 1] == EntriesBy(prefix, key);
      var u := Unmatched(prefix, base, key);
      var last := edits[|edits| - 1];
      if key(last) !in KeysBy(base, key) {
        assert EntriesBy(u + [last], key) == EntriesBy(u, key) + [Entry(key(last), last)];
      }
    }
  }

  /** What a map built from records holds under a key is one of those records. */
  lemma {:induction false} FindBy<V>(xs: seq<V>, key: V -> int, k: int)
    requires k in KeysBy(xs, key)
    ensures Find(EntriesBy(xs, key), k).Some? && Find(EntriesBy(xs, key), k).value in xs
    ensures key(Find(EntriesBy(xs, key), k).value) == k
  {
    var es := EntriesBy(xs, key);
    assert Keys(es) == KeysBy(xs, key);
    var v := Find(es, k).value;
    var j :| 0 <= j < |es| && es[j] == Entry(k, v);
    assert v == xs[j];
  }

  lemma {:induction false} ValuesBy<V>(xs: seq<V>, key: V -> int)
    ensures Values(EntriesBy(xs, key)) == xs
  {
  }

  /**
   * Overlaying edits (keys distinct) on records (keys distinct): each record
   * keeps its place and is replaced by the edit with its key, if any; the edits
   * with new keys follow in their order.
   */
  lemma {:induction false} OverlaidShape<V(!new)>(base: seq<V>, edits: seq<V>, key: V -> int)
    requires DistinctBy(base, key) && DistinctBy(edits, key)
    ensures |Overlaid(base, edits, key)| == |base| + |Unmatched(edits, base, key)|
    ensures forall i :: 0 <= i < |base| ==> key(Overlaid(base, edits, key)[i]) == key(base[i])
    ensures forall i :: 0 <= i < |base| && key(base[i]) in KeysBy(edits, key) ==> Overlaid(base, edits, key)[i] in edits
    ensures forall i :: 0 <= i < |base| && key(base[i]) !in KeysBy(edits, key) ==> Overlaid(base, edits, key)[i] == base[i]
    ensures Overlaid(base, edits, key)[|base|..] == Unmatched(edits, base, key)
  {
    assert KeysDistinct(EntriesBy(base, key)) && KeysDistinct(EntriesBy(edits, key));
    PutAllOnEmpty(EntriesBy(base, key));
    OverlaidKept(base, edits, key);
    OverlaidAppended(base, edits, key);
  }

  /** Every overlaid record is a base record or an edit. */
  lemma {:induction false} OverlaidFrom<V(!new)>(base: seq<V>, edits: seq<V>, key: V -> int)
    requires DistinctBy(base, key) && DistinctBy(edits, key)
    ensures forall x :: x in Overlaid(base, edits, key) ==> x in base || x in edits
  {
    var o := Overlaid(base, edits, key);
    OverlaidShape(base, edits, key);
    forall x | x in o
      ensures x in base || x in edits
    {
      var i :| 0 <= i < |o| && o[i] == x;
      if i >= |base| {
        assert o[|base|..][i - |base|] == x;
      }
    }
  }

  /** Every edit is among the overlaid records. */
  lemma {:induction false} OverlaidHasEdits<V(!new)>(base: seq<V>, edits: seq<V>, key: V -> int)
    requires DistinctBy(base, key) && DistinctBy(edits, key)
    ensures forall x :: x in edits ==> x in Overlaid(base, edits, key)
  {
    var o := Overlaid(base, edits, key);
    OverlaidShape(base, edits, key);
    forall x | x in edits
      ensures x in o
    {
      if key(x) in KeysBy(base, key) {
        var i :| 0 <= i < |base| && KeysBy(base, key)[i] == key(x);
        assert o[i] in edits && key(o[i]) == key(x);
        var j :| 0 <= j < |edits| && edits[j] == o[i];
        var k :| 0 <= k < |edits| && edits[k] == x;
        assert j == k;
      } else {
        var u := Unmatched(edits, base, key);
        assert x in u;
        var j :| 0 <= j < |u| && u[j] == x;
        assert o[|base|..][j] == x;
      }
    }
  }

  /** Every base record whose key no edit has is among the overlaid records. */
  lemma {:induction false} OverlaidHasBase<V(!new)>(base: seq<V>, edits: seq<V>, key: V -> int)
    requires DistinctBy(base, key) && DistinctBy(edits, key)
    ensures forall x :: x in base && key(x) !in KeysBy(edits, key) ==> x in Overlaid(base, edits, key)
  {
    var o := Overlaid(base, edits, key);
    OverlaidShape(base, edits, key);
    forall x | x in base && key(x) !in KeysBy(edits, key)
      ensures x in o
    {
      var i :| 0 <= i < |base| && base[i] == x;
      assert o[i] == x;
    }
  }

  lemma {:induction false} OverlaidKept<V(!new)>(base: seq<V>, edits: seq<V>, key: V -> int)
    requires KeysDistinct(EntriesBy(base, key)) && KeysDistinct(EntriesBy(edits, key))
    requires MapFrom(base, key) == EntriesBy(base, key)
    ensures |Overlaid(base, edits, key)| >= |base|
    ensures forall i :: 0 <= i < |base| ==> key(Overlaid(base, edits, key)[i]) == key(base[i])
    ensures forall i :: 0 <= i < |base| && key(base[i]) in KeysBy(edits, key) ==> Overlaid(base, edits, key)[i] in edits
    ensures forall i :: 0 <= i < |base| && key(base[i]) !in KeysBy(edits, key) ==> Overlaid(base, edits, key)[i] == base[i]
  {
    OverlaidKeptKeys(base, edits, key);
    OverlaidKeptEdited(base, edits, key);
    OverlaidKeptBase(base, edits, key);
  }

  lemma {:induction false} OverlaidKeptKeys<V(!new)>(base: seq<V>, edits: seq<V>, key: V -> int)
    requires KeysDistinct(EntriesBy(base, key)) && KeysDistinct(EntriesBy(edits, key))
    requires MapFrom(base, key) == EntriesBy(base, key)
    ensures |Overlaid(base, edits, key)| >= |base|
    ensures forall i :: 0 <= i < |base| ==> key(Overlaid(base, edits, key)[i]) == key(base[i])
  {
    var m := EntriesBy(base, key);
    var es := EntriesBy(edits, key);
    assert Keys(es) == KeysBy(edits, key);
    PutAllShape(m, es);
    var p := PutAll(m, es);
    forall i | 0 <= i < |base|
      ensures key(p[i].value) == key(base[i])
    {
      if key(base[i]) in KeysBy(edits, key) {
        FindBy(edits, key, key(base[i]));
      }
    }
  }

  lemma {:induction false} OverlaidKeptEdited<V(!new)>(base: seq<V>, edits: seq<V>, key: V -> int)
    requires KeysDistinct(EntriesBy(base, key)) && KeysDistinct(EntriesBy(edits, key))
    requires MapFrom(base, key) == EntriesBy(base, key)
    ensures |Overlaid(base, edits, key)| >= |base|
    ensures forall i :: 0 <= i < |base| && key(base[i]) in KeysBy(edits, key) ==> Overlaid(base, edits, key)[i] in edits
  {
    var m := EntriesBy(base, key);
    var es := EntriesBy(edits, key);
    assert Keys(es) == KeysBy(edits, key);
    PutAllShape(m, es);
    var p := PutAll(m, es);
    forall i | 0 <= i < |base| && key(base[i]) in KeysBy(edits, key)
      ensures p[i].value in edits
    {
      FindBy(edits, key, key(base[i]));
    }
  }

  lemma {:induction false} OverlaidKeptBase<V(!new)>(base: seq<V>, edits: seq<V>, key: V -> int)
    requires KeysDistinct(EntriesBy(base, key)) && KeysDistinct(EntriesBy(edits, key))
    requires MapFrom(base, key) == EntriesBy(base, key)
    ensures |Overlaid(base, edits, key)| >= |base|
    ensures forall i :: 0 <= i < |base| && key(base[i]) !in KeysBy(edits, key) ==> Overlaid(base, edits, key)[i] == base[i]
  {
    var m := EntriesBy(base, key);
    var es := EntriesBy(edits, key);
    assert Keys(es) == KeysBy(edits, key);
    PutAllShape(m, es);
  }

  lemma {:induction false} OverlaidAppended<V(!new)>(base: seq<V>, edits: seq<V>, key: V -> int)
    requires KeysDistinct(EntriesBy(base, key)) && KeysDistinct(EntriesBy(edits, key))
    requires MapFrom(base, key) == EntriesBy(base, key)
    ensures |Overlaid(base, edits, key)| == |base| + |Unmatched(edits, base, key)|
    ensures Overlaid(base, edits, key)[|base|..] == Unmatched(edits, base, key)
  {
    var m := EntriesBy(base, key);
    var es := EntriesBy(edits, key);
    var u := Unmatched(edits, base, key);
    PutAllTail(m, es);
    FreshBy(edits, base, key);
    var p := PutAll(m, es);
    assert p[|base|..] == EntriesBy(u, key);
    ValuesSuffix(p, |base|);
    ValuesBy(u, key);
  }

  /** Setting entries with distinct keys appends exactly the new ones. */
  lemma {:induction false} PutAllTail<V>(m: seq<Entry<V>>, es: seq<Entry<V>>)
    requires KeysDistinct(m) && KeysDistinct(es)
    ensures |PutAll(m, es)| == |m| + |Fresh(es, m)| && PutAll(m, es)[|m|..] == Fresh(es, m)
  {
    PutAllKeys(m, es);
    PutAllDistinct(m, es);
    PutAllAppended(m, es);
    assert |PutAll(m, es)| == |Keys(PutAll(m, es))|;
  }

  lemma {:induction false} ValuesSuffix<V>(p: seq<Entry<V>>, k: nat)
    requires k <= |p|
    ensures Values(p)[k..] == Values(p[k..])
  {
  }

  /**
   * The values of an object that files each record under its own key: no key
   * repeats among them, and they are exactly the stored records.
   */
  lemma {:induction false} ObjectValuesBy<V(!new)>(m: seq<Entry<V>>, key: V -> int)
    requires KeysDistinct(m) && forall e :: e in m ==> e.key == key(e.value)
    ensures DistinctBy(ObjectValues(m), key)
    ensures forall x :: x in ObjectValues(m) <==> Entry(key(x), x) in m
  {
    var es := ObjectEntries(m);
    var vs := ObjectValues(m);
    forall i, j | 0 <= i < j < |vs|
      ensures key(vs[i]) != key(vs[j])
    {
      assert es[i] in m && es[j] in m;
    }
    forall x
      ensures x in vs <==> Entry(key(x), x) in m
    {
      if x in vs {
        var i :| 0 <= i < |vs| && vs[i] == x;
        assert es[i] in m;
      }
      if Entry(key(x), x) in m {
        var i :| 0 <= i < |es| && es[i] == Entry(key(x), x);
        assert vs[i] == x;
      }
    }
  }
}
