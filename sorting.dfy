/** Python's `sorted` as the modelled code uses it: dictionaries sorted by
    key (`sorted(d.keys())` followed by a rebuilt dictionary). */
module Sorting {
  import opened Lex
  import opened Dicts

  /** Inserts an entry with a new key into a key-sorted dictionary. */
  function Insert<V>(d: Dict<V>, x: (string, V)): (r: Dict<V>)
    requires SortedKeys(d) && !HasKey(d, x.0)
    ensures SortedKeys(r)
    ensures multiset(r) == multiset(d) + multiset{x}
    ensures forall k :: HasKey(r, k) <==> HasKey(d, k) || k == x.0
    decreases |d|
  {
    if d == [] then
      HasKeyCons(x, d);
      [x]
    else if Below(x.0, d[0].0) then
      InsertFront(d, x);
      [x] + d
    else
      InsertTail(d, x);
      var rest := Insert(d[1..], x);
      InsertAfter(d, x, rest);
      [d[0]] + rest
  }

  /** An entry below the first key goes in front. */
  lemma InsertFront<V>(d: Dict<V>, x: (string, V))
    requires SortedKeys(d) && |d| > 0 && Below(x.0, d[0].0)
    ensures SortedKeys([x] + d)
    ensures forall k :: HasKey([x] + d, k) <==> HasKey(d, k) || k == x.0
  {
    forall j | 0 < j < |d| ensures Below(x.0, d[j].0) {
      BelowTransitive(x.0, d[0].0, d[j].0);
    }
    HasKeyCons(x, d);
  }

  /** Otherwise it goes into the tail, which is sorted and lacks its key,
      and the first key is below it. */
  lemma InsertTail<V>(d: Dict<V>, x: (string, V))
    requires SortedKeys(d) && !HasKey(d, x.0) && |d| > 0 && !Below(x.0, d[0].0)
    ensures SortedKeys(d[1..]) && !HasKey(d[1..], x.0) && Below(d[0].0, x.0)
  {
    assert d == [d[0]] + d[1..];
    HasKeyCons(d[0], d[1..]);
    assert d[0].0 != x.0;
    BelowTotal(d[0].0, x.0);
  }

  /** The first entry followed by the tail with the entry inserted. */
  lemma InsertAfter<V>(d: Dict<V>, x: (string, V), rest: Dict<V>)
    requires SortedKeys(d) && |d| > 0 && Below(d[0].0, x.0)
    requires SortedKeys(rest) && multiset(rest) == multiset(d[1..]) + multiset{x}
    requires forall k :: HasKey(rest, k) <==> HasKey(d[1..], k) || k == x.0
    ensures SortedKeys([d[0]] + rest)
    ensures multiset([d[0]] + rest) == multiset(d) + multiset{x}
    ensures forall k :: HasKey([d[0]] + rest, k) <==> HasKey(d, k) || k == x.0
  {
    assert d == [d[0]] + d[1..];
    HasKeyCons(d[0], d[1..]);
    InsertFirst(d, x, rest);
    HasKeyCons(d[0], rest);
  }

  /** The keys of `[x] + d` are `x`'s key and those of `d`. */
  lemma HasKeyCons<V>(x: (string, V), d: Dict<V>)
    ensures forall k :: HasKey([x] + d, k) <==> HasKey(d, k) || k == x.0
  {
    var r := [x] + d;
    forall k ensures HasKey(r, k) <==> HasKey(d, k) || k == x.0 {
      if HasKey(d, k) {
        var i :| 0 <= i < |d| && d[i].0 == k;
        assert r[i + 1].0 == k;
      }
      if HasKey(r, k) && k != x.0 {
        var i :| 0 <= i < |r| && r[i].0 == k;
        assert d[i - 1].0 == k;
      }
      if k == x.0 {
        assert r[0].0 == k;
      }
    }
  }

  /** The first entry of `d` stays below everything inserted after it. */
  lemma InsertFirst<V>(d: Dict<V>, x: (string, V), rest: Dict<V>)
    requires SortedKeys(d) && |d| > 0 && Below(d[0].0, x.0)
    requires forall k :: HasKey(rest, k) <==> HasKey(d[1..], k) || k == x.0
    ensures forall j :: 0 <= j < |rest| ==> Below(d[0].0, rest[j].0)
  {
    forall j | 0 <= j < |rest| ensures Below(d[0].0, rest[j].0) {
      assert HasKey(rest, rest[j].0);
      if rest[j].0 != x.0 {
        var i :| 0 <= i < |d[1..]| && d[1..][i].0 == rest[j].0;
        assert d[i + 1].0 == rest[j].0;
      }
    }
  }

  /** `{k: d[k] for k in sorted(d.keys())}`: the same entries, in increasing
      key order. */
  function SortByKey<V>(d: Dict<V>): (r: Dict<V>)
    requires UniqueKeys(d)
    ensures SortedKeys(r)
    ensures multiset(r) == multiset(d)
    ensures forall k :: HasKey(r, k) <==> HasKey(d, k)
    decreases |d|
  {
    if d == [] then []
    else
      SplitLast(d);
      Insert(SortByKey(d[..|d| - 1]), d[|d| - 1])
  }

  /** A dictionary with distinct keys is its other entries and its last one,
      whose key the others lack. */
  lemma SplitLast<V>(d: Dict<V>)
    requires UniqueKeys(d) && |d| > 0
    ensures UniqueKeys(d[..|d| - 1]) && !HasKey(d[..|d| - 1], d[|d| - 1].0)
    ensures multiset(d) == multiset(d[..|d| - 1]) + multiset{d[|d| - 1]}
    ensures forall k :: HasKey(d, k) <==> HasKey(d[..|d| - 1], k) || k == d[|d| - 1].0
  {
    var last := d[|d| - 1];
    var init := d[..|d| - 1];
    assert d == init + [last];
    forall i | 0 <= i < |init| ensures init[i].0 != last.0 {
      assert d[i].0 != d[|d| - 1].0;
    }
    forall k | HasKey(init, k) ensures HasKey(d, k) {
      var i :| 0 <= i < |init| && init[i].0 == k;
      assert d[i].0 == k;
    }
  }

  /** A key-sorted dictionary has distinct keys. */
  lemma SortedUnique<V>(d: Dict<V>)
    requires SortedKeys(d)
    ensures UniqueKeys(d)
  {
    forall i, j | 0 <= i < j < |d| ensures d[i].0 != d[j].0 {
      if d[i].0 == d[j].0 {
        BelowIrreflexive(d[i].0);
      }
    }
  }

  /** Sorting keeps every key's value: the sorted dictionary denotes the
      same mapping. */
  lemma SortByKeySameMapping<V>(d: Dict<V>, k: string)
    requires UniqueKeys(d)
    ensures HasKey(d, k) ==> HasKey(SortByKey(d), k)
    ensures forall i, j :: 0 <= i < |d| && 0 <= j < |SortByKey(d)| && d[i].0 == SortByKey(d)[j].0 ==> d[i] == SortByKey(d)[j]
  {
    var r := SortByKey(d);
    SortedUnique(r);
    forall i, j | 0 <= i < |d| && 0 <= j < |r| && d[i].0 == r[j].0
      ensures d[i] == r[j]
    {
      assert r[j] in multiset(d);
      var i' :| 0 <= i' < |d| && d[i'] == r[j];
    }
  }

  /** Two dictionaries with distinct keys and the same entries denote the
      same mapping, whatever their order. */
  lemma SameEntriesSameMap<V>(d: Dict<V>, r: Dict<V>)
    requires UniqueKeys(d) && UniqueKeys(r) && multiset(r) == multiset(d)
    ensures ToMap(r) == ToMap(d)
  {
    forall k | k in ToMap(r) ensures k in ToMap(d) && ToMap(r)[k] == ToMap(d)[k] {
      var i :| 0 <= i < |r| && r[i].0 == k;
      assert r[i] in multiset(d);
      var j :| 0 <= j < |d| && d[j] == r[i];
      ToMapAt(r, i);
      ToMapAt(d, j);
    }
    forall k | k in ToMap(d) ensures k in ToMap(r) {
      var j :| 0 <= j < |d| && d[j].0 == k;
      assert d[j] in multiset(r);
      var i :| 0 <= i < |r| && r[i] == d[j];
    }
  }

  /** `sorted(ws)` of distinct strings. */
  function SortWords(ws: seq<string>): (r: seq<string>)
    requires forall i, j :: 0 <= i < j < |ws| ==> ws[i] != ws[j]
    ensures |r| == |ws| && StrictlyIncreasing(r)
    ensures forall w :: w in r <==> w in ws
  {
    var d: Dict<()> := seq(|ws|, i requires 0 <= i < |ws| => (ws[i], ()));
    var s := SortByKey(d);
    assert |s| == |multiset(s)| == |multiset(d)| == |d|;
    assert forall w :: HasKey(d, w) <==> w in ws by {
      forall w | w in ws ensures HasKey(d, w) {
        var i :| 0 <= i < |ws| && ws[i] == w;
        assert d[i].0 == w;
      }
    }
    var r := Keys(s);
    assert forall w :: w in r <==> HasKey(s, w) by {
      forall w | HasKey(s, w) ensures w in r {
        var i :| 0 <= i < |s| && s[i].0 == w;
        assert r[i] == w;
      }
    }
    r
  }

  /** Inserts `x` after every entry whose sort key is at most `x`'s: one
      step of a stable insertion sort by `key`. */
  function InsertBy<V>(d: Dict<V>, x: (string, V), key: V -> real): (r: Dict<V>)
    decreases |d|
  {
    if d == [] then [x]
    else if key(x.1) < key(d[|d| - 1].1) then InsertBy(d[..|d| - 1], x, key) + [d[|d| - 1]]
    else d + [x]
  }

  /** `sorted(d.items(), key=...)`: Python's sort is stable, so entries
      with equal sort keys keep their order. */
  function SortBy<V>(d: Dict<V>, key: V -> real): Dict<V>
    decreases |d|
  {
    if d == [] then [] else InsertBy(SortBy(d[..|d| - 1], key), d[|d| - 1], key)
  }

  /** Sort keys never decrease along `d`. */
  ghost predicate Ascending<V>(d: Dict<V>, key: V -> real) {
    forall i, j :: 0 <= i < j < |d| ==> key(d[i].1) <= key(d[j].1)
  }

  /** The entries of `d` whose sort key is `v`, in order. */
  function With<V>(d: Dict<V>, key: V -> real, v: real): Dict<V>
    decreases |d|
  {
    if d == [] then []
    else With(d[..|d| - 1], key, v) + (if key(d[|d| - 1].1) == v then [d[|d| - 1]] else [])
  }

  lemma WithSnoc<V>(d: Dict<V>, x: (string, V), key: V -> real, v: real)
    ensures With(d + [x], key, v) == With(d, key, v) + (if key(x.1) == v then [x] else [])
  {
    assert (d + [x])[..|d|] == d;
  }

  /** One insertion adds `x` to the entries. */
  lemma {:induction false} InsertByEntries<V>(d: Dict<V>, x: (string, V), key: V -> real)
    ensures multiset(InsertBy(d, x, key)) == multiset(d) + multiset{x}
    decreases |d|
  {
    if d != [] && key(x.1) < key(d[|d| - 1].1) {
      assert d == d[..|d| - 1] + [d[|d| - 1]];
      InsertByEntries(d[..|d| - 1], x, key);
    }
  }

  /** One insertion into an ordered sequence keeps it ordered. */
  lemma {:induction false} InsertByAscending<V>(d: Dict<V>, x: (string, V), key: V -> real)
    requires Ascending(d, key)
    ensures Ascending(InsertBy(d, x, key), key)
    decreases |d|
  {
    if d != [] && key(x.1) < key(d[|d| - 1].1) {
      var init, last := d[..|d| - 1], d[|d| - 1];
      InsertByAscending(init, x, key);
      InsertByEntries(init, x, key);
      var r0 := InsertBy(init, x, key);
      forall i | 0 <= i < |r0| ensures key(r0[i].1) <= key(last.1) {
        assert r0[i] in multiset(init) + multiset{x};
        if r0[i] != x {
          var j :| 0 <= j < |init| && init[j] == r0[i];
          assert d[j] == init[j];
        }
      }
    }
  }

  /** One insertion puts `x` after the entries of equal sort key. */
  lemma {:induction false} InsertByWith<V>(d: Dict<V>, x: (string, V), key: V -> real, v: real)
    ensures With(InsertBy(d, x, key), key, v) == With(d, key, v) + (if key(x.1) == v then [x] else [])
    decreases |d|
  {
    if d == [] {
      WithSnoc([], x, key, v);
    } else {
      var init, last := d[..|d| - 1], d[|d| - 1];
      assert d == init + [last];
      if key(x.1) < key(last.1) {
        InsertByWith(init, x, key, v);
        WithSnoc(InsertBy(init, x, key), last, key, v);
        WithSnoc(init, last, key, v);
      } else {
        WithSnoc(d, x, key, v);
      }
    }
  }

  /** The stable sort orders by `key`, keeps every entry, and keeps the
      order of entries with equal sort keys. */
  lemma {:induction false} SortBySpec<V>(d: Dict<V>, key: V -> real)
    ensures Ascending(SortBy(d, key), key)
    ensures multiset(SortBy(d, key)) == multiset(d)
    ensures forall v :: With(SortBy(d, key), key, v) == With(d, key, v)
    decreases |d|
  {
    if d != [] {
      var init, last := d[..|d| - 1], d[|d| - 1];
      assert d == init + [last];
      SortBySpec(init, key);
      InsertByAscending(SortBy(init, key), last, key);
      InsertByEntries(SortBy(init, key), last, key);
      forall v ensures With(SortBy(d, key), key, v) == With(d, key, v) {
        InsertByWith(SortBy(init, key), last, key, v);
        WithSnoc(init, last, key, v);
      }
    }
  }

  /** The dictionary without its entry at `a`. */
  function Without<V>(d: Dict<V>, a: int): (r: Dict<V>)
    requires 0 <= a < |d|
    ensures |r| == |d| - 1
    ensures forall m :: 0 <= m < |r| ==> r[m] == d[if m < a then m else m + 1]
  {
    d[..a] + d[a + 1..]
  }

  /** Removing an entry removes one copy of it from the multiset. */
  lemma WithoutMultiset<V>(d: Dict<V>, a: int)
    requires 0 <= a < |d|
    ensures multiset(d) == multiset(Without(d, a)) + multiset{d[a]}
  {
    assert d == d[..a] + [d[a]] + d[a + 1..];
  }

  /** Removing an entry keeps the keys distinct, and the removed key is
      gone. */
  lemma WithoutUnique<V>(d: Dict<V>, a: int)
    requires UniqueKeys(d) && 0 <= a < |d|
    ensures UniqueKeys(Without(d, a))
    ensures forall m :: 0 <= m < |d| - 1 ==> Without(d, a)[m].0 != d[a].0
  {
  }

  /** A reordering of a dictionary with distinct keys has distinct keys. */
  lemma {:induction false} PermutationUnique<V>(d: Dict<V>, s: Dict<V>)
    requires UniqueKeys(d) && multiset(s) == multiset(d)
    ensures UniqueKeys(s)
    decreases |s|
  {
    if s != [] {
      var p, x := s[..|s| - 1], s[|s| - 1];
      assert s == p + [x];
      assert x in multiset(d);
      var a :| 0 <= a < |d| && d[a] == x;
      var d' := Without(d, a);
      assert multiset(p) == multiset(d') by {
        assert multiset(s) == multiset(p) + multiset{x};
        WithoutMultiset(d, a);
        assert multiset(p) == multiset(s) - multiset{x} == multiset(d) - multiset{x} == multiset(d');
      }
      WithoutUnique(d, a);
      PermutationUnique(d', p);
      AbsentKey(d', p, x.0);
      SnocUnique(p, x);
    }
  }

  /** A key absent from a dictionary is absent from any reordering of it. */
  lemma AbsentKey<V>(d: Dict<V>, s: Dict<V>, key: string)
    requires multiset(s) == multiset(d) && forall m :: 0 <= m < |d| ==> d[m].0 != key
    ensures forall k :: 0 <= k < |s| ==> s[k].0 != key
  {
    forall k | 0 <= k < |s| ensures s[k].0 != key {
      assert s[k] in multiset(d);
    }
  }

  /** Appending an entry with a new key keeps the keys distinct. */
  lemma SnocUnique<V>(p: Dict<V>, x: (string, V))
    requires UniqueKeys(p) && forall k :: 0 <= k < |p| ==> p[k].0 != x.0
    ensures UniqueKeys(p + [x])
  {
  }
}
