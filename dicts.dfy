/** Python dictionaries whose iteration order matters: a sequence of
    (key, value) entries in insertion order with pairwise distinct keys.
    Assigning to an existing key keeps its position; a new key goes last. */
module Dicts {
  import Lex

  type Dict<V> = seq<(string, V)>

  ghost predicate UniqueKeys<V>(d: Dict<V>) {
    forall i, j :: 0 <= i < j < |d| ==> d[i].0 != d[j].0
  }

  /** The keys in iteration order (`list(d.keys())`). */
  function Keys<V>(d: Dict<V>): (ks: seq<string>)
    ensures |ks| == |d|
    ensures forall i :: 0 <= i < |d| ==> ks[i] == d[i].0
  {
    if d == [] then [] else Keys(d[..|d| - 1]) + [d[|d| - 1].0]
  }

  /** The mapping the dictionary denotes; a later entry wins over an earlier
      one with the same key (which `UniqueKeys` rules out anyway). */
  function ToMap<V>(d: Dict<V>): (m: map<string, V>)
    ensures m.Keys == set i | 0 <= i < |d| :: d[i].0
  {
    if d == [] then map[]
    else
      var m := ToMap(d[..|d| - 1]);
      assert forall i :: 0 <= i < |d| - 1 ==> d[..|d| - 1][i] == d[i];
      m[d[|d| - 1].0 := d[|d| - 1].1]
  }

  /** In a dictionary with distinct keys, looking an entry's key up yields
      that entry's value. */
  lemma {:induction false} ToMapAt<V>(d: Dict<V>, i: int)
    requires UniqueKeys(d) && 0 <= i < |d|
    ensures d[i].0 in ToMap(d) && ToMap(d)[d[i].0] == d[i].1
    decreases |d|
  {
    if i < |d| - 1 {
      ToMapAt(d[..|d| - 1], i);
    }
  }

  /** Position of key `k`, or -1 when `k` is absent (`k in d`). */
  function IndexOf<V>(d: Dict<V>, k: string): (i: int)
    ensures -1 <= i < |d|
    ensures i >= 0 ==> d[i].0 == k
    ensures i == -1 <==> k !in ToMap(d)
  {
    if d == [] then -1
    else if d[|d| - 1].0 == k then |d| - 1
    else
      var j := IndexOf(d[..|d| - 1], k);
      assert forall x :: 0 <= x < |d| - 1 ==> d[..|d| - 1][x] == d[x];
      j
  }

  /** `d[k] = v`: replaces the value in place when `k` is present, otherwise
      appends a new last entry. */
  function Put<V>(d: Dict<V>, k: string, v: V): (r: Dict<V>)
    requires UniqueKeys(d)
    ensures UniqueKeys(r)
    ensures ToMap(r) == ToMap(d)[k := v]
    ensures k in ToMap(d) ==> Keys(r) == Keys(d)
    ensures k !in ToMap(d) ==> Keys(r) == Keys(d) + [k]
  {
    var i := IndexOf(d, k);
    if i < 0 then
      var r := d + [(k, v)];
      assert r[..|r| - 1] == d;
      r
    else
      var r := d[i := (k, v)];
      ReplaceAt(d, i, v);
      r
  }

  lemma {:induction false} ReplaceAt<V>(d: Dict<V>, i: int, v: V)
    requires UniqueKeys(d) && 0 <= i < |d|
    ensures ToMap(d[i := (d[i].0, v)]) == ToMap(d)[d[i].0 := v]
    decreases |d|
  {
    var n := |d| - 1;
    if i == n {
      ReplaceLast(d, v);
    } else {
      var p := d[..n];
      assert UniqueKeys(p) by {
        assert forall a :: 0 <= a < n ==> p[a] == d[a];
      }
      ReplaceAt(p, i, v);
      ReplaceBefore(d, i, v);
    }
  }

  /** Replacing the value of the last entry. */
  lemma ReplaceLast<V>(d: Dict<V>, v: V)
    requires |d| > 0
    ensures ToMap(d[|d| - 1 := (d[|d| - 1].0, v)]) == ToMap(d)[d[|d| - 1].0 := v]
  {
    var n := |d| - 1;
    assert d[n := (d[n].0, v)][..n] == d[..n];
  }

  /** Replacing the value of an earlier entry, given the replacement in the
      entries before the last. */
  lemma ReplaceBefore<V>(d: Dict<V>, i: int, v: V)
    requires UniqueKeys(d) && 0 <= i < |d| - 1
    requires ToMap(d[..|d| - 1][i := (d[i].0, v)]) == ToMap(d[..|d| - 1])[d[i].0 := v]
    ensures ToMap(d[i := (d[i].0, v)]) == ToMap(d)[d[i].0 := v]
  {
    var n := |d| - 1;
    var r, p, k := d[i := (d[i].0, v)], d[..n], d[i].0;
    assert r[..n] == p[i := (k, v)];
    assert ToMap(r) == ToMap(p[i := (k, v)])[d[n].0 := d[n].1];
    assert ToMap(d) == ToMap(p)[d[n].0 := d[n].1];
    UpdateCommute(ToMap(p), k, v, d[n].0, d[n].1);
  }

  lemma UpdateCommute<V>(m: map<string, V>, a: string, x: V, b: string, y: V)
    requires a != b
    ensures m[a := x][b := y] == m[b := y][a := x]
  {
  }

  /** A key is listed by `Keys` exactly when the dictionary maps it. */
  lemma KeysToMap<V>(d: Dict<V>, k: string)
    ensures k in Keys(d) <==> k in ToMap(d)
  {
    if k in ToMap(d) {
      var i :| 0 <= i < |d| && d[i].0 == k;
      assert Keys(d)[i] == k;
    }
  }

  /** The key order after `d[k] = v` on a dictionary whose keys are `ks`:
      an existing key keeps its place, a new one goes last. */
  function AddKey(ks: seq<string>, k: string): seq<string> {
    if k in ks then ks else ks + [k]
  }

  /** The distinct keys of `ks` in the order of their first occurrence: the
      key order of a dictionary assigned the keys `ks` one after another. */
  function FirstOccurrence(ks: seq<string>): (r: seq<string>)
    ensures forall k :: k in r <==> k in ks
    ensures forall i, j :: 0 <= i < j < |r| ==> r[i] != r[j]
    decreases |ks|
  {
    if ks == [] then []
    else
      assert ks == ks[..|ks| - 1] + [ks[|ks| - 1]];
      AddKey(FirstOccurrence(ks[..|ks| - 1]), ks[|ks| - 1])
  }

  /** Assigning one more key. */
  lemma FirstOccurrenceSnoc(ks: seq<string>, k: string)
    ensures FirstOccurrence(ks + [k]) == AddKey(FirstOccurrence(ks), k)
  {
    assert (ks + [k])[..|ks|] == ks;
  }

  /** A key listed before another occurs in `ks` before any occurrence of
      the other one: the listing is by first occurrence. */
  lemma {:induction false} FirstOccurrenceOrder(ks: seq<string>, i: int, j: int, q: int)
    requires 0 <= i < j < |FirstOccurrence(ks)|
    requires 0 <= q < |ks| && ks[q] == FirstOccurrence(ks)[j]
    ensures FirstOccurrence(ks)[i] in ks[..q]
    decreases |ks|
  {
    var n := |ks| - 1;
    var s := ks[..n];
    var p := FirstOccurrence(s);
    assert ks == s + [ks[n]];
    if j < |p| {
      if q < n {
        FirstOccurrenceOrder(s, i, j, q);
        assert s[..q] == ks[..q];
      } else {
        assert ks[..q] == s;
      }
    } else {
      assert ks[n] !in p;
      assert ks[q] !in s;
      assert ks[..q] == s;
    }
  }

  /** Some entry has key `k` (`k in d`). */
  ghost predicate HasKey<V>(d: Dict<V>, k: string) {
    exists i :: 0 <= i < |d| && d[i].0 == k
  }

  lemma HasKeyToMap<V>(d: Dict<V>, k: string)
    ensures HasKey(d, k) <==> k in ToMap(d)
  {
  }

  /** Keys strictly increasing in Python's string order. */
  ghost predicate SortedKeys<V>(d: Dict<V>) {
    forall i, j :: 0 <= i < j < |d| ==> Lex.Below(d[i].0, d[j].0)
  }

  /** Appending an entry maps its key to its value. */
  lemma ToMapAppend<V>(d: Dict<V>, k: string, v: V)
    ensures ToMap(d + [(k, v)]) == ToMap(d)[k := v]
  {
    assert (d + [(k, v)])[..|d|] == d;
  }

  /** Distinct keys and the same mapping give a dictionary of the same length. */
  lemma {:induction false} SizeOfUnique<V>(d: Dict<V>)
    requires UniqueKeys(d)
    ensures |ToMap(d)| == |d|
    decreases |d|
  {
    if d != [] {
      var p := d[..|d| - 1];
      SizeOfUnique(p);
      assert d[|d| - 1].0 !in ToMap(p);
    }
  }

  /** A key of the second part is a key of the concatenation. */
  lemma HasKeySuffix<V>(a: Dict<V>, b: Dict<V>, k: string)
    requires HasKey(b, k)
    ensures HasKey(a + b, k)
  {
    var i :| 0 <= i < |b| && b[i].0 == k;
    assert (a + b)[|a| + i].0 == k;
  }
}
