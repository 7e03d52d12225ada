/** The counting indexers: `indexer` of assignment/assignment.py (document →
    term → count), `indexer` of assignment/indexer.py (term → document →
    count, dumped in blocks), and `indexer` of assignment1/assignment.py
    (term → total count and term → documents) with its two document
    frequency reports. */
module Counting {
  import opened Dicts
  import opened Errors
  import Lex
  import Sorting
  import RealMath
  import opened BlockIndexer

  /** A two-level count table: `m[a][b]`. */
  type Table = map<string, map<string, nat>>

  /** `m[a][b]`, or 0 when absent. */
  function Get(m: Table, a: string, b: string): nat {
    if a in m && b in m[a] then m[a][b] else 0
  }

  /** The row of `a`, empty when absent. */
  function Row(m: Table, a: string): map<string, nat> {
    if a in m then m[a] else map[]
  }

  /** `row[b] += 1`, after creating `row[b] = 0` when missing. */
  function Incr(row: map<string, nat>, b: string): (r: map<string, nat>)
    ensures r.Keys == row.Keys + {b}
    ensures r[b] == (if b in row then row[b] else 0) + 1
    ensures forall y :: y in row && y != b ==> r[y] == row[y]
  {
    row[b := (if b in row then row[b] else 0) + 1]
  }

  /** `m[a][b] += 1`, after creating `m[a] = {}` and `m[a][b] = 0` when
      missing: only `a`'s row changes, and gains `b`. */
  function Bump(m: Table, a: string, b: string): (r: Table)
    ensures r.Keys == m.Keys + {a}
    ensures forall x :: x in m && x != a ==> r[x] == m[x]
    ensures r[a] == Incr(Row(m, a), b)
  {
    m[a := Incr(Row(m, a), b)]
  }

  /** Exactly the count at `[a][b]` grows, by one. */
  lemma BumpGet(m: Table, a: string, b: string, x: string, y: string)
    ensures Get(Bump(m, a, b), x, y) == Get(m, x, y) + (if x == a && y == b then 1 else 0)
  {
  }

  /** Counting the tokens of document `id` into a table keyed by document
      then term, or (`byTerm`) by term then document. */
  ghost function CountTokens(m: Table, id: string, toks: seq<string>, byTerm: bool): Table
    decreases |toks|
  {
    if toks == [] then m
    else
      var t := toks[|toks| - 1];
      var p := CountTokens(m, id, toks[..|toks| - 1], byTerm);
      if byTerm then Bump(p, t, id) else Bump(p, id, t)
  }

  /** The table after the rows `docs`; rows without an abstract are skipped. */
  ghost function CountDocs(docs: seq<Doc>, byTerm: bool): Table
    decreases |docs|
  {
    if docs == [] then map[]
    else
      var d := docs[|docs| - 1];
      var p := CountDocs(docs[..|docs| - 1], byTerm);
      if d.hasAbstract then CountTokens(p, d.id, d.tokens, byTerm) else p
  }

  /** The frequency of `t` in the rows with id `id` and an abstract. */
  ghost function Tf(docs: seq<Doc>, id: string, t: string): nat
    decreases |docs|
  {
    if docs == [] then 0
    else
      var d := docs[|docs| - 1];
      Tf(docs[..|docs| - 1], id, t) + (if d.hasAbstract && d.id == id then multiset(d.tokens)[t] else 0)
  }

  /** Every stored count is positive and no row is empty. */
  ghost predicate Stored(m: Table) {
    forall x :: x in m ==> |m[x]| > 0 && forall y :: y in m[x] ==> m[x][y] > 0
  }

  lemma BumpStored(m: Table, a: string, b: string)
    requires Stored(m)
    ensures Stored(Bump(m, a, b))
  {
    var r := Bump(m, a, b);
    forall x | x in r ensures |r[x]| > 0 && forall y :: y in r[x] ==> r[x][y] > 0 {
      if x == a {
        var row := Row(m, a);
        assert b in r[a];
        forall y | y in r[a] ensures r[a][y] > 0 {
          if y != b {
            assert y in row && r[a][y] == row[y];
          }
        }
      } else {
        assert r[x] == m[x];
      }
    }
  }

  /** Counting a token list adds its multiplicities at the row of `id`. */
  lemma {:induction false} CountTokensGet(m: Table, id: string, toks: seq<string>, byTerm: bool, x: string, y: string)
    ensures Get(CountTokens(m, id, toks, byTerm), x, y) ==
              Get(m, x, y) + (if byTerm && y == id then multiset(toks)[x]
                              else if !byTerm && x == id then multiset(toks)[y] else 0)
    decreases |toks|
  {
    if toks != [] {
      var init, t := toks[..|toks| - 1], toks[|toks| - 1];
      assert toks == init + [t];
      CountTokensGet(m, id, init, byTerm, x, y);
      var p := CountTokens(m, id, init, byTerm);
      if byTerm { BumpGet(p, t, id, x, y); } else { BumpGet(p, id, t, x, y); }
    }
  }

  /** The outer keys after counting a token list: `id`'s row exists once a
      token was counted (by document), or each token's row (by term). */
  lemma {:induction false} CountTokensKeys(m: Table, id: string, toks: seq<string>, byTerm: bool)
    requires Stored(m)
    ensures Stored(CountTokens(m, id, toks, byTerm))
    ensures !byTerm ==> CountTokens(m, id, toks, byTerm).Keys == m.Keys + (if toks == [] then {} else {id})
    decreases |toks|
  {
    if toks != [] {
      var init, t := toks[..|toks| - 1], toks[|toks| - 1];
      CountTokensKeys(m, id, init, byTerm);
      var p := CountTokens(m, id, init, byTerm);
      if byTerm { BumpStored(p, t, id); } else { BumpStored(p, id, t); }
    }
  }

  /** The table holds exactly the term frequencies: entry `[id][t]` (or
      `[t][id]`) is the number of occurrences of `t` in document `id`, and
      it is present exactly when that number is positive. */
  lemma {:induction false} CountDocsTf(docs: seq<Doc>, byTerm: bool, id: string, t: string)
    ensures var x, y := if byTerm then t else id, if byTerm then id else t;
            var c := CountDocs(docs, byTerm);
            && Get(c, x, y) == Tf(docs, id, t)
            && (x in c && y in c[x] <==> Tf(docs, id, t) > 0)
    decreases |docs|
  {
    CountDocsStored(docs, byTerm);
    if docs != [] {
      var d := docs[|docs| - 1];
      var init := docs[..|docs| - 1];
      CountDocsTf(init, byTerm, id, t);
      var x, y := if byTerm then t else id, if byTerm then id else t;
      if d.hasAbstract {
        CountTokensGet(CountDocs(init, byTerm), d.id, d.tokens, byTerm, x, y);
      }
    }
  }

  lemma {:induction false} CountDocsStored(docs: seq<Doc>, byTerm: bool)
    ensures Stored(CountDocs(docs, byTerm))
    decreases |docs|
  {
    if docs != [] {
      var d := docs[|docs| - 1];
      CountDocsStored(docs[..|docs| - 1], byTerm);
      if d.hasAbstract {
        CountTokensKeys(CountDocs(docs[..|docs| - 1], byTerm), d.id, d.tokens, byTerm);
      }
    }
  }

  /** The document → term table and the lengths index have the same
      documents: those with an abstract and at least one token. */
  lemma {:induction false} CountDocsLengthKeys(docs: seq<Doc>)
    ensures CountDocs(docs, false).Keys == DocLengths(map[], docs).Keys
    decreases |docs|
  {
    if docs != [] {
      var d := docs[|docs| - 1];
      var init := docs[..|docs| - 1];
      CountDocsLengthKeys(init);
      CountDocsStored(init, false);
      if d.hasAbstract {
        CountTokensKeys(CountDocs(init, false), d.id, d.tokens, false);
      }
    }
  }

  /** One more count adds one to the sum of a row. */
  lemma IncrSum(row: map<string, nat>, t: string)
    ensures RealMath.Sum(RealMath.Reals(Incr(row, t))) == RealMath.Sum(RealMath.Reals(row)) + 1.0
  {
    var v := (if t in row then row[t] else 0) + 1;
    assert RealMath.Reals(Incr(row, t)) == RealMath.Reals(row)[t := v as real];
    if t in row {
      RealMath.SumPutOld(RealMath.Reals(row), t, v as real);
    } else {
      RealMath.SumPutNew(RealMath.Reals(row), t, v as real);
    }
  }

  /** Counting a token list adds its length to the sum of `id`'s row. */
  lemma {:induction false} CountTokensRowSum(m: Table, id: string, toks: seq<string>)
    ensures RealMath.Sum(RealMath.Reals(Row(CountTokens(m, id, toks, false), id))) ==
              RealMath.Sum(RealMath.Reals(Row(m, id))) + |toks| as real
    decreases |toks|
  {
    if toks != [] {
      var init, t := toks[..|toks| - 1], toks[|toks| - 1];
      CountTokensRowSum(m, id, init);
      var p := CountTokens(m, id, init, false);
      assert Row(CountTokens(m, id, toks, false), id) == Incr(Row(p, id), t);
      IncrSum(Row(p, id), t);
    }
  }

  /** Per document, the term counts sum to the document's length. */
  lemma {:induction false} CountDocsRowSum(docs: seq<Doc>, id: string)
    requires id in CountDocs(docs, false)
    ensures id in DocLengths(map[], docs)
    ensures RealMath.Sum(RealMath.Reals(CountDocs(docs, false)[id])) == DocLengths(map[], docs)[id] as real
    decreases |docs|
  {
    CountDocsLengthKeys(docs);
    RowSumLength(docs, id);
  }

  /** The sum of `id`'s row is its length, 0 when absent. */
  lemma {:induction false} RowSumLength(docs: seq<Doc>, id: string)
    ensures RealMath.Sum(RealMath.Reals(Row(CountDocs(docs, false), id))) ==
              (if id in DocLengths(map[], docs) then DocLengths(map[], docs)[id] else 0) as real
    decreases |docs|
  {
    if docs == [] {
      assert RealMath.Reals(Row(map[], id)) == map[];
    } else {
      var d := docs[|docs| - 1];
      var init := docs[..|docs| - 1];
      RowSumLength(init, id);
      var p := CountDocs(init, false);
      if d.hasAbstract && d.id == id {
        CountTokensRowSum(p, id, d.tokens);
      } else if d.hasAbstract {
        CountTokensRows(p, d.id, d.tokens, id);
      }
    }
  }

  /** Counting by document leaves the rows of other documents alone. */
  lemma {:induction false} CountTokensRows(m: Table, id: string, toks: seq<string>, other: string)
    requires other != id
    ensures Row(CountTokens(m, id, toks, false), other) == Row(m, other)
    decreases |toks|
  {
    if toks != [] {
      CountTokensRows(m, id, toks[..|toks| - 1], other);
    }
  }

  /** `term_index[docID][tok] += 1` on the document-ordered table, creating
      missing entries (assignment/assignment.py, lines 65-70). */
  method CountToken(termIndex: Dict<map<string, nat>>, id: string, tok: string)
    returns (termIndex': Dict<map<string, nat>>)
    requires UniqueKeys(termIndex)
    ensures UniqueKeys(termIndex')
    ensures ToMap(termIndex') == Bump(ToMap(termIndex), id, tok)
    ensures Keys(termIndex') == AddKey(Keys(termIndex), id)
  {
    ghost var m := ToMap(termIndex);
    KeysToMap(termIndex, id);
    var i := IndexOf(termIndex, id);
    var row: map<string, nat> := map[];
    if i >= 0 {
      ToMapAt(termIndex, i);
      row := termIndex[i].1;
    }
    assert row == Row(m, id);
    termIndex' := Put(termIndex, id, Incr(row, tok));
  }

  /** The table after one more row. */
  lemma CountDocsStep(docs: seq<Doc>, i: nat, byTerm: bool)
    requires i < |docs|
    ensures CountDocs(docs[..i + 1], byTerm) ==
              if docs[i].hasAbstract then CountTokens(CountDocs(docs[..i], byTerm), docs[i].id, docs[i].tokens, byTerm)
              else CountDocs(docs[..i], byTerm)
  {
    assert docs[..i + 1][..i] == docs[..i];
  }

  /** Counting one more token of a token list. */
  lemma CountTokensSnoc(m: Table, id: string, toks: seq<string>, j: nat, byTerm: bool)
    requires j < |toks|
    ensures CountTokens(m, id, toks[..j + 1], byTerm) ==
              var p := CountTokens(m, id, toks[..j], byTerm);
              if byTerm then Bump(p, toks[j], id) else Bump(p, id, toks[j])
  {
    assert toks[..j + 1][..j] == toks[..j];
  }

  /** `document_length_index[id] += 1`, after creating it at 0 when missing:
      one more token of the document counted. */
  method CountLength(lengths: map<string, nat>, id: string, ghost base: map<string, nat>, ghost j: nat)
    returns (lengths': map<string, nat>)
    requires lengths == AddLength(base, id, j)
    ensures lengths' == AddLength(base, id, j + 1)
  {
    lengths' := lengths;
    if id !in lengths' {
      lengths' := lengths'[id := 0];
    }
    lengths' := lengths'[id := lengths'[id] + 1];
    AddLengthSucc(base, id, j);
  }

  /** The tokens of one row with an abstract (lines 52-70): for each, the
      document's length and its count of the token grow by one. */
  method CountRow(termIndex: Dict<map<string, nat>>, lengths: map<string, nat>, id: string, toks: seq<string>)
    returns (termIndex': Dict<map<string, nat>>, lengths': map<string, nat>)
    requires UniqueKeys(termIndex)
    ensures UniqueKeys(termIndex') && ToMap(termIndex') == CountTokens(ToMap(termIndex), id, toks, false)
    ensures lengths' == AddLength(lengths, id, |toks|)
    ensures Keys(termIndex') == if toks == [] then Keys(termIndex) else AddKey(Keys(termIndex), id)
  {
    termIndex', lengths' := termIndex, lengths;
    ghost var m0 := ToMap(termIndex);
    for j := 0 to |toks|
      invariant UniqueKeys(termIndex') && ToMap(termIndex') == CountTokens(m0, id, toks[..j], false)
      invariant Keys(termIndex') == if j == 0 then Keys(termIndex) else AddKey(Keys(termIndex), id)
      invariant lengths' == AddLength(lengths, id, j)
    {
      var tok := toks[j];
      lengths' := CountLength(lengths', id, lengths, j);
      termIndex' := CountToken(termIndex', id, tok);
      CountTokensSnoc(m0, id, toks, j, false);
    }
    assert toks[..|toks|] == toks;
  }

  /** The ids of the rows with an abstract and at least one token, in row
      order: the rows that create or extend an entry of `term_index`. */
  ghost function CountedIds(docs: seq<Doc>): seq<string>
    decreases |docs|
  {
    if docs == [] then []
    else
      var d := docs[|docs| - 1];
      CountedIds(docs[..|docs| - 1]) + (if d.hasAbstract && d.tokens != [] then [d.id] else [])
  }

  lemma CountedIdsStep(docs: seq<Doc>, i: nat)
    requires i < |docs|
    ensures CountedIds(docs[..i + 1]) ==
              CountedIds(docs[..i]) + (if docs[i].hasAbstract && docs[i].tokens != [] then [docs[i].id] else [])
  {
    assert docs[..i + 1][..i] == docs[..i];
  }

  /** `indexer` of assignment/assignment.py (lines 19-72): for every row
      with an abstract and every token, the document's length and its count
      of the token grow by one. `term_index` lists the documents in the
      order in which they first counted a token. */
  method DocTermIndex(docs: seq<Doc>) returns (termIndex: Dict<map<string, nat>>, lengths: map<string, nat>)
    ensures UniqueKeys(termIndex) && ToMap(termIndex) == CountDocs(docs, false)
    ensures Keys(termIndex) == FirstOccurrence(CountedIds(docs))
    ensures lengths == DocLengths(map[], docs)
  {
    termIndex, lengths := [], map[];
    for i := 0 to |docs|
      invariant UniqueKeys(termIndex) && ToMap(termIndex) == CountDocs(docs[..i], false)
      invariant Keys(termIndex) == FirstOccurrence(CountedIds(docs[..i]))
      invariant lengths == DocLengths(map[], docs[..i])
    {
      var d := docs[i];
      RowStep(map[], docs, i);
      CountDocsStep(docs, i, false);
      CountedIdsStep(docs, i);
      FirstOccurrenceSnoc(CountedIds(docs[..i]), d.id);
      if d.hasAbstract {
        termIndex, lengths := CountRow(termIndex, lengths, d.id, d.tokens);
      }
      if !(d.hasAbstract && d.tokens != []) {
        assert CountedIds(docs[..i + 1]) == CountedIds(docs[..i]);
      }
    }
    assert docs[..|docs|] == docs;
  }

  /** The rows between flushes: a piece ends with each row after which the
      size test fired; the rows after the last such row are left over. */
  ghost function Pieces(docs: seq<Doc>, flush: seq<bool>): (r: seq<seq<Doc>>)
    requires |flush| == |docs|
    decreases |docs|
  {
    if docs == [] then []
    else
      var n := |docs| - 1;
      var p := Pieces(docs[..n], flush[..n]);
      if flush[n] then p + [Leftover(docs[..n], flush[..n]) + [docs[n]]] else p
  }

  ghost function Leftover(docs: seq<Doc>, flush: seq<bool>): seq<Doc>
    requires |flush| == |docs|
    decreases |docs|
  {
    if docs == [] then []
    else
      var n := |docs| - 1;
      if flush[n] then [] else Leftover(docs[..n], flush[..n]) + [docs[n]]
  }

  /** The documents of a sequence of pieces, in order. */
  ghost function Joined(pieces: seq<seq<Doc>>): seq<Doc>
    decreases |pieces|
  {
    if pieces == [] then [] else Joined(pieces[..|pieces| - 1]) + pieces[|pieces| - 1]
  }

  /** The number of times the size test fired. */
  ghost function Fired(flush: seq<bool>): nat
    decreases |flush|
  {
    if flush == [] then 0 else Fired(flush[..|flush| - 1]) + (if flush[|flush| - 1] then 1 else 0)
  }

  /** The pieces and the leftover rows are the rows, in order, and there is
      one piece per firing of the size test. */
  lemma {:induction false} PiecesPartition(docs: seq<Doc>, flush: seq<bool>)
    requires |flush| == |docs|
    ensures Joined(Pieces(docs, flush)) + Leftover(docs, flush) == docs
    ensures |Pieces(docs, flush)| == Fired(flush)
    decreases |docs|
  {
    if docs != [] {
      var n := |docs| - 1;
      PiecesPartition(docs[..n], flush[..n]);
      var p := Pieces(docs[..n], flush[..n]);
      var l := Leftover(docs[..n], flush[..n]);
      assert docs == docs[..n] + [docs[n]];
      if flush[n] {
        assert Joined(p + [l + [docs[n]]]) == Joined(p) + (l + [docs[n]]) by {
          assert (p + [l + [docs[n]]])[..|p|] == p;
        }
      }
      assert flush[..|flush| - 1] == flush[..n];
    }
  }

  /** The keys of a mapping, in some order. */
  method KeysOf<V>(m: map<string, V>) returns (ks: seq<string>)
    ensures forall i, j :: 0 <= i < j < |ks| ==> ks[i] != ks[j]
    ensures forall k :: k in ks <==> k in m
  {
    ks := [];
    var rest := m.Keys;
    while rest != {}
      invariant rest <= m.Keys
      invariant forall i, j :: 0 <= i < j < |ks| ==> ks[i] != ks[j]
      invariant forall k :: k in ks <==> k in m && k !in rest
      decreases |rest|
    {
      var k :| k in rest;
      ks := ks + [k];
      rest := rest - {k};
    }
  }

  /** `term_index2[tok][docID] += 1`, creating missing entries. */
  method CountTermDoc(index: Table, tok: string, id: string) returns (index': Table)
    ensures index' == Bump(index, tok, id)
  {
    var row: map<string, nat> := map[];
    if tok in index {
      row := index[tok];
    }
    assert row == Row(index, tok);
    index' := index[tok := Incr(row, id)];
  }

  /** The tokens of one row with an abstract (indexer.py, lines 71-98): for
      each, the document's length and the count of the token in the
      document grow by one. */
  method CountTermRow(index: Table, lengths: map<string, nat>, id: string, toks: seq<string>)
    returns (index': Table, lengths': map<string, nat>)
    ensures index' == CountTokens(index, id, toks, true)
    ensures lengths' == AddLength(lengths, id, |toks|)
  {
    index', lengths' := index, lengths;
    for j := 0 to |toks|
      invariant index' == CountTokens(index, id, toks[..j], true)
      invariant lengths' == AddLength(lengths, id, j)
    {
      var tok := toks[j];
      lengths' := CountLength(lengths', id, lengths, j);
      index' := CountTermDoc(index', tok, id);
      CountTokensSnoc(index, id, toks, j, true);
    }
    assert toks[..|toks|] == toks;
  }

  /** The pieces and leftover rows after one more row. */
  lemma PiecesStep(docs: seq<Doc>, flush: seq<bool>, i: nat)
    requires |flush| == |docs| && i < |docs|
    ensures Pieces(docs[..i + 1], flush[..i + 1]) ==
              Pieces(docs[..i], flush[..i]) + (if flush[i] then [Leftover(docs[..i], flush[..i]) + [docs[i]]] else [])
    ensures Leftover(docs[..i + 1], flush[..i + 1]) == if flush[i] then [] else Leftover(docs[..i], flush[..i]) + [docs[i]]
  {
    assert docs[..i + 1][..i] == docs[..i] && flush[..i + 1][..i] == flush[..i];
  }

  /** The table of a leftover with one more row. */
  lemma CountDocsSnoc(rest: seq<Doc>, d: Doc, byTerm: bool)
    ensures CountDocs(rest + [d], byTerm) ==
              if d.hasAbstract then CountTokens(CountDocs(rest, byTerm), d.id, d.tokens, byTerm) else CountDocs(rest, byTerm)
  {
    assert (rest + [d])[..|rest|] == rest;
  }

  /** `indexer` of assignment/indexer.py (lines 19-110). Token counts go to
      `term_index2` (term → document → count); after every row the size
      test `flush[i]` (the `sys.getsizeof` comparison, as an oracle) may dump
      it as the next block, numbered from 0, and clear it. At the end only
      the sorted list of its terms is dumped. The `term_index` it returns is
      never filled. The row counter of the loop is read after it (line
      109), so with no rows at all the call raises UnboundLocalError once
      the last dump is written. `blocks` and `last` are the dumped files. */
  method TermDocIndex(docs: seq<Doc>, flush: seq<bool>)
    returns (result: Result<(Table, map<string, nat>)>, blocks: seq<Table>, last: seq<string>)
    requires |flush| == |docs|
    ensures result.Failure? <==> docs == []
    ensures result.Failure? ==> result.error == UnboundLocalError
    ensures result.Ok? ==> result.value.0 == map[] && result.value.1 == DocLengths(map[], docs)
    ensures |blocks| == |Pieces(docs, flush)|
    ensures forall k :: 0 <= k < |blocks| ==> blocks[k] == CountDocs(Pieces(docs, flush)[k], true)
    ensures Lex.StrictlyIncreasing(last)
    ensures forall t :: t in last <==> t in CountDocs(Leftover(docs, flush), true)
  {
    var termIndex: Table, lengths: map<string, nat> := map[], map[];
    blocks := [];
    var index: Table := map[];
    for i := 0 to |docs|
      invariant lengths == DocLengths(map[], docs[..i])
      invariant |blocks| == |Pieces(docs[..i], flush[..i])|
      invariant forall k :: 0 <= k < |blocks| ==> blocks[k] == CountDocs(Pieces(docs[..i], flush[..i])[k], true)
      invariant index == CountDocs(Leftover(docs[..i], flush[..i]), true)
    {
      var d := docs[i];
      RowStep(map[], docs, i);
      PiecesStep(docs, flush, i);
      CountDocsSnoc(Leftover(docs[..i], flush[..i]), d, true);
      if d.hasAbstract {
        index, lengths := CountTermRow(index, lengths, d.id, d.tokens);
      }
      if flush[i] {
        blocks := blocks + [index];
        index := map[];
      }
    }
    assert docs[..|docs|] == docs && flush[..|flush|] == flush;
    var ks := KeysOf(index);
    last := Sorting.SortWords(ks);
    if |docs| == 0 {
      result := Failure(UnboundLocalError);
    } else {
      result := Ok((termIndex, lengths));
    }
  }

  /** Total occurrences of `t` in the token lists (`count_index[t]`). */
  ghost function Occurrences(lst: seq<seq<string>>, t: string): nat
    decreases |lst|
  {
    if lst == [] then 0 else Occurrences(lst[..|lst| - 1], t) + multiset(lst[|lst| - 1])[t]
  }

  /** The positions of the token lists holding `t` (`document_index[t]`). */
  ghost function DocsWith(lst: seq<seq<string>>, t: string): set<nat> {
    set j: nat | j < |lst| && t in lst[j]
  }

  /** Total number of tokens. */
  ghost function TotalTokens(lst: seq<seq<string>>): nat
    decreases |lst|
  {
    if lst == [] then 0 else TotalTokens(lst[..|lst| - 1]) + |lst[|lst| - 1]|
  }

  /** Occurrences of `t` in the first `i` lists and the first `j` tokens
      of list `i`. */
  ghost function Seen(lst: seq<seq<string>>, i: nat, j: nat, t: string): nat
    requires i < |lst| && j <= |lst[i]|
  {
    Occurrences(lst[..i], t) + multiset(lst[i][..j])[t]
  }

  /** The lists among those that hold `t`. */
  ghost function SeenIn(lst: seq<seq<string>>, i: nat, j: nat, t: string): set<nat>
    requires i < |lst| && j <= |lst[i]|
  {
    DocsWith(lst[..i], t) + (if t in lst[i][..j] then {i} else {})
  }

  /** `count_index` after the first `i` lists and `j` tokens of list `i`. */
  ghost predicate Counted(lst: seq<seq<string>>, i: nat, j: nat, countIndex: map<string, nat>)
    requires i < |lst| && j <= |lst[i]|
  {
    forall t :: (t in countIndex <==> Seen(lst, i, j, t) > 0) && (t in countIndex ==> countIndex[t] == Seen(lst, i, j, t))
  }

  /** `document_index` at the same point, with the keys of `count_index`. */
  ghost predicate Marked(lst: seq<seq<string>>, i: nat, j: nat, documentIndex: map<string, set<nat>>, keys: set<string>)
    requires i < |lst| && j <= |lst[i]|
  {
    documentIndex.Keys == keys && forall t :: t in documentIndex ==> documentIndex[t] == SeenIn(lst, i, j, t)
  }

  /** The tallies after the first `i` lists and `j` tokens of list `i`. */
  ghost predicate Tallied(lst: seq<seq<string>>, i: nat, j: nat, countIndex: map<string, nat>,
                          documentIndex: Dict<set<nat>>)
    requires i < |lst| && j <= |lst[i]|
  {
    && Counted(lst, i, j, countIndex)
    && UniqueKeys(documentIndex) && Marked(lst, i, j, ToMap(documentIndex), countIndex.Keys)
    && RealMath.Sum(RealMath.Reals(countIndex)) == (TotalTokens(lst[..i]) + j) as real
  }

  /** `document_index[token][docID] = True`, creating the entry when missing. */
  method MarkDoc(documentIndex: Dict<set<nat>>, t: string, docID: nat) returns (documentIndex': Dict<set<nat>>)
    requires UniqueKeys(documentIndex)
    ensures UniqueKeys(documentIndex')
    ensures ToMap(documentIndex') == ToMap(documentIndex)[t := (if t in ToMap(documentIndex) then ToMap(documentIndex)[t] else {}) + {docID}]
    ensures Keys(documentIndex') == AddKey(Keys(documentIndex), t)
  {
    KeysToMap(documentIndex, t);
    var i := IndexOf(documentIndex, t);
    var s: set<nat> := {};
    if i >= 0 {
      ToMapAt(documentIndex, i);
      s := documentIndex[i].1;
    }
    documentIndex' := Put(documentIndex, t, s + {docID});
  }

  /** One more token seen. */
  lemma SeenStep(lst: seq<seq<string>>, i: nat, j: nat, x: string)
    requires i < |lst| && j < |lst[i]|
    ensures Seen(lst, i, j + 1, x) == Seen(lst, i, j, x) + (if x == lst[i][j] then 1 else 0)
    ensures SeenIn(lst, i, j + 1, x) == SeenIn(lst, i, j, x) + (if x == lst[i][j] then {i} else {})
  {
    assert lst[i][..j + 1] == lst[i][..j] + [lst[i][j]];
  }

  /** One token of list `i` tallied in `count_index`. */
  lemma CountStep(lst: seq<seq<string>>, i: nat, j: nat, countIndex: map<string, nat>, countIndex': map<string, nat>)
    requires i < |lst| && j < |lst[i]| && Counted(lst, i, j, countIndex)
    requires var t := lst[i][j];
             countIndex' == countIndex[t := if t in countIndex then countIndex[t] + 1 else 1]
    ensures Counted(lst, i, j + 1, countIndex')
    ensures countIndex'.Keys == countIndex.Keys + {lst[i][j]}
  {
    forall x ensures Seen(lst, i, j + 1, x) == Seen(lst, i, j, x) + (if x == lst[i][j] then 1 else 0) {
      SeenStep(lst, i, j, x);
    }
  }

  /** A term not seen yet has been seen in no list. */
  lemma Unseen(lst: seq<seq<string>>, i: nat, j: nat, t: string)
    requires i < |lst| && j <= |lst[i]| && Seen(lst, i, j, t) == 0
    ensures SeenIn(lst, i, j, t) == {}
  {
    DfAtMostCount(lst[..i], t);
  }

  /** One token of list `i` tallied in `document_index`. */
  lemma MarkStep(lst: seq<seq<string>>, i: nat, j: nat, documentIndex: map<string, set<nat>>, keys: set<string>,
                 documentIndex': map<string, set<nat>>)
    requires i < |lst| && j < |lst[i]| && Marked(lst, i, j, documentIndex, keys)
    requires lst[i][j] !in documentIndex ==> SeenIn(lst, i, j, lst[i][j]) == {}
    requires var t := lst[i][j];
             documentIndex' == documentIndex[t := (if t in documentIndex then documentIndex[t] else {}) + {i}]
    ensures Marked(lst, i, j + 1, documentIndex', keys + {lst[i][j]})
  {
    forall x | x in documentIndex' ensures documentIndex'[x] == SeenIn(lst, i, j + 1, x) {
      SeenStep(lst, i, j, x);
    }
  }

  /** One more count of `t`: the counts add up to one more. */
  lemma SumStep(countIndex: map<string, nat>, t: string)
    ensures var c := if t in countIndex then countIndex[t] + 1 else 1;
            RealMath.Sum(RealMath.Reals(countIndex[t := c])) == RealMath.Sum(RealMath.Reals(countIndex)) + 1.0
  {
    var c := if t in countIndex then countIndex[t] + 1 else 1;
    assert RealMath.Reals(countIndex[t := c]) == RealMath.Reals(countIndex)[t := c as real];
    if t in countIndex {
      RealMath.SumPutOld(RealMath.Reals(countIndex), t, c as real);
    } else {
      RealMath.SumPutNew(RealMath.Reals(countIndex), t, c as real);
    }
  }

  /** One token of list `i` tallied. */
  lemma TallyStep(lst: seq<seq<string>>, i: nat, j: nat, countIndex: map<string, nat>, documentIndex: Dict<set<nat>>,
                  countIndex': map<string, nat>, documentIndex': Dict<set<nat>>)
    requires i < |lst| && j < |lst[i]| && Tallied(lst, i, j, countIndex, documentIndex)
    requires var t := lst[i][j];
             countIndex' == countIndex[t := if t in countIndex then countIndex[t] + 1 else 1]
    requires var t := lst[i][j];
             UniqueKeys(documentIndex') &&
             ToMap(documentIndex') == ToMap(documentIndex)[t := (if t in ToMap(documentIndex) then ToMap(documentIndex)[t] else {}) + {i}]
    ensures Tallied(lst, i, j + 1, countIndex', documentIndex')
  {
    var t := lst[i][j];
    CountStep(lst, i, j, countIndex, countIndex');
    if t !in countIndex {
      Unseen(lst, i, j, t);
    }
    MarkStep(lst, i, j, ToMap(documentIndex), countIndex.Keys, ToMap(documentIndex'));
    SumStep(countIndex, t);
  }

  /** The first `i + 1` lists, against the first `i` and all of list `i`. */
  lemma PrefixStep(lst: seq<seq<string>>, i: nat, t: string)
    requires i < |lst|
    ensures Occurrences(lst[..i + 1], t) == Occurrences(lst[..i], t) + multiset(lst[i])[t]
    ensures DocsWith(lst[..i + 1], t) == DocsWith(lst[..i], t) + (if t in lst[i] then {i} else {})
    ensures TotalTokens(lst[..i + 1]) == TotalTokens(lst[..i]) + |lst[i]|
  {
    assert lst[..i + 1][..i] == lst[..i];
    assert forall k :: 0 <= k < i ==> lst[..i + 1][k] == lst[..i][k];
  }

  /** Moving on to the next list. */
  lemma TallyNext(lst: seq<seq<string>>, i: nat, countIndex: map<string, nat>, documentIndex: Dict<set<nat>>)
    requires i + 1 < |lst| && Tallied(lst, i, |lst[i]|, countIndex, documentIndex)
    ensures Tallied(lst, i + 1, 0, countIndex, documentIndex)
  {
    assert lst[i][..|lst[i]|] == lst[i];
    forall t ensures Seen(lst, i + 1, 0, t) == Seen(lst, i, |lst[i]|, t) && SeenIn(lst, i + 1, 0, t) == SeenIn(lst, i, |lst[i]|, t) {
      PrefixStep(lst, i, t);
    }
    PrefixStep(lst, i, "");
  }

  /** At the end of the lists. */
  lemma TallyEnd(lst: seq<seq<string>>, countIndex: map<string, nat>, documentIndex: Dict<set<nat>>)
    requires |lst| > 0 && Tallied(lst, |lst| - 1, |lst[|lst| - 1]|, countIndex, documentIndex)
    ensures forall t :: t in countIndex <==> Occurrences(lst, t) > 0
    ensures forall t :: t in countIndex ==> countIndex[t] == Occurrences(lst, t)
    ensures forall t :: t in ToMap(documentIndex) ==> ToMap(documentIndex)[t] == DocsWith(lst, t)
    ensures RealMath.Sum(RealMath.Reals(countIndex)) == TotalTokens(lst) as real
  {
    var n := |lst| - 1;
    assert lst[..n + 1] == lst;
    assert lst[n][..|lst[n]|] == lst[n];
    forall t ensures Seen(lst, n, |lst[n]|, t) == Occurrences(lst, t) && SeenIn(lst, n, |lst[n]|, t) == DocsWith(lst, t) {
      PrefixStep(lst, n, t);
    }
    PrefixStep(lst, n, "");
  }

  /** All tokens of the lists, list after list. */
  ghost function AllTokens(lst: seq<seq<string>>): seq<string>
    decreases |lst|
  {
    if lst == [] then [] else AllTokens(lst[..|lst| - 1]) + lst[|lst| - 1]
  }

  lemma AllTokensStep(lst: seq<seq<string>>, i: nat)
    requires i < |lst|
    ensures AllTokens(lst[..i + 1]) == AllTokens(lst[..i]) + lst[i]
  {
    assert lst[..i + 1][..i] == lst[..i];
  }

  /** The key order of `document_index` after one more token of list `i`. */
  lemma TokenOrderStep(lst: seq<seq<string>>, i: nat, j: nat)
    requires i < |lst| && j < |lst[i]|
    ensures FirstOccurrence(AllTokens(lst[..i]) + lst[i][..j + 1]) ==
              AddKey(FirstOccurrence(AllTokens(lst[..i]) + lst[i][..j]), lst[i][j])
  {
    assert AllTokens(lst[..i]) + lst[i][..j + 1] == (AllTokens(lst[..i]) + lst[i][..j]) + [lst[i][j]];
    FirstOccurrenceSnoc(AllTokens(lst[..i]) + lst[i][..j], lst[i][j]);
  }

  /** The tokens of list `docID` (lines 47-54): each is counted in
      `count_index` and marks the list in `document_index`. */
  method TallyList(lst: seq<seq<string>>, docID: nat, countIndex: map<string, nat>, documentIndex: Dict<set<nat>>)
    returns (countIndex': map<string, nat>, documentIndex': Dict<set<nat>>)
    requires docID < |lst| && Tallied(lst, docID, 0, countIndex, documentIndex)
    requires Keys(documentIndex) == FirstOccurrence(AllTokens(lst[..docID]))
    ensures Tallied(lst, docID, |lst[docID]|, countIndex', documentIndex')
    ensures Keys(documentIndex') == FirstOccurrence(AllTokens(lst[..docID + 1]))
  {
    countIndex', documentIndex' := countIndex, documentIndex;
    assert AllTokens(lst[..docID]) + lst[docID][..0] == AllTokens(lst[..docID]);
    for j := 0 to |lst[docID]|
      invariant Tallied(lst, docID, j, countIndex', documentIndex')
      invariant Keys(documentIndex') == FirstOccurrence(AllTokens(lst[..docID]) + lst[docID][..j])
    {
      var token := lst[docID][j];
      ghost var c0, d0 := countIndex', documentIndex';
      if token !in countIndex' {
        countIndex' := countIndex'[token := 1];
      } else {
        countIndex' := countIndex'[token := countIndex'[token] + 1];
      }
      documentIndex' := MarkDoc(documentIndex', token, docID);
      TallyStep(lst, docID, j, c0, d0, countIndex', documentIndex');
      TokenOrderStep(lst, docID, j);
    }
    assert lst[docID][..|lst[docID]|] == lst[docID];
    AllTokensStep(lst, docID);
  }

  /** `indexer` of assignment1/assignment.py (lines 43-55): `count_index[t]`
      is the total number of occurrences of `t` and `document_index[t]` the
      set of positions of the lists holding `t`; the two have the same terms,
      and the counts add up to the number of tokens. `document_index` lists
      the terms in the order of their first occurrence. */
  method CountIndex(lst: seq<seq<string>>) returns (countIndex: map<string, nat>, documentIndex: Dict<set<nat>>)
    ensures forall t :: t in countIndex <==> Occurrences(lst, t) > 0
    ensures forall t :: t in countIndex ==> countIndex[t] == Occurrences(lst, t)
    ensures UniqueKeys(documentIndex) && ToMap(documentIndex).Keys == countIndex.Keys
    ensures Keys(documentIndex) == FirstOccurrence(AllTokens(lst))
    ensures forall t :: t in ToMap(documentIndex) ==> ToMap(documentIndex)[t] == DocsWith(lst, t)
    ensures RealMath.Sum(RealMath.Reals(countIndex)) == TotalTokens(lst) as real
  {
    countIndex, documentIndex := map[], [];
    if |lst| == 0 {
      assert forall t :: Occurrences(lst, t) == 0;
      assert RealMath.Reals(countIndex) == map[];
      return;
    }
    assert RealMath.Reals(countIndex) == map[];
    for docID := 0 to |lst|
      invariant docID < |lst| ==> Tallied(lst, docID, 0, countIndex, documentIndex)
      invariant docID == |lst| ==> Tallied(lst, |lst| - 1, |lst[|lst| - 1]|, countIndex, documentIndex)
      invariant Keys(documentIndex) == FirstOccurrence(AllTokens(lst[..docID]))
    {
      countIndex, documentIndex := TallyList(lst, docID, countIndex, documentIndex);
      if docID + 1 < |lst| {
        TallyNext(lst, docID, countIndex, documentIndex);
      }
    }
    TallyEnd(lst, countIndex, documentIndex);
    assert lst[..|lst|] == lst;
  }

  /** A term occurs at least once in each list holding it: its document
      frequency is at most its total count. */
  lemma {:induction false} DfAtMostCount(lst: seq<seq<string>>, t: string)
    ensures |DocsWith(lst, t)| <= Occurrences(lst, t)
    decreases |lst|
  {
    if lst != [] {
      var n := |lst| - 1;
      DfAtMostCount(lst[..n], t);
      PrefixStep(lst, n, t);
      assert lst[..n + 1] == lst;
      assert n !in DocsWith(lst[..n], t);
      assert t in lst[n] ==> multiset(lst[n])[t] >= 1;
    }
  }

  /** The terms of `document_index` with document frequency 1, in order. */
  function DfOne(d: Dict<set<nat>>): (r: seq<string>)
    ensures forall w :: w in r <==> exists i :: 0 <= i < |d| && d[i].0 == w && |d[i].1| == 1
    decreases |d|
  {
    if d == [] then []
    else
      var p := DfOne(d[..|d| - 1]);
      assert forall i :: 0 <= i < |d| - 1 ==> d[..|d| - 1][i] == d[i];
      p + (if |d[|d| - 1].1| == 1 then [d[|d| - 1].0] else [])
  }

  /** The first ten entries. */
  function FirstTen(s: seq<string>): (r: seq<string>)
    ensures |r| == if |s| < 10 then |s| else 10
    ensures forall i :: 0 <= i < |r| ==> r[i] == s[i]
  {
    s[..if |s| < 10 then |s| else 10]
  }

  /** Of strictly increasing strings, the first ten are increasing and
      below all the others. */
  lemma FirstTenSpec(s: seq<string>)
    requires Lex.StrictlyIncreasing(s)
    ensures Lex.StrictlyIncreasing(FirstTen(s))
    ensures forall w :: w in FirstTen(s) ==> w in s
    ensures forall w, i :: w in s && w !in FirstTen(s) && 0 <= i < |FirstTen(s)| ==> Lex.Below(FirstTen(s)[i], w)
  {
    var r := FirstTen(s);
    forall m | 0 <= m < |r| ensures s[m] in r {
      assert r[m] == s[m];
    }
    forall w, i | w in s && w !in r && 0 <= i < |r| ensures Lex.Below(r[i], w) {
      var j :| 0 <= j < |s| && s[j] == w;
      assert j >= |r|;
    }
  }

  /** Line 91: the first ten, in alphabetical order, of the terms with
      document frequency 1. */
  function FirstDfOne(d: Dict<set<nat>>): (r: seq<string>)
    requires UniqueKeys(d)
    ensures |r| == if |DfOne(d)| < 10 then |DfOne(d)| else 10
  {
    DfOneDistinct(d);
    FirstTen(Sorting.SortWords(DfOne(d)))
  }

  /** The terms of line 91 are in alphabetical order, have document
      frequency 1, and come before every other such term. */
  lemma FirstDfOneSpec(d: Dict<set<nat>>)
    requires UniqueKeys(d)
    ensures Lex.StrictlyIncreasing(FirstDfOne(d))
    ensures forall w :: w in FirstDfOne(d) ==> w in DfOne(d)
    ensures forall w, i :: w in DfOne(d) && w !in FirstDfOne(d) && 0 <= i < |FirstDfOne(d)| ==>
              Lex.Below(FirstDfOne(d)[i], w)
  {
    DfOneDistinct(d);
    var s := Sorting.SortWords(DfOne(d));
    FirstTenSpec(s);
    assert FirstDfOne(d) == FirstTen(s);
  }

  lemma {:induction false} DfOneDistinct(d: Dict<set<nat>>)
    requires UniqueKeys(d)
    ensures forall i, j :: 0 <= i < j < |DfOne(d)| ==> DfOne(d)[i] != DfOne(d)[j]
    decreases |d|
  {
    if d != [] {
      var init := d[..|d| - 1];
      DfOneDistinct(init);
      var last := d[|d| - 1].0;
      assert forall i :: 0 <= i < |init| ==> init[i].0 != last by {
        forall i | 0 <= i < |init| ensures init[i].0 != last {
          assert d[i] == init[i];
        }
      }
      var p := DfOne(init);
      assert last !in p;
      var r := DfOne(d);
      assert r == p + (if |d[|d| - 1].1| == 1 then [last] else []);
      forall i, j | 0 <= i < j < |r| ensures r[i] != r[j] {
        if j == |p| {
          assert r[i] == p[i];
        }
      }
    }
  }

  /** The document frequency, as the sort key of line 95. */
  function Df(s: set<nat>): real {
    |s| as real
  }

  /** The keys of the last ten entries. */
  function LastTen(s: Dict<set<nat>>): (r: seq<string>)
    ensures |r| == if |s| < 10 then |s| else 10
    ensures forall j :: 0 <= j < |r| ==> r[j] == s[|s| - |r| + j].0
  {
    Keys(s)[if |s| < 10 then 0 else |s| - 10..]
  }

  /** Line 95: the last ten terms after a stable sort by ascending document
      frequency. */
  function TopDf(d: Dict<set<nat>>): (r: seq<string>)
    ensures |r| == if |d| < 10 then |d| else 10
  {
    var s := Sorting.SortBy(d, Df);
    Sorting.SortBySpec(d, Df);
    assert |s| == |multiset(s)| == |multiset(d)| == |d|;
    LastTen(s)
  }

  /** Over entries in ascending document frequency, the last ten are terms
      of the index, in ascending document frequency, and every other term
      has a document frequency no larger than theirs. */
  lemma LastTenSpec(s: Dict<set<nat>>)
    requires UniqueKeys(s) && Sorting.Ascending(s, Df)
    ensures forall w :: w in LastTen(s) ==> w in ToMap(s)
    ensures forall i, j :: 0 <= i < j < |LastTen(s)| ==> |ToMap(s)[LastTen(s)[i]]| <= |ToMap(s)[LastTen(s)[j]]|
    ensures forall w, j :: w in ToMap(s) && w !in LastTen(s) && 0 <= j < |LastTen(s)| ==>
              |ToMap(s)[w]| <= |ToMap(s)[LastTen(s)[j]]|
  {
    var r := LastTen(s);
    var n := |s| - |r|;
    forall j | 0 <= j < |r| ensures r[j] in ToMap(s) && ToMap(s)[r[j]] == s[n + j].1 {
      assert r[j] == s[n + j].0;
      ToMapAt(s, n + j);
    }
    forall m | n <= m < |s| ensures s[m].0 in r {
      assert r[m - n] == s[m].0;
    }
    forall w, j | w in ToMap(s) && w !in r && 0 <= j < |r| ensures |ToMap(s)[w]| <= |ToMap(s)[r[j]]| {
      var k :| 0 <= k < |s| && s[k].0 == w;
      ToMapAt(s, k);
      assert k < n;
      assert Df(s[k].1) <= Df(s[n + j].1);
    }
    forall i, j | 0 <= i < j < |r| ensures |ToMap(s)[r[i]]| <= |ToMap(s)[r[j]]| {
      assert Df(s[n + i].1) <= Df(s[n + j].1);
    }
  }

  /** The terms of line 95 are terms of the index, in ascending document
      frequency, and every other term has a document frequency no larger
      than theirs. */
  lemma TopDfSpec(d: Dict<set<nat>>)
    requires UniqueKeys(d)
    ensures forall w :: w in TopDf(d) ==> w in ToMap(d)
    ensures forall i, j :: 0 <= i < j < |TopDf(d)| ==> |ToMap(d)[TopDf(d)[i]]| <= |ToMap(d)[TopDf(d)[j]]|
    ensures forall w, j :: w in ToMap(d) && w !in TopDf(d) && 0 <= j < |TopDf(d)| ==>
              |ToMap(d)[w]| <= |ToMap(d)[TopDf(d)[j]]|
  {
    var s := Sorting.SortBy(d, Df);
    Sorting.SortBySpec(d, Df);
    Sorting.PermutationUnique(d, s);
    Sorting.SameEntriesSameMap(d, s);
    LastTenSpec(s);
    assert TopDf(d) == LastTen(s);
  }
}
