/** `ltc_calculation` as written three times: assignment/assignment.py
    (lines 97-122), assignment/ranked_retrieval.py and
    assignment/lnc_ltc_ranking.py (lines 10-35). For every token of every
    query and every document it stores idf times the document weight (0 when
    the document lacks the token) in two tables that are never cleared, so a
    query's scores also count the tokens of all the queries before it. The
    three copies differ only in the key of a query's scores: its index in the
    first two, its index plus one in the third. */
module LtcScoring {
  import opened Dicts
  import opened RealMath
  import opened Ranking

  /** `term_document_weights` and `query_document_weights`: term → document → weight. */
  type Weights = map<string, map<string, real>>

  /** `document_query_weights`: document → token → weight, in insertion order. */
  type Rows = Dict<map<string, real>>

  /** The inputs every lookup relies on: distinct documents, and for each
      term of a document an idf and a weight for that document. */
  ghost predicate Consistent<V>(tdw: Weights, idf: map<string, real>, docs: Dict<map<string, V>>) {
    && UniqueKeys(docs)
    && forall i, t :: 0 <= i < |docs| && t in docs[i].1 ==> t in idf && t in tdw && docs[i].0 in tdw[t]
  }

  /** The weight stored for token `t` and document `d` whose terms are
      `terms`: idf times the document weight when `d` has `t`, else 0 (the
      lookups never miss on consistent inputs). */
  function Pair<V>(tdw: Weights, idf: map<string, real>, terms: map<string, V>, d: string, t: string): real {
    if t in terms && t in idf && t in tdw && d in tdw[t] then Times(idf[t], tdw[t][d]) else 0.0
  }

  /** `document_query_weights[d]` after the tokens `s`. */
  function Row<V>(tdw: Weights, idf: map<string, real>, terms: map<string, V>, d: string, s: set<string>): map<string, real> {
    map t | t in s :: Pair(tdw, idf, terms, d, t)
  }

  /** One row per document, in document order. */
  function RowsOf<V>(tdw: Weights, idf: map<string, real>, docs: Dict<map<string, V>>, s: set<string>): (r: Rows)
    ensures |r| == |docs|
    ensures forall j :: 0 <= j < |docs| ==> r[j] == (docs[j].0, Row(tdw, idf, docs[j].1, docs[j].0, s))
    decreases |docs|
  {
    if docs == [] then []
    else
      var last := docs[|docs| - 1];
      RowsOf(tdw, idf, docs[..|docs| - 1], s) + [(last.0, Row(tdw, idf, last.1, last.0, s))]
  }

  /** `document_query_weights` after the tokens `s`: empty until a token has
      been processed, then a row for every document. */
  function DqwFor<V>(tdw: Weights, idf: map<string, real>, docs: Dict<map<string, V>>, s: set<string>): Rows {
    if s == {} then [] else RowsOf(tdw, idf, docs, s)
  }

  /** `query_document_weights[t]` after the first `k` documents. */
  function ColumnUpTo<V>(tdw: Weights, idf: map<string, real>, docs: Dict<map<string, V>>, t: string, k: nat): (r: map<string, real>)
    requires k <= |docs|
  {
    if k == 0 then map[]
    else ColumnUpTo(tdw, idf, docs, t, k - 1)[docs[k - 1].0 := Pair(tdw, idf, docs[k - 1].1, docs[k - 1].0, t)]
  }

  function Column<V>(tdw: Weights, idf: map<string, real>, docs: Dict<map<string, V>>, t: string): map<string, real> {
    ColumnUpTo(tdw, idf, docs, t, |docs|)
  }

  /** `query_document_weights` after the tokens `s`. */
  function QdwFor<V>(tdw: Weights, idf: map<string, real>, docs: Dict<map<string, V>>, s: set<string>): Weights {
    map t | t in s :: Column(tdw, idf, docs, t)
  }

  /** A token enters the tables only when there is a document to store it
      for. */
  function Stored<V>(docs: Dict<map<string, V>>, s: set<string>): set<string> {
    if |docs| == 0 then {} else s
  }

  /** The tokens of the first `n` queries. */
  ghost function Seen(queries: seq<seq<string>>, n: nat): set<string>
    requires n <= |queries|
  {
    if n == 0 then {} else Seen(queries, n - 1) + Prefix(queries[n - 1], |queries[n - 1]|)
  }

  /** The first `j` tokens of a query. */
  ghost function Prefix(q: seq<string>, j: nat): set<string>
    requires j <= |q|
  {
    set t | t in q[..j]
  }

  /** `{docID: sum(v.values()) for docID, v in document_query_weights.items()}`. */
  ghost function Totals(dqw: Rows): (r: Dict<real>)
    ensures |r| == |dqw|
    ensures forall j :: 0 <= j < |dqw| ==> r[j] == (dqw[j].0, Sum(dqw[j].1))
    decreases |dqw|
  {
    if dqw == [] then []
    else Totals(dqw[..|dqw| - 1]) + [(dqw[|dqw| - 1].0, Sum(dqw[|dqw| - 1].1))]
  }

  /** `scores` of query `i`: the sums over the tokens of queries `0..i`,
      highest first. */
  ghost function ScoresFor<V>(tdw: Weights, idf: map<string, real>, docs: Dict<map<string, V>>, queries: seq<seq<string>>, i: nat): Dict<real>
    requires i < |queries|
  {
    Ranked(Totals(DqwFor(tdw, idf, docs, Stored(docs, Seen(queries, i + 1)))))
  }

  // ---------------------------------------------------------------------
  // Facts about the stored tables

  /** The column of `t` holds, for every document, its stored weight. */
  lemma {:induction false} ColumnAt<V>(tdw: Weights, idf: map<string, real>, docs: Dict<map<string, V>>, t: string, k: nat, j: nat)
    requires UniqueKeys(docs) && j < k <= |docs|
    ensures docs[j].0 in ColumnUpTo(tdw, idf, docs, t, k)
    ensures ColumnUpTo(tdw, idf, docs, t, k)[docs[j].0] == Pair(tdw, idf, docs[j].1, docs[j].0, t)
    decreases k
  {
    if j < k - 1 {
      ColumnAt(tdw, idf, docs, t, k - 1, j);
      assert docs[k - 1].0 != docs[j].0;
    }
  }

  /** One more token in a row. */
  lemma RowAdd<V>(tdw: Weights, idf: map<string, real>, terms: map<string, V>, d: string, s: set<string>, t: string)
    ensures Row(tdw, idf, terms, d, s)[t := Pair(tdw, idf, terms, d, t)] == Row(tdw, idf, terms, d, s + {t})
  {
  }

  /** One more token in the query-document table. */
  lemma QdwAdd<V>(tdw: Weights, idf: map<string, real>, docs: Dict<map<string, V>>, s: set<string>, t: string)
    ensures QdwFor(tdw, idf, docs, s)[t := Column(tdw, idf, docs, t)] == QdwFor(tdw, idf, docs, s + {t})
  {
  }

  /** The two tables mirror each other: `query_document_weights[t][d]` exists
      exactly when `document_query_weights[d][t]` does, with the same value,
      which is idf times the document weight when `d` has `t` and 0
      otherwise. */
  lemma Mirror<V>(tdw: Weights, idf: map<string, real>, docs: Dict<map<string, V>>, s: set<string>, t: string, j: nat)
    requires Consistent(tdw, idf, docs) && j < |docs|
    ensures var q, r, d := QdwFor(tdw, idf, docs, s), ToMap(DqwFor(tdw, idf, docs, s)), docs[j].0;
            t in q && d in q[t] <==> d in r && t in r[d]
    ensures var q, r, d := QdwFor(tdw, idf, docs, s), ToMap(DqwFor(tdw, idf, docs, s)), docs[j].0;
            t in q && d in q[t] ==> d in r && t in r[d] && q[t][d] == r[d][t]
    ensures var q, d := QdwFor(tdw, idf, docs, s), docs[j].0;
            t in q && d in q[t] ==> q[t][d] == if t in docs[j].1 then Times(idf[t], tdw[t][d]) else 0.0
  {
    var q, r, d := QdwFor(tdw, idf, docs, s), ToMap(DqwFor(tdw, idf, docs, s)), docs[j].0;
    if s != {} {
      ToMapAt(DqwFor(tdw, idf, docs, s), j);
      assert r[d] == Row(tdw, idf, docs[j].1, d, s);
    }
    if t in s {
      ColumnAt(tdw, idf, docs, t, |docs|, j);
      assert q[t] == Column(tdw, idf, docs, t);
    } else {
      assert t !in q;
    }
  }

  /** Every document has a row as soon as any token has been processed, and
      the row holds exactly the tokens processed so far. */
  lemma RowsCover<V>(tdw: Weights, idf: map<string, real>, docs: Dict<map<string, V>>, s: set<string>, j: nat)
    requires UniqueKeys(docs) && s != {} && j < |docs|
    ensures docs[j].0 in ToMap(DqwFor(tdw, idf, docs, s))
    ensures ToMap(DqwFor(tdw, idf, docs, s))[docs[j].0].Keys == s
  {
    ToMapAt(DqwFor(tdw, idf, docs, s), j);
  }

  // ---------------------------------------------------------------------
  // The inner loop: one token against every document (lines 104-117)

  /** The rows after storing `t` for the first `k` documents on top of the
      tokens `s`. */
  ghost predicate DqwAt<V>(tdw: Weights, idf: map<string, real>, docs: Dict<map<string, V>>, s: set<string>, t: string, k: nat, dqw: Rows) {
    && |dqw| == (if s == {} then k else |docs|)
    && |dqw| <= |docs|
    && forall j :: 0 <= j < |dqw| ==>
         dqw[j] == (docs[j].0, Row(tdw, idf, docs[j].1, docs[j].0, if j < k then s + {t} else s))
  }

  /** The query-document table after storing `t` for the first `k` documents. */
  ghost predicate QdwAt<V>(tdw: Weights, idf: map<string, real>, docs: Dict<map<string, V>>, s: set<string>, t: string, k: nat, qdw: Weights)
    requires k <= |docs|
  {
    qdw == if k == 0 || t in s then QdwFor(tdw, idf, docs, s)
           else QdwFor(tdw, idf, docs, s)[t := ColumnUpTo(tdw, idf, docs, t, k)]
  }

  lemma DqwStart<V>(tdw: Weights, idf: map<string, real>, docs: Dict<map<string, V>>, s: set<string>, t: string)
    ensures DqwAt(tdw, idf, docs, s, t, 0, DqwFor(tdw, idf, docs, s))
  {
  }

  /** Storing the weight of `t` for document `k` when no token came before:
      the document is new and gets a row of its own. */
  lemma DqwNew<V>(tdw: Weights, idf: map<string, real>, docs: Dict<map<string, V>>, s: set<string>, t: string, k: nat,
                  dqw: Rows, v: real)
    requires UniqueKeys(docs) && k < |docs| && DqwAt(tdw, idf, docs, s, t, k, dqw) && s == {}
    requires v == Pair(tdw, idf, docs[k].1, docs[k].0, t)
    ensures IndexOf(dqw, docs[k].0) < 0
    ensures var e := dqw + [(docs[k].0, map[])];
            DqwAt(tdw, idf, docs, s, t, k + 1, e[|dqw| := (docs[k].0, e[|dqw|].1[t := v])])
  {
    var d := docs[k].0;
    forall j | 0 <= j < |dqw| ensures dqw[j].0 != d {
    }
    var e := dqw + [(d, map[])];
    assert e[|dqw| := (d, e[|dqw|].1[t := v])] == dqw + [(d, map[t := v])];
    assert Row(tdw, idf, docs[k].1, d, s + {t}) == map[t := v];
  }

  /** Storing the weight of `t` for document `k` once the rows exist: the
      document keeps its position. */
  lemma DqwOld<V>(tdw: Weights, idf: map<string, real>, docs: Dict<map<string, V>>, s: set<string>, t: string, k: nat,
                  dqw: Rows, v: real)
    requires UniqueKeys(docs) && k < |docs| && DqwAt(tdw, idf, docs, s, t, k, dqw) && s != {}
    requires v == Pair(tdw, idf, docs[k].1, docs[k].0, t)
    ensures IndexOf(dqw, docs[k].0) == k
    ensures DqwAt(tdw, idf, docs, s, t, k + 1, dqw[k := (docs[k].0, dqw[k].1[t := v])])
  {
    var d := docs[k].0;
    assert dqw[k].0 == d;
    RowAdd(tdw, idf, docs[k].1, d, s, t);
  }

  /** Storing the weight of `t` for document `k` in the query-document table. */
  lemma QdwStep<V>(tdw: Weights, idf: map<string, real>, docs: Dict<map<string, V>>, s: set<string>, t: string, k: nat,
                   qdw: Weights, qdw': Weights)
    requires UniqueKeys(docs) && k < |docs| && QdwAt(tdw, idf, docs, s, t, k, qdw)
    requires var col := if t in qdw then qdw[t] else map[];
             qdw' == qdw[t := col[docs[k].0 := Pair(tdw, idf, docs[k].1, docs[k].0, t)]]
    ensures QdwAt(tdw, idf, docs, s, t, k + 1, qdw')
  {
    var v := Pair(tdw, idf, docs[k].1, docs[k].0, t);
    var q := QdwFor(tdw, idf, docs, s);
    if t in s {
      RewriteColumn(tdw, idf, docs, s, t, k);
    } else if k == 0 {
      assert qdw == q && t !in q;
      assert ColumnUpTo(tdw, idf, docs, t, 1) == map[docs[k].0 := v];
    } else {
      var c := ColumnUpTo(tdw, idf, docs, t, k);
      assert qdw == q[t := c] && qdw[t] == c;
      assert qdw' == q[t := c[docs[k].0 := v]];
    }
  }

  /** A repeated token rewrites its column with the values it holds. */
  lemma RewriteColumn<V>(tdw: Weights, idf: map<string, real>, docs: Dict<map<string, V>>, s: set<string>, t: string, k: nat)
    requires UniqueKeys(docs) && k < |docs| && t in s
    ensures var q := QdwFor(tdw, idf, docs, s);
            t in q && q[t := q[t][docs[k].0 := Pair(tdw, idf, docs[k].1, docs[k].0, t)]] == q
  {
    var q := QdwFor(tdw, idf, docs, s);
    ColumnAt(tdw, idf, docs, t, |docs|, k);
    assert q[t] == Column(tdw, idf, docs, t);
    assert q[t][docs[k].0 := Pair(tdw, idf, docs[k].1, docs[k].0, t)] == q[t];
  }

  /** The end of the inner loop. */
  lemma StoreEnd<V>(tdw: Weights, idf: map<string, real>, docs: Dict<map<string, V>>, s: set<string>, t: string,
                    qdw: Weights, dqw: Rows)
    requires |docs| == 0 ==> s == {}
    requires DqwAt(tdw, idf, docs, s, t, |docs|, dqw) && QdwAt(tdw, idf, docs, s, t, |docs|, qdw)
    ensures var s' := Stored(docs, s + {t});
            qdw == QdwFor(tdw, idf, docs, s') && dqw == DqwFor(tdw, idf, docs, s')
  {
    if |docs| > 0 {
      var s' := s + {t};
      var r := RowsOf(tdw, idf, docs, s');
      assert dqw == r;
      if t !in s {
        QdwAdd(tdw, idf, docs, s, t);
      } else {
        assert s' == s;
      }
    }
  }

  /** Lines 106-117: the weight of token `t` for the `k`-th document, stored
      in both tables; a missing inner table is created first. */
  method StorePair<V>(tdw: Weights, docs: Dict<map<string, V>>, idf: map<string, real>, t: string,
                      ghost s: set<string>, k: nat, qdw: Weights, dqw: Rows)
    returns (qdw': Weights, dqw': Rows)
    requires Consistent(tdw, idf, docs) && k < |docs|
    requires DqwAt(tdw, idf, docs, s, t, k, dqw) && QdwAt(tdw, idf, docs, s, t, k, qdw)
    ensures DqwAt(tdw, idf, docs, s, t, k + 1, dqw') && QdwAt(tdw, idf, docs, s, t, k + 1, qdw')
  {
    var d := docs[k].0;
    qdw', dqw' := qdw, dqw;
    ghost var v' := Pair(tdw, idf, docs[k].1, d, t);
    CreateThenSet(qdw, t, d, v');
    if t !in qdw' {
      qdw' := qdw'[t := map[]];
    }
    var i := IndexOf(dqw', d);
    if i < 0 {
      dqw' := dqw' + [(d, map[])];
      i := |dqw'| - 1;
    }
    var v := 0.0;
    if t in docs[k].1 {
      v := Times(idf[t], tdw[t][d]);
    }
    assert v == Pair(tdw, idf, docs[k].1, d, t);
    qdw' := qdw'[t := qdw'[t][d := v]];
    dqw' := dqw'[i := (d, dqw'[i].1[t := v])];
    QdwStep(tdw, idf, docs, s, t, k, qdw, qdw');
    if s == {} {
      DqwNew(tdw, idf, docs, s, t, k, dqw, v);
    } else {
      DqwOld(tdw, idf, docs, s, t, k, dqw, v);
    }
  }

  /** Creating a missing inner table and then setting one entry in it sets
      that entry in the table there was. */
  lemma CreateThenSet(m: Weights, t: string, d: string, v: real)
    ensures var m' := if t in m then m else m[t := map[]];
            m'[t := m'[t][d := v]] == m[t := (if t in m then m[t] else map[])[d := v]]
  {
  }

  /** Lines 102-117 for one token: stores its weight for every document in
      both tables. */
  method StoreToken<V>(tdw: Weights, docs: Dict<map<string, V>>, idf: map<string, real>, t: string,
                       ghost s: set<string>, qdw: Weights, dqw: Rows)
    returns (qdw': Weights, dqw': Rows)
    requires Consistent(tdw, idf, docs)
    requires |docs| == 0 ==> s == {}
    requires qdw == QdwFor(tdw, idf, docs, s) && dqw == DqwFor(tdw, idf, docs, s)
    ensures qdw' == QdwFor(tdw, idf, docs, Stored(docs, s + {t}))
    ensures dqw' == DqwFor(tdw, idf, docs, Stored(docs, s + {t}))
  {
    qdw', dqw' := qdw, dqw;
    DqwStart(tdw, idf, docs, s, t);
    for k := 0 to |docs|
      invariant DqwAt(tdw, idf, docs, s, t, k, dqw')
      invariant QdwAt(tdw, idf, docs, s, t, k, qdw')
    {
      qdw', dqw' := StorePair(tdw, docs, idf, t, s, k, qdw', dqw');
    }
    StoreEnd(tdw, idf, docs, s, t, qdw', dqw');
  }

  // ---------------------------------------------------------------------
  // Scores (lines 118-120) and the query loop (lines 101-122)

  /** Line 119: every row's sum, in row order. */
  method TotalsOf(dqw: Rows) returns (totals: Dict<real>)
    ensures totals == Totals(dqw)
  {
    totals := [];
    for i := 0 to |dqw|
      invariant totals == Totals(dqw[..i])
    {
      var v := SumValues(dqw[i].1);
      assert dqw[..i + 1][..i] == dqw[..i];
      totals := totals + [(dqw[i].0, v)];
    }
    assert dqw[..|dqw|] == dqw;
  }

  lemma PrefixStep(q: seq<string>, j: nat)
    requires j < |q|
    ensures Prefix(q, j + 1) == Prefix(q, j) + {q[j]}
  {
    assert q[..j + 1] == q[..j] + [q[j]];
  }

  lemma StoredTwice<V>(docs: Dict<map<string, V>>, x: set<string>, t: string)
    ensures Stored(docs, Stored(docs, x) + {t}) == Stored(docs, x + {t})
  {
  }

  /** Lines 102-117 for every token of one query. */
  method StoreQuery<V>(tdw: Weights, docs: Dict<map<string, V>>, idf: map<string, real>, q: seq<string>,
                       ghost seen: set<string>, qdw: Weights, dqw: Rows)
    returns (qdw': Weights, dqw': Rows)
    requires Consistent(tdw, idf, docs)
    requires qdw == QdwFor(tdw, idf, docs, Stored(docs, seen)) && dqw == DqwFor(tdw, idf, docs, Stored(docs, seen))
    ensures qdw' == QdwFor(tdw, idf, docs, Stored(docs, seen + Prefix(q, |q|)))
    ensures dqw' == DqwFor(tdw, idf, docs, Stored(docs, seen + Prefix(q, |q|)))
  {
    qdw', dqw' := qdw, dqw;
    ghost var cur := seen;
    assert Prefix(q, 0) == {};
    for j := 0 to |q|
      invariant cur == seen + Prefix(q, j)
      invariant qdw' == QdwFor(tdw, idf, docs, Stored(docs, cur))
      invariant dqw' == DqwFor(tdw, idf, docs, Stored(docs, cur))
    {
      PrefixStep(q, j);
      StoredTwice(docs, cur, q[j]);
      qdw', dqw' := StoreToken(tdw, docs, idf, q[j], Stored(docs, cur), qdw', dqw');
      cur := cur + {q[j]};
    }
  }

  /** `scores` holds the rankings of the first `n` queries. */
  ghost predicate Scored<V>(tdw: Weights, idf: map<string, real>, docs: Dict<map<string, V>>, queries: seq<seq<string>>,
                            firstKey: int, n: nat, scores: map<int, Dict<real>>)
    requires n <= |queries|
  {
    && (forall key :: key in scores <==> firstKey <= key < firstKey + n)
    && forall i :: 0 <= i < n ==> scores[firstKey + i] == ScoresFor(tdw, idf, docs, queries, i)
  }

  lemma ScoredStep<V>(tdw: Weights, idf: map<string, real>, docs: Dict<map<string, V>>, queries: seq<seq<string>>,
                      firstKey: int, n: nat, scores: map<int, Dict<real>>, ranked: Dict<real>)
    requires n < |queries| && Scored(tdw, idf, docs, queries, firstKey, n, scores)
    requires ranked == ScoresFor(tdw, idf, docs, queries, n)
    ensures Scored(tdw, idf, docs, queries, firstKey, n + 1, scores[firstKey + n := ranked])
  {
  }

  /** `ltc_calculation` (assignment/assignment.py lines 97-122,
      assignment/ranked_retrieval.py and assignment/lnc_ltc_ranking.py lines
      10-35): both tables hold the weights of every token of every query, and
      the scores of query `i`, stored under `firstKey + i`, rank the
      documents by the sum of the weights of the tokens of queries `0..i`. */
  method Ltc<V>(tdw: Weights, docs: Dict<map<string, V>>, idf: map<string, real>, queries: seq<seq<string>>,
                firstKey: int)
    returns (qdw: Weights, dqw: Rows, scores: map<int, Dict<real>>)
    requires Consistent(tdw, idf, docs)
    ensures qdw == QdwFor(tdw, idf, docs, Stored(docs, Seen(queries, |queries|)))
    ensures dqw == DqwFor(tdw, idf, docs, Stored(docs, Seen(queries, |queries|)))
    ensures forall key :: key in scores <==> firstKey <= key < firstKey + |queries|
    ensures forall i :: 0 <= i < |queries| ==> scores[firstKey + i] == ScoresFor(tdw, idf, docs, queries, i)
  {
    qdw, dqw, scores := map[], [], map[];
    assert QdwFor(tdw, idf, docs, {}) == map[];
    for idx := 0 to |queries|
      invariant qdw == QdwFor(tdw, idf, docs, Stored(docs, Seen(queries, idx)))
      invariant dqw == DqwFor(tdw, idf, docs, Stored(docs, Seen(queries, idx)))
      invariant Scored(tdw, idf, docs, queries, firstKey, idx, scores)
    {
      qdw, dqw := StoreQuery(tdw, docs, idf, queries[idx], Seen(queries, idx), qdw, dqw);
      var totals := TotalsOf(dqw);
      ScoredStep(tdw, idf, docs, queries, firstKey, idx, scores, Ranked(totals));
      scores := scores[firstKey + idx := Ranked(totals)];
    }
  }

  // ---------------------------------------------------------------------
  // What the scores are

  /** Summing a row over two disjoint sets of tokens. */
  lemma {:induction false} RowSplit<V>(tdw: Weights, idf: map<string, real>, terms: map<string, V>, d: string,
                                       a: set<string>, b: set<string>)
    requires a !! b
    ensures Sum(Row(tdw, idf, terms, d, a + b)) == Sum(Row(tdw, idf, terms, d, a)) + Sum(Row(tdw, idf, terms, d, b))
    decreases |b|
  {
    if b == {} {
      assert a + b == a;
      assert Row(tdw, idf, terms, d, b) == map[];
    } else {
      var t :| t in b;
      var b' := b - {t};
      var v := Pair(tdw, idf, terms, d, t);
      RowSplit(tdw, idf, terms, d, a, b');
      TakeOut(a, b, t);
      RowSum(tdw, idf, terms, d, a + b', t, a + b);
      RowSum(tdw, idf, terms, d, b', t, b);
    }
  }

  lemma TakeOut(a: set<string>, b: set<string>, t: string)
    requires a !! b && t in b
    ensures t !in a + (b - {t}) && a + b == a + (b - {t}) + {t}
    ensures t !in b - {t} && b == b - {t} + {t}
  {
  }

  lemma Grow(a: set<string>, c: set<string>)
    requires a <= c
    ensures a !! c - a && a + (c - a) == c
    ensures a != {} ==> c != {}
  {
  }

  /** A new token adds its weight to a row's sum. */
  lemma RowSum<V>(tdw: Weights, idf: map<string, real>, terms: map<string, V>, d: string, s: set<string>, t: string,
                  s': set<string>)
    requires t !in s && s' == s + {t}
    ensures Sum(Row(tdw, idf, terms, d, s')) == Sum(Row(tdw, idf, terms, d, s)) + Pair(tdw, idf, terms, d, t)
  {
    RowAdd(tdw, idf, terms, d, s, t);
    SumPutNew(Row(tdw, idf, terms, d, s), t, Pair(tdw, idf, terms, d, t));
  }

  /** The rows have distinct documents. */
  lemma RowsUnique<V>(tdw: Weights, idf: map<string, real>, docs: Dict<map<string, V>>, s: set<string>)
    requires UniqueKeys(docs)
    ensures UniqueKeys(Totals(DqwFor(tdw, idf, docs, s)))
  {
  }

  /** Once a token has been processed, query `i` ranks every document, highest
      score first, and a document's score is the sum, over the tokens of
      queries `0..i`, of idf times its weight for the tokens it has. Before
      that the scores are empty. */
  lemma ScoreOf<V>(tdw: Weights, idf: map<string, real>, docs: Dict<map<string, V>>, queries: seq<seq<string>>, i: nat, j: nat)
    requires UniqueKeys(docs) && j < |docs| && i < |queries|
    ensures Descending(ScoresFor(tdw, idf, docs, queries, i))
    ensures Seen(queries, i + 1) == {} ==> ScoresFor(tdw, idf, docs, queries, i) == []
    ensures Seen(queries, i + 1) != {} ==>
              && |ScoresFor(tdw, idf, docs, queries, i)| == |docs|
              && docs[j].0 in ToMap(ScoresFor(tdw, idf, docs, queries, i))
              && ToMap(ScoresFor(tdw, idf, docs, queries, i))[docs[j].0]
                   == Sum(Row(tdw, idf, docs[j].1, docs[j].0, Seen(queries, i + 1)))
  {
    var s := Stored(docs, Seen(queries, i + 1));
    var totals := Totals(DqwFor(tdw, idf, docs, s));
    RankedSpec(totals);
    if Seen(queries, i + 1) != {} {
      ScoreValue(tdw, idf, docs, queries, i, j);
      assert |Ranked(totals)| == |totals| by {
        assert |multiset(Ranked(totals))| == |multiset(totals)|;
      }
    }
  }

  lemma ScoreValue<V>(tdw: Weights, idf: map<string, real>, docs: Dict<map<string, V>>, queries: seq<seq<string>>, i: nat, j: nat)
    requires UniqueKeys(docs) && j < |docs| && i < |queries| && Seen(queries, i + 1) != {}
    ensures docs[j].0 in ToMap(ScoresFor(tdw, idf, docs, queries, i))
    ensures ToMap(ScoresFor(tdw, idf, docs, queries, i))[docs[j].0]
              == Sum(Row(tdw, idf, docs[j].1, docs[j].0, Seen(queries, i + 1)))
  {
    var s := Stored(docs, Seen(queries, i + 1));
    var totals := Totals(DqwFor(tdw, idf, docs, s));
    RankedSpec(totals);
    RowsUnique(tdw, idf, docs, s);
    ToMapAt(totals, j);
  }

  /** The tables are never cleared: a document's score for query `i + 1` is
      its score for query `i` plus the weights of the tokens that query `i + 1`
      adds, so every earlier token still counts. */
  lemma ScoreCarriesOver<V>(tdw: Weights, idf: map<string, real>, docs: Dict<map<string, V>>, queries: seq<seq<string>>,
                            i: nat, j: nat)
    requires UniqueKeys(docs) && j < |docs| && i + 1 < |queries| && Seen(queries, i + 1) != {}
    ensures var d, before, after := docs[j].0, ToMap(ScoresFor(tdw, idf, docs, queries, i)), ToMap(ScoresFor(tdw, idf, docs, queries, i + 1));
            && d in before && d in after
            && after[d] == before[d] + Sum(Row(tdw, idf, docs[j].1, d, Seen(queries, i + 2) - Seen(queries, i + 1)))
  {
    var a, b := Seen(queries, i + 1), Seen(queries, i + 2) - Seen(queries, i + 1);
    Grow(a, Seen(queries, i + 2));
    ScoreValue(tdw, idf, docs, queries, i, j);
    ScoreValue(tdw, idf, docs, queries, i + 1, j);
    RowSplit(tdw, idf, docs[j].1, docs[j].0, a, b);
  }
}
