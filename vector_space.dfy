/** `ltc_calculation` of assignment/vector_space_ranking.py (lines 10-54).
    Unlike the copies that keep persistent tables, each query here gets its
    own weights: `(1 + log10(tf)) * idf` for each distinct token, multiplied
    by the norm factor once for every occurrence of the token, and a
    document's score adds, for every occurrence of a token the document has,
    the token's query weight times its document weight. */
module VectorSpace {
  import opened Dicts
  import opened Errors
  import opened RealMath
  import opened Ranking
  import Weighting

  /** How often each token occurs in query `q` (`query_term_frequency[i]`). */
  function Tf(q: seq<string>): map<string, nat> {
    map t | t in q :: multiset(q)[t]
  }

  /** Every document term has a document weight: `term_document_weights` and
      `document_terms` come from the same index. */
  ghost predicate Covered<V>(tdw: Weighting.Weights, docs: Dict<map<string, V>>) {
    && UniqueKeys(docs)
    && forall i, t :: 0 <= i < |docs| && t in docs[i].1 ==> t in tdw && docs[i].0 in tdw[t]
  }

  /** Every token of `q` has an idf (else line 33 raises `KeyError`). */
  ghost predicate Known(idf: map<string, real>, q: seq<string>) {
    forall t :: t in q ==> t in idf
  }

  /** The weights before normalisation (lines 31-33), one per distinct token. */
  function Raw(math: Math, idf: map<string, real>, q: seq<string>): map<string, real>
    requires Known(idf, q)
  {
    map t | t in q :: Times(Weighting.LogTf(math, Tf(q)[t]), idf[t])
  }

  function Power(f: real, n: nat): real {
    if n == 0 then 1.0 else Times(Power(f, n - 1), f)
  }

  /** The weights after lines 39-40: a token occurring `r` times is multiplied
      by the norm factor `r` times. */
  function Repeated(raw: map<string, real>, f: real, q: seq<string>): map<string, real> {
    map t | t in raw :: Times(raw[t], Power(f, multiset(q)[t]))
  }

  /** `query_term_weights[i]` for query `q`, or the error its calculation
      raises: `KeyError` for a token without idf, `ZeroDivisionError` when
      the norm is 0. */
  ghost function QueryWeights(math: Math, idf: map<string, real>, q: seq<string>): Result<map<string, real>> {
    if !Known(idf, q) then Failure(KeyError)
    else
      var raw := Raw(math, idf, q);
      var norm := math.sqrt(Sum(Squares(raw)));
      if norm == 0.0 then Failure(ZeroDivisionError)
      else Ok(Repeated(raw, 1.0 / norm, q))
  }

  /** What one occurrence of token `t` adds to the score of document `d` with
      terms `terms` (line 49); nothing when `d` lacks `t` (lines 47-48). */
  function Contribution<V>(qtw: map<string, real>, tdw: Weighting.Weights, terms: map<string, V>, d: string, t: string): real {
    if t in terms && t in qtw && t in tdw && d in tdw[t] then Times(qtw[t], tdw[t][d]) else 0.0
  }

  /** The score of document `d` after the tokens of `q`, in order. */
  function DocScore<V>(qtw: map<string, real>, tdw: Weighting.Weights, terms: map<string, V>, d: string, q: seq<string>): real
    decreases |q|
  {
    if q == [] then 0.0
    else DocScore(qtw, tdw, terms, d, q[..|q| - 1]) + Contribution(qtw, tdw, terms, d, q[|q| - 1])
  }

  /** `scores[i]` before sorting: every document in order, with its score. */
  function ScoresOf<V>(qtw: map<string, real>, tdw: Weighting.Weights, docs: Dict<map<string, V>>, q: seq<string>): (r: Dict<real>)
    ensures |r| == |docs|
    ensures forall j :: 0 <= j < |docs| ==> r[j] == (docs[j].0, DocScore(qtw, tdw, docs[j].1, docs[j].0, q))
    decreases |docs|
  {
    if docs == [] then []
    else
      var last := docs[|docs| - 1];
      ScoresOf(qtw, tdw, docs[..|docs| - 1], q) + [(last.0, DocScore(qtw, tdw, last.1, last.0, q))]
  }

  /** What the loop body of lines 27-52 produces for query `q`: its weights
      and its ranked scores, or the error it raises. */
  ghost function Answer<V>(math: Math, tdw: Weighting.Weights, docs: Dict<map<string, V>>, idf: map<string, real>, q: seq<string>)
    : Result<(map<string, real>, Dict<real>)>
  {
    match QueryWeights(math, idf, q)
    case Failure(e) => Failure(e)
    case Ok(w) => Ok((w, Ranked(ScoresOf(w, tdw, docs, q))))
  }

  // ---------------------------------------------------------------------
  // Properties of the specification

  lemma TfSnoc(p: seq<string>, t: string)
    ensures Tf(p + [t]) == Tf(p)[t := multiset(p)[t] + 1]
  {
    var l, r := Tf(p + [t]), Tf(p)[t := multiset(p)[t] + 1];
    assert multiset(p + [t]) == multiset(p) + multiset{t};
    forall u
      ensures u in l <==> u in r
    {
      assert u in p + [t] <==> u in p || u == t;
    }
  }

  /** A token of the query occurs at least once. */
  lemma TfPositive(q: seq<string>, t: string)
    requires t in q
    ensures t in Tf(q) && Tf(q)[t] > 0
  {
  }

  /** The query has weights exactly when every token has an idf and some
      token has a non-zero idf; an empty query always fails on the norm. */
  lemma WeightsExist(math: Math, idf: map<string, real>, q: seq<string>)
    requires Lawful(math)
    ensures q == [] ==> QueryWeights(math, idf, q) == Failure(ZeroDivisionError)
    ensures !Known(idf, q) ==> QueryWeights(math, idf, q) == Failure(KeyError)
    ensures Known(idf, q) ==>
              (QueryWeights(math, idf, q).Ok? <==> exists t :: t in q && idf[t] != 0.0)
  {
    if Known(idf, q) {
      var raw := Raw(math, idf, q);
      if t :| t in q && idf[t] != 0.0 {
        RawZero(math, idf, q, t);
        NormPositive(math, raw, t);
      } else {
        forall u | u in raw
          ensures raw[u] == 0.0
        {
          RawZero(math, idf, q, u);
        }
        NormZero(math, raw);
      }
    }
  }

  /** A token's weight before normalisation is 0 exactly when its idf is. */
  lemma RawZero(math: Math, idf: map<string, real>, q: seq<string>, t: string)
    requires Lawful(math) && Known(idf, q) && t in q
    ensures Raw(math, idf, q)[t] == 0.0 <==> idf[t] == 0.0
  {
    Weighting.LogTfAtLeastOne(math, Tf(q)[t]);
  }

  lemma NormPositive(math: Math, raw: map<string, real>, t: string)
    requires Lawful(math) && t in raw && raw[t] != 0.0
    ensures math.sqrt(Sum(Squares(raw))) > 0.0
  {
    var sq := Squares(raw);
    forall u | u in sq
      ensures sq[u] >= 0.0
    {
      assert sq[u] == raw[u] * raw[u];
    }
    SquarePositive(raw[t]);
    SumPositive(sq, t);
  }

  lemma SquarePositive(x: real)
    requires x != 0.0
    ensures Times(x, x) > 0.0
  {
    if x > 0.0 {
      Weighting.PositiveProduct(x, x);
    } else {
      Weighting.PositiveProduct(-x, -x);
      assert x * x == (-x) * (-x);
    }
  }

  lemma NormZero(math: Math, raw: map<string, real>)
    requires Lawful(math) && forall t :: t in raw ==> raw[t] == 0.0
    ensures math.sqrt(Sum(Squares(raw))) == 0.0
  {
    var sq := Squares(raw);
    forall u | u in sq
      ensures sq[u] == 0.0
    {
      assert sq[u] == raw[u] * raw[u];
    }
    SumZero(sq);
  }

  /** No token repeated: the norm factor is applied once per token, the
      weights are plain cosine normalisation and have unit length. */
  lemma DistinctUnit(math: Math, idf: map<string, real>, q: seq<string>)
    requires Lawful(math)
    requires forall i, j :: 0 <= i < j < |q| ==> q[i] != q[j]
    requires QueryWeights(math, idf, q).Ok?
    ensures Sum(Squares(QueryWeights(math, idf, q).value)) == 1.0
  {
    var raw := Raw(math, idf, q);
    var s := Sum(Squares(raw));
    RepeatedOnce(raw, 1.0 / math.sqrt(s), q);
    SumNonNegativeSquares(raw);
    CosineUnit(math, raw);
  }

  lemma RepeatedOnce(raw: map<string, real>, f: real, q: seq<string>)
    requires forall i, j :: 0 <= i < j < |q| ==> q[i] != q[j]
    requires forall t :: t in raw ==> t in q
    ensures Repeated(raw, f, q) == Scaled(raw, f)
  {
    var l, r := Repeated(raw, f, q), Scaled(raw, f);
    assert l.Keys == r.Keys;
    forall t | t in raw
      ensures l[t] == r[t]
    {
      OnceEach(q, t);
      assert Power(f, 1) == f;
    }
  }

  lemma {:induction false} OnceEach(q: seq<string>, t: string)
    requires forall i, j :: 0 <= i < j < |q| ==> q[i] != q[j]
    requires t in q
    ensures multiset(q)[t] == 1
    decreases |q|
  {
    var p := q[..|q| - 1];
    assert q == p + [q[|q| - 1]];
    if q[|q| - 1] != t {
      OnceEach(p, t);
    } else {
      assert t !in p;
    }
  }

  lemma SumNonNegativeSquares(raw: map<string, real>)
    ensures Sum(Squares(raw)) >= 0.0
  {
    var sq := Squares(raw);
    forall t | t in sq
      ensures sq[t] >= 0.0
    {
      assert sq[t] == raw[t] * raw[t];
    }
    SumNonNegative(sq);
  }

  /** The score of a document, grouped by distinct token: each token it
      shares with the query counts as often as the query repeats it. */
  function Grouped<V>(qtw: map<string, real>, tdw: Weighting.Weights, terms: map<string, V>, d: string, q: seq<string>)
    : map<string, real>
  {
    map t | t in q && t in terms :: Times(multiset(q)[t] as real, Contribution(qtw, tdw, terms, d, t))
  }

  lemma {:induction false} ScoreGrouped<V>(qtw: map<string, real>, tdw: Weighting.Weights, terms: map<string, V>, d: string,
                                          q: seq<string>)
    ensures DocScore(qtw, tdw, terms, d, q) == Sum(Grouped(qtw, tdw, terms, d, q))
    decreases |q|
  {
    if q == [] {
      assert Grouped(qtw, tdw, terms, d, q) == map[];
    } else {
      var p, t := q[..|q| - 1], q[|q| - 1];
      assert q == p + [t];
      ScoreGrouped(qtw, tdw, terms, d, p);
      var g, c := Grouped(qtw, tdw, terms, d, p), Contribution(qtw, tdw, terms, d, t);
      if t in terms {
        GroupedSnoc(qtw, tdw, terms, d, p, t);
        SumAddOne(g, t, multiset(p)[t], c);
      } else {
        GroupedSkip(qtw, tdw, terms, d, p, t);
      }
    }
  }

  /** One more occurrence of a token adds its contribution once more. */
  lemma SumAddOne(g: map<string, real>, t: string, n: nat, c: real)
    requires t in g ==> g[t] == Times(n as real, c)
    requires t !in g ==> n == 0
    ensures Sum(g[t := Times((n + 1) as real, c)]) == Sum(g) + c
  {
    if t in g {
      SumPutOld(g, t, Times((n + 1) as real, c));
      TimesSucc(n as real, c);
    } else {
      SumPutNew(g, t, Times((n + 1) as real, c));
    }
  }

  lemma GroupedSnoc<V>(qtw: map<string, real>, tdw: Weighting.Weights, terms: map<string, V>, d: string, p: seq<string>, t: string)
    requires t in terms
    ensures Grouped(qtw, tdw, terms, d, p + [t])
            == Grouped(qtw, tdw, terms, d, p)[t := Times((multiset(p)[t] + 1) as real, Contribution(qtw, tdw, terms, d, t))]
  {
    assert multiset(p + [t]) == multiset(p) + multiset{t};
    var l, r := Grouped(qtw, tdw, terms, d, p + [t]),
                Grouped(qtw, tdw, terms, d, p)[t := Times((multiset(p)[t] + 1) as real, Contribution(qtw, tdw, terms, d, t))];
    forall u
      ensures u in l <==> u in r
    {
      assert u in p + [t] <==> u in p || u == t;
    }
  }

  lemma GroupedSkip<V>(qtw: map<string, real>, tdw: Weighting.Weights, terms: map<string, V>, d: string, p: seq<string>, t: string)
    requires t !in terms
    ensures Grouped(qtw, tdw, terms, d, p + [t]) == Grouped(qtw, tdw, terms, d, p)
  {
    assert multiset(p + [t]) == multiset(p) + multiset{t};
    var l, r := Grouped(qtw, tdw, terms, d, p + [t]), Grouped(qtw, tdw, terms, d, p);
    forall u
      ensures u in l <==> u in r
    {
      assert u in p + [t] <==> u in p || u == t;
    }
  }

  lemma TimesSucc(n: real, c: real)
    ensures Times(n + 1.0, c) == Times(n, c) + c
  {
  }

  /** A document that shares no token with the query scores 0. */
  lemma {:induction false} Unrelated<V>(qtw: map<string, real>, tdw: Weighting.Weights, terms: map<string, V>, d: string,
                                       q: seq<string>)
    requires forall t :: t in q ==> t !in terms
    ensures DocScore(qtw, tdw, terms, d, q) == 0.0
    decreases |q|
  {
    if q != [] {
      Unrelated(qtw, tdw, terms, d, q[..|q| - 1]);
    }
  }

  /** A query's ranked scores list every document once, highest score first,
      each with its score. */
  lemma AnswerRanks<V>(math: Math, tdw: Weighting.Weights, docs: Dict<map<string, V>>, idf: map<string, real>,
                       q: seq<string>, j: nat)
    requires UniqueKeys(docs) && j < |docs| && Answer(math, tdw, docs, idf, q).Ok?
    ensures var w, ranked := Answer(math, tdw, docs, idf, q).value.0, Answer(math, tdw, docs, idf, q).value.1;
            && Descending(ranked)
            && |ranked| == |docs|
            && docs[j].0 in ToMap(ranked)
            && ToMap(ranked)[docs[j].0] == DocScore(w, tdw, docs[j].1, docs[j].0, q)
  {
    var w := QueryWeights(math, idf, q).value;
    var sc := ScoresOf(w, tdw, docs, q);
    RankedSpec(sc);
    assert UniqueKeys(sc);
    ToMapAt(sc, j);
    assert |Ranked(sc)| == |sc| by {
      assert |multiset(Ranked(sc))| == |multiset(sc)|;
    }
  }

  // ---------------------------------------------------------------------
  // The calculation

  /** Lines 16-20: count the tokens of one query. */
  method CountTokens(q: seq<string>) returns (row: map<string, nat>)
    ensures row == Tf(q)
  {
    row := map[];
    for j := 0 to |q|
      invariant row == Tf(q[..j])
    {
      var token := q[j];
      assert q[..j + 1] == q[..j] + [token];
      TfSnoc(q[..j], token);
      if token !in row {
        row := row[token := 1];
      } else {
        row := row[token := row[token] + 1];
      }
    }
    assert q[..|q|] == q;
  }

  /** Lines 12-21: the counts of query `i`, numbered from 1. */
  method CountQueries(queries: seq<seq<string>>) returns (qtf: map<int, map<string, nat>>)
    ensures forall i :: i in qtf <==> 1 <= i <= |queries|
    ensures forall i :: 1 <= i <= |queries| ==> qtf[i] == Tf(queries[i - 1])
  {
    qtf := map[];
    var i := 1;
    for k := 0 to |queries|
      invariant i == k + 1
      invariant forall x :: x in qtf <==> 1 <= x <= k
      invariant forall x :: 1 <= x <= k ==> qtf[x] == Tf(queries[x - 1])
    {
      var row := CountTokens(queries[k]);
      qtf := qtf[i := row];
      i := i + 1;
    }
  }

  /** Lines 31-33 for one query. */
  method RawQuery(math: Math, idf: map<string, real>, q: seq<string>, tf: map<string, nat>) returns (r: Result<map<string, real>>)
    requires tf == Tf(q)
    ensures Known(idf, q) ==> r == Ok(Raw(math, idf, q))
    ensures !Known(idf, q) ==> r == Failure(KeyError)
  {
    var w := map[];
    for j := 0 to |q|
      invariant forall k :: 0 <= k < j ==> q[k] in idf
      invariant w == map t | t in q[..j] :: Times(Weighting.LogTf(math, tf[t]), idf[t])
    {
      var token := q[j];
      if token !in idf {
        return Failure(KeyError);
      }
      assert q[..j + 1] == q[..j] + [token];
      w := w[token := Times(Weighting.LogTf(math, tf[token]), idf[token])];
    }
    assert q[..|q|] == q;
    r := Ok(w);
  }

  /** Lines 39-40: every occurrence multiplies its token's weight once more. */
  method Renormalise(raw: map<string, real>, f: real, q: seq<string>) returns (w: map<string, real>)
    requires forall t :: t in raw <==> t in q
    ensures w == Repeated(raw, f, q)
  {
    w := raw;
    for j := 0 to |q|
      invariant w == Repeated(raw, f, q[..j])
    {
      var token := q[j];
      assert q[..j + 1] == q[..j] + [token];
      RepeatedSnoc(raw, f, q[..j], token);
      w := w[token := Times(w[token], f)];
    }
    assert q[..|q|] == q;
  }

  lemma RepeatedSnoc(raw: map<string, real>, f: real, p: seq<string>, t: string)
    requires t in raw
    ensures Repeated(raw, f, p + [t]) == Repeated(raw, f, p)[t := Times(Repeated(raw, f, p)[t], f)]
  {
    assert multiset(p + [t]) == multiset(p) + multiset{t};
    var l, r := Repeated(raw, f, p + [t]), Repeated(raw, f, p)[t := Times(Repeated(raw, f, p)[t], f)];
    forall u | u in raw
      ensures l[u] == r[u]
    {
      if u == t {
        Associate(raw[t], Power(f, multiset(p)[t]), f);
      }
    }
  }

  lemma Associate(a: real, b: real, c: real)
    ensures Times(Times(a, b), c) == Times(a, Times(b, c))
  {
  }

  /** Lines 45-49 for one document: the running total starts at 0. It is
      kept in `v` and stored once, as nothing reads the entry in between. */
  method ScoreDocument<V>(qtw: map<string, real>, tdw: Weighting.Weights, terms: map<string, V>, d: string, q: seq<string>)
    returns (v: real)
    requires forall t :: t in q ==> t in qtw
    requires forall t :: t in terms ==> t in tdw && d in tdw[t]
    ensures v == DocScore(qtw, tdw, terms, d, q)
  {
    v := 0.0;
    for j := 0 to |q|
      invariant v == DocScore(qtw, tdw, terms, d, q[..j])
    {
      var token := q[j];
      assert q[..j + 1][..j] == q[..j];
      if token !in terms {
        continue;
      }
      v := v + Times(qtw[token], tdw[token][d]);
    }
    assert q[..|q|] == q;
  }

  /** Lines 43-49: every document, in order. */
  method ScoreDocuments<V>(qtw: map<string, real>, tdw: Weighting.Weights, docs: Dict<map<string, V>>, q: seq<string>)
    returns (sc: Dict<real>)
    requires forall t :: t in q ==> t in qtw
    requires Covered(tdw, docs)
    ensures sc == ScoresOf(qtw, tdw, docs, q)
  {
    sc := [];
    for k := 0 to |docs|
      invariant sc == ScoresOf(qtw, tdw, docs[..k], q)
    {
      var v := ScoreDocument(qtw, tdw, docs[k].1, docs[k].0, q);
      assert docs[..k + 1][..k] == docs[..k];
      sc := sc + [(docs[k].0, v)];
    }
    assert docs[..|docs|] == docs;
  }

  /** The loop body of lines 27-52 for one query. */
  method Query<V>(math: Math, tdw: Weighting.Weights, docs: Dict<map<string, V>>, idf: map<string, real>,
                  q: seq<string>, tf: map<string, nat>)
    returns (r: Result<(map<string, real>, Dict<real>)>)
    requires tf == Tf(q) && Covered(tdw, docs)
    ensures r == Answer(math, tdw, docs, idf, q)
  {
    var raw := RawQuery(math, idf, q, tf);
    if raw.Failure? {
      return Failure(raw.error);
    }
    var s := Weighting.SumSquares(raw.value);
    var norm := math.sqrt(s);
    if norm == 0.0 {
      return Failure(ZeroDivisionError);
    }
    var f := 1.0 / norm;
    var w := Renormalise(raw.value, f, q);
    var sc := ScoreDocuments(w, tdw, docs, q);
    r := Ok((w, Ranked(sc)));
  }

  /** Queries `0..n-1` all succeed. */
  ghost predicate AllOk<V>(math: Math, tdw: Weighting.Weights, docs: Dict<map<string, V>>, idf: map<string, real>,
                           queries: seq<seq<string>>, n: nat)
    requires n <= |queries|
  {
    forall k :: 0 <= k < n ==> Answer(math, tdw, docs, idf, queries[k]).Ok?
  }

  /** `qtw` and `scores` hold the answers of queries `0..n-1`, keyed from 1. */
  ghost predicate Answered<V>(math: Math, tdw: Weighting.Weights, docs: Dict<map<string, V>>, idf: map<string, real>,
                              queries: seq<seq<string>>, n: nat,
                              qtw: map<int, map<string, real>>, scores: map<int, Dict<real>>)
    requires n <= |queries|
  {
    && (forall key :: key in qtw <==> 1 <= key <= n)
    && (forall key :: key in scores <==> 1 <= key <= n)
    && forall k :: 0 <= k < n ==> Answer(math, tdw, docs, idf, queries[k]) == Ok((qtw[k + 1], scores[k + 1]))
  }

  lemma AnsweredStep<V>(math: Math, tdw: Weighting.Weights, docs: Dict<map<string, V>>, idf: map<string, real>,
                        queries: seq<seq<string>>, n: nat,
                        qtw: map<int, map<string, real>>, scores: map<int, Dict<real>>, w: map<string, real>, sc: Dict<real>)
    requires n < |queries| && AllOk(math, tdw, docs, idf, queries, n)
    requires Answered(math, tdw, docs, idf, queries, n, qtw, scores)
    requires Answer(math, tdw, docs, idf, queries[n]) == Ok((w, sc))
    ensures AllOk(math, tdw, docs, idf, queries, n + 1)
    ensures Answered(math, tdw, docs, idf, queries, n + 1, qtw[n + 1 := w], scores[n + 1 := sc])
  {
  }

  /** Lines 10-54 without the latencies: the weights and ranked scores of
      every query, or the error of the first query that raises one. */
  method LtcCalculation<V>(math: Math, tdw: Weighting.Weights, docs: Dict<map<string, V>>, idf: map<string, real>,
                           queries: seq<seq<string>>)
    returns (r: Result<(map<int, map<string, real>>, map<int, Dict<real>>)>)
    requires Covered(tdw, docs)
    ensures r.Failure? <==> !AllOk(math, tdw, docs, idf, queries, |queries|)
    ensures r.Failure? ==> exists i :: 0 <= i < |queries| && AllOk(math, tdw, docs, idf, queries, i)
                                       && Answer(math, tdw, docs, idf, queries[i]) == Failure(r.error)
    ensures r.Ok? ==> Answered(math, tdw, docs, idf, queries, |queries|, r.value.0, r.value.1)
  {
    var qtf := CountQueries(queries);
    var qtw: map<int, map<string, real>> := map[];
    var scores: map<int, Dict<real>> := map[];
    for idx := 0 to |queries|
      invariant AllOk(math, tdw, docs, idf, queries, idx)
      invariant Answered(math, tdw, docs, idf, queries, idx, qtw, scores)
    {
      var a := Query(math, tdw, docs, idf, queries[idx], qtf[idx + 1]);
      if a.Failure? {
        assert Answer(math, tdw, docs, idf, queries[idx]) == Failure(a.error);
        return Failure(a.error);
      }
      AnsweredStep(math, tdw, docs, idf, queries, idx, qtw, scores, a.value.0, a.value.1);
      qtw := qtw[idx + 1 := a.value.0];
      scores := scores[idx + 1 := a.value.1];
    }
    r := Ok((qtw, scores));
  }
}
