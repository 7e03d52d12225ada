/** BM25 document weights (assignment/indexer.py): the average document
    length `bm25_avdl`, the per-pair weight of `bm25_weighting` and its
    driver `bmc_pre_calculation` with k = 1.2 and b = 0.75. */
module Bm25 {
  import opened Dicts
  import opened Errors
  import opened RealMath
  import opened Weighting

  // ---------------------------------------------------------------------
  // bm25_avdl

  /** `sum(document_length_index.values()) / len(document_length_index)`:
      the average document length, or ZeroDivisionError on an empty index. */
  method Avdl(lengths: map<string, nat>) returns (r: Result<real>)
    ensures r.Failure? <==> |lengths| == 0
    ensures r.Failure? ==> r.error == ZeroDivisionError
    ensures r.Ok? ==> Times(r.value, |lengths| as real) == Sum(Reals(lengths))
  {
    var total: nat := 0;
    var rest := lengths;
    while |rest| != 0
      invariant forall d :: d in rest ==> d in lengths && rest[d] == lengths[d]
      invariant total as real + Sum(Reals(rest)) == Sum(Reals(lengths))
      decreases |rest|
    {
      var d :| d in rest;
      RealsRemove(rest, d);
      total := total + rest[d];
      rest := rest - {d};
    }
    assert Reals(rest) == map[];
    if |lengths| == 0 {
      return Failure(ZeroDivisionError);
    }
    DivTimes(total as real, |lengths| as real);
    r := Ok(total as real / |lengths| as real);
  }

  lemma DivTimes(x: real, n: real)
    requires n > 0.0
    ensures Times(x / n, n) == x
  {
  }

  lemma RealsRemove(m: map<string, nat>, d: string)
    requires d in m
    ensures Sum(Reals(m)) == m[d] as real + Sum(Reals(m - {d}))
  {
    SumRemove(Reals(m), d);
    assert Reals(m) - {d} == Reals(m - {d});
  }

  /** The average lies between zero and the longest document. */
  lemma AvdlBounds(lengths: map<string, nat>, avdl: real, longest: nat)
    requires |lengths| > 0 && Times(avdl, |lengths| as real) == Sum(Reals(lengths))
    requires forall d :: d in lengths ==> lengths[d] <= longest
    ensures 0.0 <= avdl <= longest as real
  {
    var n := |lengths| as real;
    SumNonNegative(Reals(lengths));
    SumAtMost(Reals(lengths), longest as real);
    Multiple(|lengths|, longest as real);
    CancelFactor(avdl, longest as real, n);
  }

  lemma CancelFactor(x: real, y: real, n: real)
    requires n > 0.0 && 0.0 <= Times(x, n) <= Times(y, n)
    ensures 0.0 <= x <= y
  {
  }

  /** `c` added to itself `n` times, so that sums can be bounded without
      multiplication. */
  function Copies(n: nat, c: real): real {
    if n == 0 then 0.0 else Copies(n - 1, c) + c
  }

  lemma {:induction false} Multiple(n: nat, c: real)
    ensures Copies(n, c) == Times(c, n as real)
  {
    if n > 0 {
      Multiple(n - 1, c);
      assert c * n as real == c * (n - 1) as real + c;
    }
  }

  /** A sum of values none above `c` is at most `c` times their number. */
  lemma {:induction false} SumAtMost(m: map<string, real>, c: real)
    requires forall d :: d in m ==> m[d] <= c
    ensures Sum(m) <= Copies(|m|, c)
    decreases |m|
  {
    if |m| != 0 {
      var d :| d in m;
      var rest := m - {d};
      SumRemove(m, d);
      SumAtMost(rest, c);
      assert |rest| == |m| - 1;
    }
  }

  // ---------------------------------------------------------------------
  // bm25_weighting

  /** The inputs `bm25_weighting` reads for every pair besides the count:
      `k`, `b`, `avdl`, `idf_list` and `document_length_index`. */
  datatype Params = Params(k: real, b: real, avdl: real, idf: map<string, real>, lengths: map<string, nat>)

  /** The document-length term `k*((1-b) + b*len/avdl)` of the denominator. */
  function LengthNorm(p: Params, len: nat): real
    requires p.avdl != 0.0
  {
    p.k * ((1.0 - p.b) + (p.b * len as real / p.avdl))
  }

  /** The BM25 weight of term `t` with count `tf` in document `d`, computed
      as lines 238-241 do: `idf_list[token]` and
      `document_length_index[docID]` raise KeyError when missing, a zero
      `avdl` or a zero denominator raises ZeroDivisionError. */
  function Weight(p: Params, d: string, t: string, tf: nat): Result<real> {
    if t !in p.idf then Failure(KeyError)
    else if d !in p.lengths then Failure(KeyError)
    else if p.avdl == 0.0 then Failure(ZeroDivisionError)
    else
      var den := LengthNorm(p, p.lengths[d]) + tf as real;
      if den == 0.0 then Failure(ZeroDivisionError)
      else Ok(p.idf[t] * ((p.k + 1.0) * tf as real) * (1.0 / den))
  }

  /** Parameters in BM25's range: a non-negative saturation `k`, a length
      normalisation `b` between 0 and 1 and a positive average length. */
  ghost predicate InRange(p: Params) {
    p.k >= 0.0 && 0.0 <= p.b <= 1.0 && p.avdl > 0.0
  }

  lemma LengthNormNonNegative(p: Params, len: nat)
    requires InRange(p)
    ensures LengthNorm(p, len) >= 0.0
  {
    var x := p.b * len as real / p.avdl;
    assert p.b * len as real >= 0.0;
    assert x >= 0.0;
  }

  /** With parameters in range and a positive count, only a missing idf or
      a missing document length fails, and the weight is the idf times the
      saturating term-frequency factor, which lies in (0, k + 1]. */
  lemma WeightInRange(p: Params, d: string, t: string, tf: nat)
    requires InRange(p) && tf > 0
    ensures Weight(p, d, t, tf).Failure? <==> t !in p.idf || d !in p.lengths
    ensures Weight(p, d, t, tf).Failure? ==> Weight(p, d, t, tf).error == KeyError
    ensures Weight(p, d, t, tf).Ok? ==>
              var c := LengthNorm(p, p.lengths[d]);
              && c + tf as real > 0.0
              && Weight(p, d, t, tf).value == p.idf[t] * Saturation(p.k, c, tf)
              && 0.0 < Saturation(p.k, c, tf) <= p.k + 1.0
  {
    if t in p.idf && d in p.lengths {
      var c := LengthNorm(p, p.lengths[d]);
      LengthNormNonNegative(p, p.lengths[d]);
      SaturationBounds(p.k, c, tf);
      SaturationProduct(p.idf[t], p.k, c, tf);
    }
  }

  /** The term-frequency factor `(k+1)*tf / (c+tf)` of BM25. */
  function Saturation(k: real, c: real, tf: nat): real
    requires c + tf as real > 0.0
  {
    (k + 1.0) * (tf as real / (c + tf as real))
  }

  lemma SaturationProduct(idf: real, k: real, c: real, tf: nat)
    requires c + tf as real > 0.0
    ensures idf * ((k + 1.0) * tf as real) * (1.0 / (c + tf as real)) == idf * Saturation(k, c, tf)
  {
    var x, den := tf as real, c + tf as real;
    assert x / den == x * (1.0 / den);
  }

  lemma MulMono(a: real, x: real, y: real)
    requires a >= 0.0 && x <= y
    ensures a * x <= a * y
  {
    assert a * y - a * x == a * (y - x);
  }

  /** For `c >= 0` the factor lies in (0, k + 1]. */
  lemma SaturationBounds(k: real, c: real, tf: nat)
    requires k >= 0.0 && c >= 0.0 && tf > 0
    ensures c + tf as real > 0.0
    ensures 0.0 < Saturation(k, c, tf) <= k + 1.0
  {
    var x, den := tf as real, c + tf as real;
    var q := x / den;
    assert q * den == x;
    assert q > 0.0 by {
      if q <= 0.0 {
        MulMono(den, q, 0.0);
      }
    }
    assert q <= 1.0 by {
      if q > 1.0 {
        MulMono(den, 1.0, q);
      }
    }
    MulMono(k + 1.0, q, 1.0);
    assert (k + 1.0) * q > 0.0 by {
      PositiveProduct(k + 1.0, q);
    }
  }

  /** Term-frequency saturation: a larger count never lowers the weight of a
      term with a non-negative idf. */
  lemma WeightMonotone(p: Params, d: string, t: string, tf1: nat, tf2: nat)
    requires InRange(p) && 0 < tf1 <= tf2 && t in p.idf && d in p.lengths && p.idf[t] >= 0.0
    ensures Weight(p, d, t, tf1).Ok? && Weight(p, d, t, tf2).Ok?
    ensures Weight(p, d, t, tf1).value <= Weight(p, d, t, tf2).value
  {
    WeightInRange(p, d, t, tf1);
    WeightInRange(p, d, t, tf2);
    var c := LengthNorm(p, p.lengths[d]);
    LengthNormNonNegative(p, p.lengths[d]);
    SaturationMonotone(p.k, c, tf1, tf2);
    MulMono(p.idf[t], Saturation(p.k, c, tf1), Saturation(p.k, c, tf2));
  }

  lemma SaturationMonotone(k: real, c: real, tf1: nat, tf2: nat)
    requires k >= 0.0 && c >= 0.0 && 0 < tf1 <= tf2
    ensures Saturation(k, c, tf1) <= Saturation(k, c, tf2)
  {
    var x1, x2 := tf1 as real, tf2 as real;
    var d1, d2 := c + x1, c + x2;
    var q1, q2 := x1 / d1, x2 / d2;
    assert q1 * d1 == x1 && q2 * d2 == x2;
    MulMono(c, x1, x2);
    assert x1 * d2 <= x2 * d1;
    var dd := d1 * d2;
    PositiveProduct(d1, d2);
    assert q1 * dd == x1 * d2;
    assert q2 * dd == x2 * d1;
    DivMono(q1, q2, dd);
    MulMono(k + 1.0, q1, q2);
  }

  /** Dividing by a positive number keeps the order. */
  lemma DivMono(q1: real, q2: real, dd: real)
    requires dd > 0.0 && q1 * dd <= q2 * dd
    ensures q1 <= q2
  {
    assert (q2 - q1) * dd >= 0.0;
    if q2 - q1 < 0.0 {
      MulMono(dd, q2 - q1, 0.0);
    }
  }

  lemma PositiveProduct(a: real, b: real)
    requires a > 0.0 && b > 0.0
    ensures a * b > 0.0
  {
  }

  /** The pair of `t` in document `d` fails. */
  ghost predicate Fails(p: Params, d: string, row: map<string, nat>, t: string) {
    t in row && Weight(p, d, t, row[t]).Failure?
  }

  /** Some term of document `d` fails. */
  ghost predicate RowFails(p: Params, d: string, row: map<string, nat>) {
    exists t :: Fails(p, d, row, t)
  }

  /** Some term of document `d` fails with error `e`. */
  ghost predicate RaisesIn(p: Params, d: string, row: map<string, nat>, e: Error) {
    exists t :: Fails(p, d, row, t) && Weight(p, d, t, row[t]).error == e
  }

  /** The weights of document `d`'s terms (meaningful when none fails). */
  ghost function Row(p: Params, d: string, row: map<string, nat>): map<string, real> {
    map t | t in row && Weight(p, d, t, row[t]).Ok? :: Weight(p, d, t, row[t]).value
  }

  /** `part` holds the weights of the terms of `row` outside `rest`, none of
      which failed. */
  ghost predicate RowPart(p: Params, d: string, row: map<string, nat>, rest: set<string>, part: map<string, real>) {
    && (forall t :: t in rest ==> t in row)
    && (forall t :: t in part <==> t in row && t !in rest)
    && (forall t :: t in part ==> Weight(p, d, t, row[t]) == Ok(part[t]))
  }

  lemma RowStep(p: Params, d: string, row: map<string, nat>, rest: set<string>, part: map<string, real>, t: string, v: real)
    requires RowPart(p, d, row, rest, part) && t in rest && Weight(p, d, t, row[t]) == Ok(v)
    ensures t !in part
    ensures RowPart(p, d, row, rest - {t}, part[t := v])
  {
  }

  lemma RowEnd(p: Params, d: string, row: map<string, nat>, part: map<string, real>)
    requires RowPart(p, d, row, {}, part)
    ensures !RowFails(p, d, row)
    ensures part == Row(p, d, row)
  {
  }

  /** The inner loop of lines 234-242 for document `d`: the weight of every
      term of the document goes into `w[t][d]`; the first failing pair
      raises. */
  method Document(p: Params, w: Weights, d: string, row: map<string, nat>) returns (r: Result<Weights>)
    ensures r.Failure? <==> RowFails(p, d, row)
    ensures r.Failure? ==> RaisesIn(p, d, row, r.error)
    ensures r.Ok? ==> r.value == Spread(w, d, Row(p, d, row))
  {
    var w', part := w, map[];
    var rest := row.Keys;
    while rest != {}
      invariant RowPart(p, d, row, rest, part)
      invariant SpreadPart(w, d, part, w')
      decreases rest
    {
      var t :| t in rest;
      var x := Weight(p, d, t, row[t]);
      if x.Failure? {
        assert Fails(p, d, row, t);
        return Failure(x.error);
      }
      RowStep(p, d, row, rest, part, t, x.value);
      SpreadStep(w, d, part, w', t, x.value);
      if t !in w' {
        w' := w'[t := map[]];
      }
      w' := w'[t := w'[t][d := x.value]];
      part := part[t := x.value];
      rest := rest - {t};
    }
    RowEnd(p, d, row, part);
    SpreadEnd(w, d, part, w');
    return Ok(w');
  }

  /** Every document replaced by its BM25 weights. */
  ghost function Rows(p: Params, ti: Counts): (r: Dict<map<string, real>>)
    ensures |r| == |ti|
    decreases |ti|
  {
    if ti == [] then []
    else Rows(p, ti[..|ti| - 1]) + [(ti[|ti| - 1].0, Row(p, ti[|ti| - 1].0, ti[|ti| - 1].1))]
  }

  lemma {:induction false} RowsAt(p: Params, ti: Counts, i: nat)
    requires i < |ti|
    ensures Rows(p, ti)[i] == (ti[i].0, Row(p, ti[i].0, ti[i].1))
    decreases |ti|
  {
    if i < |ti| - 1 {
      RowsAt(p, ti[..|ti| - 1], i);
    }
  }

  /** No document among the first `i` has a failing pair. */
  ghost predicate NoneFails(p: Params, ti: Counts, i: nat) {
    forall j :: 0 <= j < i && j < |ti| ==> !RowFails(p, ti[j].0, ti[j].1)
  }

  /** The error `bm25_weighting` raises is raised by a pair of the first
      document that has a failing pair. */
  ghost predicate FirstRaises(p: Params, ti: Counts, e: Error) {
    exists i :: 0 <= i < |ti| && NoneFails(p, ti, i) && RaisesIn(p, ti[i].0, ti[i].1, e)
  }

  /** `weights` after the first `i` documents. */
  ghost predicate WeightsAfter(p: Params, ti: Counts, i: nat, w: Weights)
    requires i <= |ti|
  {
    NoneFails(p, ti, i) && w == Stack(Rows(p, ti[..i]))
  }

  /** One more document without a failing pair. */
  lemma WeightsStep(p: Params, ti: Counts, i: nat, w: Weights, w': Weights)
    requires i < |ti| && WeightsAfter(p, ti, i, w) && !RowFails(p, ti[i].0, ti[i].1)
    requires w' == Spread(w, ti[i].0, Row(p, ti[i].0, ti[i].1))
    ensures WeightsAfter(p, ti, i + 1, w')
  {
    assert ti[..i + 1][..i] == ti[..i];
    StackSnoc(Rows(p, ti[..i]), (ti[i].0, Row(p, ti[i].0, ti[i].1)));
  }

  lemma FirstRaisesIntro(p: Params, ti: Counts, i: nat, e: Error)
    requires i < |ti| && NoneFails(p, ti, i) && RaisesIn(p, ti[i].0, ti[i].1, e)
    ensures FirstRaises(p, ti, e)
  {
  }

  /** What `bm25_weighting` returns for `p`: an error exactly when some
      document has a failing pair, the first such document's error, and
      otherwise every document's weights. */
  ghost predicate Outcome(p: Params, ti: Counts, r: Result<Weights>) {
    && (r.Failure? <==> !NoneFails(p, ti, |ti|))
    && (r.Failure? ==> FirstRaises(p, ti, r.error))
    && (r.Ok? ==> r.value == Stack(Rows(p, ti)))
  }

  /** `bm25_weighting` (lines 193-245): the BM25 weight of every (term,
      document) pair, by term and then document. `N` is accepted and not
      used, as in the source. */
  method Bm25Weighting(n: nat, k: real, b: real, avdl: real, termIndex: Counts, lengths: map<string, nat>,
                   idf: map<string, real>)
    returns (r: Result<Weights>)
    ensures var p := Params(k, b, avdl, idf, lengths);
            r.Failure? <==> !NoneFails(p, termIndex, |termIndex|)
    ensures r.Failure? ==> FirstRaises(Params(k, b, avdl, idf, lengths), termIndex, r.error)
    ensures r.Ok? ==> r.value == Stack(Rows(Params(k, b, avdl, idf, lengths), termIndex))
  {
    var p := Params(k, b, avdl, idf, lengths);
    var w: Weights := map[];
    for i := 0 to |termIndex|
      invariant WeightsAfter(p, termIndex, i, w)
    {
      var x := Document(p, w, termIndex[i].0, termIndex[i].1);
      if x.Failure? {
        FirstRaisesIntro(p, termIndex, i, x.error);
        return Failure(x.error);
      }
      WeightsStep(p, termIndex, i, w, x.value);
      w := x.value;
    }
    assert termIndex[..|termIndex|] == termIndex;
    return Ok(w);
  }

  /** With distinct documents, the weights hold `t → d` exactly for the terms
      of document `d`, each with its BM25 weight. */
  lemma WeightsAt(p: Params, ti: Counts, w: Weights, t: string, d: string)
    requires UniqueKeys(ti) && NoneFails(p, ti, |ti|) && w == Stack(Rows(p, ti))
    ensures t in w && d in w[t] <==> d in ToMap(ti) && t in ToMap(ti)[d]
    ensures t in w && d in w[t] ==> Weight(p, d, t, ToMap(ti)[d][t]) == Ok(w[t][d])
  {
    var rows := Rows(p, ti);
    forall i | 0 <= i < |ti| ensures rows[i] == (ti[i].0, Row(p, ti[i].0, ti[i].1)) {
      RowsAt(p, ti, i);
    }
    assert UniqueKeys(rows);
    StackAt(rows, t, d);
    if d in ToMap(ti) {
      var i :| 0 <= i < |ti| && ti[i].0 == d;
      ToMapAt(ti, i);
      ToMapAt(rows, i);
      assert !RowFails(p, ti[i].0, ti[i].1);
      assert !Fails(p, d, ti[i].1, t);
    }
  }

  // ---------------------------------------------------------------------
  // bmc_pre_calculation

  /** `bmc_pre_calculation` (lines 248-282): BM25 weights with k = 1.2,
      b = 0.75, `N` the number of documents and `avdl` their average length;
      an empty length index raises ZeroDivisionError in `bm25_avdl`. */
  method PreCalculation(termIndex: Counts, lengths: map<string, nat>, idf: map<string, real>)
    returns (r: Result<Weights>)
    ensures |lengths| == 0 ==> r == Failure(ZeroDivisionError)
    ensures |lengths| > 0 ==> exists avdl ::
              && Times(avdl, |lengths| as real) == Sum(Reals(lengths))
              && Outcome(Params(1.2, 0.75, avdl, idf, lengths), termIndex, r)
  {
    var avdl := Avdl(lengths);
    if avdl.Failure? {
      return Failure(avdl.error);
    }
    var n := |lengths|;
    var k, b := 1.2, 0.75;
    r := Bm25Weighting(n, k, b, avdl.value, termIndex, lengths, idf);
    assert Outcome(Params(k, b, avdl.value, idf, lengths), termIndex, r);
  }

  /** With the defaults and a positive average length, the only error left
      is KeyError, raised exactly when some document misses its length or
      some term its idf. */
  lemma DefaultsOnlyKeyError(avdl: real, idf: map<string, real>, lengths: map<string, nat>, ti: Counts, e: Error)
    requires avdl > 0.0 && Positive(ti)
    ensures var p := Params(1.2, 0.75, avdl, idf, lengths);
            !NoneFails(p, ti, |ti|) <==>
              exists i, t :: 0 <= i < |ti| && t in ti[i].1 && (t !in idf || ti[i].0 !in lengths)
    ensures FirstRaises(Params(1.2, 0.75, avdl, idf, lengths), ti, e) ==> e == KeyError
  {
    var p := Params(1.2, 0.75, avdl, idf, lengths);
    forall i, t | 0 <= i < |ti| && t in ti[i].1
      ensures Fails(p, ti[i].0, ti[i].1, t) <==> t !in idf || ti[i].0 !in lengths
      ensures Fails(p, ti[i].0, ti[i].1, t) ==> Weight(p, ti[i].0, t, ti[i].1[t]).error == KeyError
    {
      WeightInRange(p, ti[i].0, t, ti[i].1[t]);
    }
    if FirstRaises(p, ti, e) {
      var i :| 0 <= i < |ti| && NoneFails(p, ti, i) && RaisesIn(p, ti[i].0, ti[i].1, e);
      var t :| Fails(p, ti[i].0, ti[i].1, t) && Weight(p, ti[i].0, t, ti[i].1[t]).error == e;
    }
  }
}
