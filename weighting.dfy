/** Document-side weights: the normalised lnc weights and the idf list of
    `lnc_calculation` (assignment/indexer.py and assignment/assignment.py),
    the average document length `bm25_avdl`, and the BM25 weights of
    `bm25_weighting` / `bmc_pre_calculation` (assignment/indexer.py).

    The input index maps each document to its term counts; the documents
    are visited in insertion order (a `Dict`), the terms of one document in
    an order the model does not fix (a `map`), which the final weights do not
    depend on. */
module Weighting {
  import opened Dicts
  import opened Errors
  import opened RealMath

  /** Term counts by document, then term (`term_index[docID][token]`). */
  type Counts = Dict<map<string, nat>>

  /** Weights by term, then document (`term_document_weights[token][docID]`). */
  type Weights = map<string, map<string, real>>

  /** Every stored count is positive, as `math.log10` needs. */
  ghost predicate Positive(ti: Counts) {
    forall i, t :: 0 <= i < |ti| && t in ti[i].1 ==> ti[i].1[t] > 0
  }

  /** The logarithmic term-frequency weight `1 + log10(tf)`. */
  function LogTf(math: Math, tf: nat): real {
    1.0 + math.log10(tf as real)
  }

  /** `log10(N / df)`. */
  function Idf(math: Math, n: nat, df: nat): real
    requires df > 0
  {
    math.log10(n as real / df as real)
  }

  // ---------------------------------------------------------------------
  // lnc weights of one document

  /** The weights of one document before normalisation. */
  ghost function Raw(math: Math, row: map<string, nat>): (r: map<string, real>)
    ensures forall t :: t in r <==> t in row
    ensures forall t :: t in r ==> r[t] == LogTf(math, row[t])
  {
    map t | t in row :: LogTf(math, row[t])
  }

  /** The Euclidean length of a document's raw weights is not zero. */
  ghost predicate Normable(math: Math, row: map<string, nat>) {
    math.sqrt(Sum(Squares(Raw(math, row)))) != 0.0
  }

  /** The norm factor `1/sqrt(sum of squares)` of a document, where it is
      defined. */
  ghost function NormFactor(math: Math, row: map<string, nat>): real {
    var q := math.sqrt(Sum(Squares(Raw(math, row))));
    if q == 0.0 then 0.0 else 1.0 / q
  }

  /** A document's lnc weights: its raw weights times its norm factor. */
  ghost function Lnc(math: Math, row: map<string, nat>): map<string, real> {
    Scaled(Raw(math, row), NormFactor(math, row))
  }

  /** A count of at least one has a log weight of at least one. */
  lemma LogTfAtLeastOne(math: Math, tf: nat)
    requires Lawful(math) && tf > 0
    ensures LogTf(math, tf) >= 1.0
  {
    assert math.log10(1.0) <= math.log10(tf as real);
  }

  /** The norm factor divides by zero exactly for a document without terms. */
  lemma NormableIff(math: Math, row: map<string, nat>)
    requires Lawful(math)
    requires forall t :: t in row ==> row[t] > 0
    ensures Normable(math, row) <==> row != map[]
  {
    var raw := Raw(math, row);
    var sq := Squares(raw);
    if row == map[] {
      assert sq == map[];
    } else {
      var t :| t in row;
      SquaresPositive(math, row);
      SumPositive(sq, t);
    }
  }

  /** Every raw weight of a document with positive counts has a positive
      square. */
  lemma SquaresPositive(math: Math, row: map<string, nat>)
    requires Lawful(math)
    requires forall t :: t in row ==> row[t] > 0
    ensures forall t :: t in Squares(Raw(math, row)) ==> Squares(Raw(math, row))[t] > 0.0
  {
    var raw := Raw(math, row);
    forall t | t in raw ensures Times(raw[t], raw[t]) > 0.0 {
      LogTfAtLeastOne(math, row[t]);
      PositiveProduct(raw[t], raw[t]);
    }
  }

  /** Cosine normalisation: the squares of a document's lnc weights sum to
      one, and every lnc weight is positive. */
  lemma LncUnit(math: Math, row: map<string, nat>)
    requires Lawful(math) && row != map[]
    requires forall t :: t in row ==> row[t] > 0
    ensures Normable(math, row)
    ensures Sum(Squares(Lnc(math, row))) == 1.0
    ensures forall t :: t in Lnc(math, row) ==> Lnc(math, row)[t] > 0.0
  {
    NormableIff(math, row);
    var raw := Raw(math, row);
    var s := Sum(Squares(raw));
    var t0 :| t0 in row;
    SquaresPositive(math, row);
    SumPositive(Squares(raw), t0);
    CosineUnit(math, raw);
    var q := math.sqrt(s);
    assert q > 0.0;
    var f := PositiveInverse(q);
    forall t | t in Lnc(math, row) ensures Lnc(math, row)[t] > 0.0 {
      LogTfAtLeastOne(math, row[t]);
      PositiveProduct(raw[t], f);
    }
  }

  lemma PositiveProduct(a: real, b: real)
    requires a > 0.0 && b > 0.0
    ensures Times(a, b) > 0.0
  {
  }

  /** The inverse of a positive number, known positive. */
  function PositiveInverse(q: real): (f: real)
    requires q > 0.0
    ensures f == 1.0 / q && f > 0.0
  {
    1.0 / q
  }

  // ---------------------------------------------------------------------
  // The term-by-document table

  /** `w[t]`, or the empty row. */
  function Column(w: Weights, t: string): map<string, real> {
    if t in w then w[t] else map[]
  }

  /** `w[t][d] = col[t]` for every term `t` of `col`, creating `w[t] = {}`
      first when missing. */
  ghost function Spread(w: Weights, d: string, col: map<string, real>): (r: Weights)
    ensures forall t :: t in r <==> t in w || t in col
    ensures forall t :: t in r ==> r[t] == if t in col then Column(w, t)[d := col[t]] else w[t]
  {
    map t | t in w.Keys + col.Keys :: if t in col then Column(w, t)[d := col[t]] else w[t]
  }

  /** The table holding the rows of `rows`, one document after another. */
  ghost function Stack(rows: Dict<map<string, real>>): Weights
    decreases |rows|
  {
    if rows == [] then map[]
    else Spread(Stack(rows[..|rows| - 1]), rows[|rows| - 1].0, rows[|rows| - 1].1)
  }

  lemma StackSnoc(rows: Dict<map<string, real>>, x: (string, map<string, real>))
    ensures Stack(rows + [x]) == Spread(Stack(rows), x.0, x.1)
  {
    assert (rows + [x])[..|rows|] == rows;
  }

  /** With distinct documents, the table holds `t → d → v` exactly when
      document `d`'s row maps `t` to `v`. */
  lemma {:induction false} StackAt(rows: Dict<map<string, real>>, t: string, d: string)
    requires UniqueKeys(rows)
    ensures t in Stack(rows) && d in Stack(rows)[t] <==> d in ToMap(rows) && t in ToMap(rows)[d]
    ensures t in Stack(rows) && d in Stack(rows)[t] ==> Stack(rows)[t][d] == ToMap(rows)[d][t]
    decreases |rows|
  {
    if rows != [] {
      var p, x := rows[..|rows| - 1], rows[|rows| - 1];
      assert UniqueKeys(p);
      StackAt(p, t, d);
      assert x.0 !in ToMap(p);
      assert ToMap(rows) == ToMap(p)[x.0 := x.1];
    }
  }

  /** Every term of the table has at least one document. */
  lemma {:induction false} StackOccupied(rows: Dict<map<string, real>>, t: string)
    requires t in Stack(rows)
    ensures |Stack(rows)[t].Keys| > 0
    decreases |rows|
  {
    var p, x := rows[..|rows| - 1], rows[|rows| - 1];
    if t in x.1 {
      assert x.0 in Stack(rows)[t].Keys;
    } else {
      StackOccupied(p, t);
    }
  }

  /** The number of documents holding `t`, once `t` is in the table. */
  function Df(w: Weights, t: string): nat {
    if t in w then |w[t].Keys| else 0
  }

  /** `idf[t] = log10(N / df)` for each term of `ks`, with `df` the number
      of documents holding `t` in `w`. */
  ghost function IdfFor(math: Math, w: Weights, n: nat, ks: set<string>): map<string, real> {
    map t | t in ks :: if Df(w, t) > 0 then Idf(math, n, Df(w, t)) else 0.0
  }

  /** The idf list after the rows `rows`: each row sets `idf[t]` from the
      current number of documents holding `t`, for every term `t` it holds. */
  ghost function IdfOver(math: Math, rows: Dict<map<string, real>>, n: nat): map<string, real>
    decreases |rows|
  {
    if rows == [] then map[]
    else
      var w := Stack(rows);
      var x := rows[|rows| - 1];
      IdfOver(math, rows[..|rows| - 1], n) + IdfFor(math, w, n, x.1.Keys)
  }

  /** Although rewritten for every document, the final idf of every term is
      `log10(N / df)` with its full document frequency. */
  lemma {:induction false} IdfOverAt(math: Math, rows: Dict<map<string, real>>, n: nat, t: string)
    ensures t in IdfOver(math, rows, n) <==> t in Stack(rows)
    ensures t in Stack(rows) ==> Df(Stack(rows), t) > 0 && IdfOver(math, rows, n)[t] == Idf(math, n, Df(Stack(rows), t))
    decreases |rows|
  {
    if rows != [] {
      var p, x := rows[..|rows| - 1], rows[|rows| - 1];
      IdfOverAt(math, p, n, t);
      var w, i := Stack(rows), IdfFor(math, Stack(rows), n, x.1.Keys);
      assert IdfOver(math, rows, n) == IdfOver(math, p, n) + i;
      if t in x.1 {
        StackOccupied(rows, t);
        assert t in i && i[t] == Idf(math, n, Df(w, t));
      } else if t in w {
        assert t !in i;
        assert w[t] == Stack(p)[t];
      }
    }
  }

  // ---------------------------------------------------------------------
  // lnc_calculation

  /** Each document replaced by its lnc weights. */
  ghost function LncRows(math: Math, ti: Counts): (r: Dict<map<string, real>>)
    ensures |r| == |ti|
    decreases |ti|
  {
    if ti == [] then []
    else LncRows(math, ti[..|ti| - 1]) + [(ti[|ti| - 1].0, Lnc(math, ti[|ti| - 1].1))]
  }

  lemma {:induction false} LncRowsAt(math: Math, ti: Counts, i: nat)
    requires i < |ti|
    ensures LncRows(math, ti)[i] == (ti[i].0, Lnc(math, ti[i].1))
    decreases |ti|
  {
    if i < |ti| - 1 {
      LncRowsAt(math, ti[..|ti| - 1], i);
    }
  }

  lemma LncRowsSnoc(math: Math, ti: Counts, i: nat)
    requires i < |ti|
    ensures LncRows(math, ti[..i + 1]) == LncRows(math, ti[..i]) + [(ti[i].0, Lnc(math, ti[i].1))]
  {
    assert ti[..i + 1][..i] == ti[..i];
  }

  /** `tdw` and `idf` are the table and the idf list built from `rows`. */
  ghost predicate Built(math: Math, rows: Dict<map<string, real>>, n: nat, tdw: Weights, idf: map<string, real>) {
    && tdw == Stack(rows)
    && idf == IdfOver(math, rows, n)
  }

  /** Spreading one more row and rewriting the idf of its terms extends the
      table and idf list by that row. */
  lemma BuiltStep(math: Math, rows: Dict<map<string, real>>, x: (string, map<string, real>), n: nat,
                  tdw: Weights, idf: map<string, real>, tdw': Weights, idf': map<string, real>)
    requires Built(math, rows, n, tdw, idf)
    requires tdw' == Spread(tdw, x.0, x.1)
    requires idf' == idf + IdfFor(math, tdw', n, x.1.Keys)
    ensures Built(math, rows + [x], n, tdw', idf')
  {
    StackSnoc(rows, x);
    assert (rows + [x])[..|rows|] == rows;
  }

  /** The state `lnc_calculation` has reached after the documents `ti`. */
  ghost predicate LncDone(math: Math, ti: Counts, n: nat, tdw: Weights, idf: map<string, real>) {
    Built(math, LncRows(math, ti), n, tdw, idf)
  }

  /** The closed form of a completed `lnc_calculation`, term by term:
      `tdw[t][d]` exists exactly when document `d` holds `t` and is `d`'s
      lnc weight for `t`; `idf` has the same terms, each with
      `log10(N / df)`. */
  lemma LncDoneAt(math: Math, ti: Counts, n: nat, tdw: Weights, idf: map<string, real>, t: string, d: string)
    requires UniqueKeys(ti) && LncDone(math, ti, n, tdw, idf)
    ensures t in tdw && d in tdw[t] <==> d in ToMap(ti) && t in ToMap(ti)[d]
    ensures t in tdw && d in tdw[t] ==> tdw[t][d] == Lnc(math, ToMap(ti)[d])[t]
    ensures t in idf <==> t in tdw
    ensures t in tdw ==> Df(tdw, t) > 0 && idf[t] == Idf(math, n, Df(tdw, t))
  {
    var rows := LncRows(math, ti);
    LncRowsMap(math, ti, d);
    StackAt(rows, t, d);
    IdfOverAt(math, rows, n, t);
  }

  /** The lnc rows have the documents of `ti`, each with its lnc weights. */
  lemma LncRowsMap(math: Math, ti: Counts, d: string)
    requires UniqueKeys(ti)
    ensures UniqueKeys(LncRows(math, ti))
    ensures d in ToMap(LncRows(math, ti)) <==> d in ToMap(ti)
    ensures d in ToMap(ti) ==> ToMap(LncRows(math, ti))[d] == Lnc(math, ToMap(ti)[d])
  {
    var rows := LncRows(math, ti);
    LncRowsUnique(math, ti);
    if d in ToMap(ti) {
      var i :| 0 <= i < |ti| && ti[i].0 == d;
      LncRowsAt(math, ti, i);
      ToMapAt(ti, i);
      ToMapAt(rows, i);
    }
    if d in ToMap(rows) {
      var i :| 0 <= i < |rows| && rows[i].0 == d;
      LncRowsAt(math, ti, i);
    }
  }

  lemma LncRowsUnique(math: Math, ti: Counts)
    requires UniqueKeys(ti)
    ensures UniqueKeys(LncRows(math, ti))
  {
    var rows := LncRows(math, ti);
    forall i | 0 <= i < |ti| ensures rows[i].0 == ti[i].0 {
      LncRowsAt(math, ti, i);
    }
  }


  /** `raw` holds the terms of `row` outside `rest`, with their log weights. */
  ghost predicate RawPart(math: Math, row: map<string, nat>, rest: set<string>, raw: map<string, real>) {
    && (forall t :: t in rest ==> t in row)
    && (forall t :: t in raw <==> t in row && t !in rest)
    && (forall t :: t in raw ==> raw[t] == LogTf(math, row[t]))
  }

  lemma RawStep(math: Math, row: map<string, nat>, rest: set<string>, raw: map<string, real>, t: string)
    requires RawPart(math, row, rest, raw) && t in rest
    ensures RawPart(math, row, rest - {t}, raw[t := LogTf(math, row[t])])
  {
  }

  lemma RawEnd(math: Math, row: map<string, nat>, raw: map<string, real>)
    requires RawPart(math, row, {}, raw)
    ensures raw == Raw(math, row)
  {
  }

  /** `w'` is `w` with `w'[t][d] = part[t]` written for the terms of `part`. */
  ghost predicate SpreadPart(w: Weights, d: string, part: map<string, real>, w': Weights) {
    && (forall t :: t in w' <==> t in w || t in part)
    && (forall t :: t in w' ==> w'[t] == if t in part then Column(w, t)[d := part[t]] else w[t])
  }

  lemma SpreadStep(w: Weights, d: string, part: map<string, real>, w': Weights, t: string, v: real)
    requires SpreadPart(w, d, part, w') && t !in part
    ensures Column(w', t) == Column(w, t)
    ensures SpreadPart(w, d, part[t := v], w'[t := Column(w', t)[d := v]])
  {
  }

  lemma SpreadEnd(w: Weights, d: string, part: map<string, real>, w': Weights)
    requires SpreadPart(w, d, part, w')
    ensures w' == Spread(w, d, part)
  {
  }

  /** Step 1 of one document: the raw weight of every term, both as the
      document's row and as its entry in the term-by-document table. */
  method RawWeights(math: Math, tdw: Weights, id: string, row: map<string, nat>)
    returns (dtw: map<string, real>, tdw': Weights)
    ensures dtw == Raw(math, row)
    ensures tdw' == Spread(tdw, id, dtw)
  {
    dtw, tdw' := map[], tdw;
    var rest := row.Keys;
    while rest != {}
      invariant RawPart(math, row, rest, dtw)
      invariant SpreadPart(tdw, id, dtw, tdw')
      decreases rest
    {
      var t :| t in rest;
      var w := LogTf(math, row[t]);
      RawStep(math, row, rest, dtw, t);
      SpreadStep(tdw, id, dtw, tdw', t, w);
      dtw := dtw[t := w];
      if t !in tdw' {
        tdw' := tdw'[t := map[]];
      }
      tdw' := tdw'[t := tdw'[t][id := w]];
      rest := rest - {t};
    }
    RawEnd(math, row, dtw);
    SpreadEnd(tdw, id, dtw, tdw');
  }

  /** `sum([w**2 for w in ...])`. */
  method SumSquares(w: map<string, real>) returns (s: real)
    ensures s == Sum(Squares(w))
  {
    s := 0.0;
    var rest := w;
    while rest != map[]
      invariant forall t :: t in rest ==> t in w && rest[t] == w[t]
      invariant s + Sum(Squares(rest)) == Sum(Squares(w))
      decreases |rest|
    {
      var t :| t in rest;
      SquaresRemove(rest, t);
      s := s + Times(rest[t], rest[t]);
      rest := rest - {t};
    }
  }

  lemma SquaresRemove(m: map<string, real>, t: string)
    requires t in m
    ensures Sum(Squares(m)) == Times(m[t], m[t]) + Sum(Squares(m - {t}))
  {
    SumRemove(Squares(m), t);
    assert Squares(m) - {t} == Squares(m - {t});
  }

  /** `scaled` holds the terms of `dtw` outside `rest`, times `f`. */
  ghost predicate ScaledPart(dtw: map<string, real>, f: real, rest: set<string>, scaled: map<string, real>) {
    && (forall t :: t in rest ==> t in dtw)
    && (forall t :: t in scaled <==> t in dtw && t !in rest)
    && (forall t :: t in scaled ==> scaled[t] == Times(dtw[t], f))
  }

  lemma ScaledStep(dtw: map<string, real>, f: real, rest: set<string>, scaled: map<string, real>, t: string, v: real)
    requires ScaledPart(dtw, f, rest, scaled) && t in rest && v == Times(dtw[t], f)
    ensures ScaledPart(dtw, f, rest - {t}, scaled[t := v])
  {
  }

  lemma ScaledEnd(dtw: map<string, real>, f: real, scaled: map<string, real>)
    requires ScaledPart(dtw, f, {}, scaled)
    ensures scaled == Scaled(dtw, f)
  {
  }

  /** `w'` is `w` with `w'[t][d]` replaced by `part[t]` for the terms of `part`. */
  ghost predicate RescaledPart(w: Weights, d: string, part: map<string, real>, w': Weights) {
    && (forall t :: t in w' <==> t in w)
    && (forall t :: t in w' ==> w'[t] == if t in part then w[t][d := part[t]] else w[t])
  }

  lemma RescaledStep(w: Weights, d: string, part: map<string, real>, w': Weights, t: string, v: real)
    requires RescaledPart(w, d, part, w') && t in w && t !in part
    ensures t in w' && w'[t] == w[t]
    ensures RescaledPart(w, d, part[t := v], w'[t := w'[t][d := v]])
  {
  }

  /** Overwriting the entries a spread wrote, for the same terms, gives the
      spread of the new entries. */
  lemma RescaledEnd(base: Weights, d: string, first: map<string, real>, part: map<string, real>, w': Weights)
    requires forall t :: t in part <==> t in first
    requires RescaledPart(Spread(base, d, first), d, part, w')
    ensures w' == Spread(base, d, part)
  {
    var r := Spread(base, d, part);
    assert forall t :: t in w' <==> t in r;
    forall t | t in w' ensures w'[t] == r[t] {
      RescaledAt(base, d, first, part, w', t);
    }
  }

  lemma RescaledAt(base: Weights, d: string, first: map<string, real>, part: map<string, real>, w': Weights, t: string)
    requires t in part <==> t in first
    requires RescaledPart(Spread(base, d, first), d, part, w') && t in w'
    ensures t in Spread(base, d, part) && w'[t] == Spread(base, d, part)[t]
  {
    if t in part {
      var c := Column(base, t);
      assert w'[t] == c[d := first[t]][d := part[t]];
      assert c[d := first[t]][d := part[t]] == c[d := part[t]];
    }
  }

  /** `idf'` is `idf` with the idf of every term of `part` rewritten from
      the number of documents holding it in `w`. */
  ghost predicate IdfPart(math: Math, w: Weights, idf: map<string, real>, n: nat, part: map<string, real>,
                          idf': map<string, real>) {
    && (forall t :: t in idf' <==> t in idf || t in part)
    && (forall t :: t in part ==> Df(w, t) > 0 && idf'[t] == Idf(math, n, Df(w, t)))
    && (forall t :: t in idf' && t !in part ==> idf'[t] == idf[t])
  }

  lemma IdfStep(math: Math, w: Weights, idf: map<string, real>, n: nat, part: map<string, real>,
                idf': map<string, real>, d: string, t: string, v: real)
    requires IdfPart(math, w, idf, n, part, idf') && t in w && d in w[t]
    ensures Df(w, t) > 0
    ensures IdfPart(math, w, idf, n, part[t := v], idf'[t := Idf(math, n, Df(w, t))])
  {
    assert d in w[t].Keys;
  }

  lemma IdfEnd(math: Math, w: Weights, idf: map<string, real>, n: nat, part: map<string, real>,
               idf': map<string, real>)
    requires IdfPart(math, w, idf, n, part, idf')
    ensures idf' == idf + IdfFor(math, w, n, part.Keys)
  {
  }

  /** Rewriting existing entries leaves every document frequency as it was. */
  lemma RescaledDf(w: Weights, d: string, part: map<string, real>, w': Weights)
    requires RescaledPart(w, d, part, w')
    requires forall t :: t in part ==> t in w && d in w[t]
    ensures forall t :: t in part ==> Df(w', t) == Df(w, t)
  {
    forall t | t in part ensures Df(w', t) == Df(w, t) {
      assert w[t].Keys == w'[t].Keys;
    }
  }

  /** Steps 3 and 4 of one document: every term of the document has its
      table entry multiplied by the norm factor `f` and its idf rewritten
      from the number of documents now holding it. The scaled row is
      returned too, for the variant that also keeps it. */
  method Normalise(math: Math, tdw: Weights, id: string, dtw: map<string, real>, f: real,
                   idf: map<string, real>, n: nat)
    returns (tdw': Weights, idf': map<string, real>, scaled: map<string, real>)
    requires forall t :: t in dtw ==> t in tdw && id in tdw[t] && tdw[t][id] == dtw[t]
    ensures ScaledPart(dtw, f, {}, scaled)
    ensures RescaledPart(tdw, id, scaled, tdw')
    ensures IdfPart(math, tdw, idf, n, scaled, idf')
  {
    tdw', idf', scaled := tdw, idf, map[];
    var rest := dtw.Keys;
    while rest != {}
      invariant ScaledPart(dtw, f, rest, scaled)
      invariant RescaledPart(tdw, id, scaled, tdw')
      invariant IdfPart(math, tdw, idf, n, scaled, idf')
      decreases rest
    {
      var t :| t in rest;
      assert t in tdw && id in tdw[t] && tdw[t][id] == dtw[t];
      RescaledStep(tdw, id, scaled, tdw', t, Times(dtw[t], f));
      var v := Times(tdw'[t][id], f);
      ScaledStep(dtw, f, rest, scaled, t, v);
      IdfStep(math, tdw, idf, n, scaled, idf', id, t, v);
      tdw' := tdw'[t := tdw'[t][id := v]];
      scaled := scaled[t := v];
      idf' := idf'[t := Idf(math, n, |tdw[t].Keys|)];
      rest := rest - {t};
    }
  }

  lemma IdfForSame(math: Math, w: Weights, w': Weights, n: nat, ks: set<string>, ks': set<string>)
    requires forall t :: t in ks <==> t in ks'
    requires forall t :: t in ks ==> Df(w, t) == Df(w', t)
    ensures IdfFor(math, w, n, ks) == IdfFor(math, w', n, ks')
  {
    assert ks == ks';
  }


  /** The body of the document loop for one document `id` with counts
      `row`: fails on a document without terms, and otherwise spreads its
      lnc weights into the table and rewrites the idf of its terms. The
      scaled row is returned as `lnc`. */
  method LncDocument(math: Math, tdw: Weights, idf: map<string, real>, id: string, row: map<string, nat>, n: nat)
    returns (r: Result<Weights>, idf': map<string, real>, lnc: map<string, real>)
    requires Lawful(math) && forall t :: t in row ==> row[t] > 0
    ensures r.Failure? <==> row == map[]
    ensures r.Failure? ==> r.error == ZeroDivisionError
    ensures r.Ok? ==> lnc == Lnc(math, row) && r.value == Spread(tdw, id, lnc)
    ensures r.Ok? ==> idf' == idf + IdfFor(math, r.value, n, lnc.Keys)
  {
    NormableIff(math, row);
    var dtw, tdw1 := RawWeights(math, tdw, id, row);
    var s := SumSquares(dtw);
    var q := math.sqrt(s);
    if q == 0.0 {
      return Failure(ZeroDivisionError), idf, map[];
    }
    var f := 1.0 / q;
    var w;
    w, idf', lnc := Normalise(math, tdw1, id, dtw, f, idf, n);
    NormaliseEnd(math, tdw, id, row, dtw, tdw1, f, idf, n, w, idf', lnc);
    r := Ok(w);
  }

  /** What the three steps of one document amount to. */
  lemma NormaliseEnd(math: Math, tdw: Weights, id: string, row: map<string, nat>, dtw: map<string, real>,
                     tdw1: Weights, f: real, idf: map<string, real>, n: nat,
                     w: Weights, idf': map<string, real>, lnc: map<string, real>)
    requires dtw == Raw(math, row) && tdw1 == Spread(tdw, id, dtw)
    requires ScaledPart(dtw, f, {}, lnc)
    requires RescaledPart(tdw1, id, lnc, w)
    requires IdfPart(math, tdw1, idf, n, lnc, idf')
    ensures lnc == Scaled(dtw, f) && w == Spread(tdw, id, lnc)
    ensures idf' == idf + IdfFor(math, w, n, lnc.Keys)
  {
    ScaledEnd(dtw, f, lnc);
    RescaledEnd(tdw, id, dtw, lnc, w);
    IdfEnd(math, tdw1, idf, n, lnc, idf');
    RescaledDf(tdw1, id, lnc, w);
    IdfForSame(math, tdw1, w, n, lnc.Keys, lnc.Keys);
  }

  /** None of the first `i` documents is without terms. */
  ghost predicate NoneEmpty(ti: Counts, i: nat) {
    forall j :: 0 <= j < i && j < |ti| ==> ti[j].1 != map[]
  }

  lemma NoneEmptyStep(ti: Counts, i: nat)
    requires i < |ti| && NoneEmpty(ti, i) && ti[i].1 != map[]
    ensures NoneEmpty(ti, i + 1)
  {
  }

  lemma NoneEmptyAll(ti: Counts)
    requires NoneEmpty(ti, |ti|)
    ensures !exists i :: 0 <= i < |ti| && ti[i].1 == map[]
  {
  }

  /** One pass of the document loop, on the `i`-th document. */
  method LncNext(math: Math, ti: Counts, i: nat, n: nat, tdw: Weights, idf: map<string, real>)
    returns (r: Result<Weights>, idf': map<string, real>, lnc: map<string, real>)
    requires Lawful(math) && Positive(ti) && i < |ti|
    requires LncDone(math, ti[..i], n, tdw, idf)
    ensures r.Failure? <==> ti[i].1 == map[]
    ensures r.Ok? ==> lnc == Lnc(math, ti[i].1) && LncDone(math, ti[..i + 1], n, r.value, idf')
  {
    r, idf', lnc := LncDocument(math, tdw, idf, ti[i].0, ti[i].1, n);
    if r.Ok? {
      LncRowsSnoc(math, ti, i);
      BuiltStep(math, LncRows(math, ti[..i]), (ti[i].0, lnc), n, tdw, idf, r.value, idf');
    }
  }

  /** `lnc_calculation` of assignment/indexer.py: the normalised lnc weight
      of every (term, document) pair of the index and the idf of every term,
      with `N` the number of documents in `document_length_index`. A
      document without terms has a zero norm and raises ZeroDivisionError. */
  method LncCalculation(math: Math, termIndex: Counts, lengths: map<string, nat>)
    returns (r: Result<(Weights, map<string, real>)>)
    requires Lawful(math) && Positive(termIndex)
    ensures r.Failure? <==> exists i :: 0 <= i < |termIndex| && termIndex[i].1 == map[]
    ensures r.Failure? ==> r.error == ZeroDivisionError
    ensures r.Ok? ==> LncDone(math, termIndex, |lengths|, r.value.0, r.value.1)
  {
    var tdw: Weights, idf: map<string, real> := map[], map[];
    for i := 0 to |termIndex|
      invariant LncDone(math, termIndex[..i], |lengths|, tdw, idf)
      invariant NoneEmpty(termIndex, i)
    {
      var tdw', idf', _ := LncNext(math, termIndex, i, |lengths|, tdw, idf);
      if tdw'.Failure? {
        return Failure(ZeroDivisionError);
      }
      NoneEmptyStep(termIndex, i);
      tdw, idf := tdw'.value, idf';
    }
    NoneEmptyAll(termIndex);
    assert termIndex[..|termIndex|] == termIndex;
    return Ok((tdw, idf));
  }

  /** `lnc_calculation` of assignment/assignment.py: the same table and idf
      list, plus the normalised weights by document. A document without
      terms never gets a row in `document_term_weights`, so looking it up
      raises KeyError. */
  method LncCalculationBoth(math: Math, termIndex: Counts, lengths: map<string, nat>)
    returns (r: Result<(Dict<map<string, real>>, Weights, map<string, real>)>)
    requires Lawful(math) && Positive(termIndex)
    ensures r.Failure? <==> exists i :: 0 <= i < |termIndex| && termIndex[i].1 == map[]
    ensures r.Failure? ==> r.error == KeyError
    ensures r.Ok? ==> r.value.0 == LncRows(math, termIndex)
    ensures r.Ok? ==> LncDone(math, termIndex, |lengths|, r.value.1, r.value.2)
  {
    var dtw: Dict<map<string, real>>, tdw: Weights, idf: map<string, real> := [], map[], map[];
    for i := 0 to |termIndex|
      invariant dtw == LncRows(math, termIndex[..i])
      invariant LncDone(math, termIndex[..i], |lengths|, tdw, idf)
      invariant NoneEmpty(termIndex, i)
    {
      var tdw', idf', lnc := LncNext(math, termIndex, i, |lengths|, tdw, idf);
      if tdw'.Failure? {
        return Failure(KeyError);
      }
      NoneEmptyStep(termIndex, i);
      LncRowsSnoc(math, termIndex, i);
      dtw, tdw, idf := dtw + [(termIndex[i].0, lnc)], tdw'.value, idf';
    }
    NoneEmptyAll(termIndex);
    assert termIndex[..|termIndex|] == termIndex;
    return Ok((dtw, tdw, idf));
  }

  /** Document `d`'s weights, read off the term-by-document table. */
  function DocColumn(w: Weights, d: string): map<string, real> {
    map t | t in w && d in w[t] :: w[t][d]
  }

  /** A completed `lnc_calculation` holds, for each document, exactly its
      lnc weights. */
  lemma LncColumn(math: Math, ti: Counts, n: nat, tdw: Weights, idf: map<string, real>, d: string)
    requires UniqueKeys(ti) && LncDone(math, ti, n, tdw, idf) && d in ToMap(ti)
    ensures DocColumn(tdw, d) == Lnc(math, ToMap(ti)[d])
  {
    var col, lnc := DocColumn(tdw, d), Lnc(math, ToMap(ti)[d]);
    forall t ensures (t in col <==> t in lnc) && (t in col ==> col[t] == lnc[t]) {
      LncDoneAt(math, ti, n, tdw, idf, t, d);
    }
    SameMaps(col, lnc);
  }

  lemma SameMaps(a: map<string, real>, b: map<string, real>)
    requires forall t :: (t in a <==> t in b) && (t in a ==> a[t] == b[t])
    ensures a == b
  {
  }

  /** Every document's column of a completed `lnc_calculation` has unit
      length: the squares of its weights sum to one. */
  lemma LncColumnUnit(math: Math, ti: Counts, n: nat, tdw: Weights, idf: map<string, real>, d: string)
    requires Lawful(math) && UniqueKeys(ti) && Positive(ti) && LncDone(math, ti, n, tdw, idf)
    requires d in ToMap(ti) && ToMap(ti)[d] != map[]
    ensures Sum(Squares(DocColumn(tdw, d))) == 1.0
  {
    var row := ToMap(ti)[d];
    var i :| 0 <= i < |ti| && ti[i].0 == d;
    ToMapAt(ti, i);
    LncUnit(math, row);
    LncColumn(math, ti, n, tdw, idf, d);
  }
}
