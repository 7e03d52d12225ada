/** `bm25_weighting` of assignment/bmc_ranking.py (lines 17-39): BM25
    scoring of a list of queries over the stored postings. The weights of a
    token are computed the first time any query uses it and are kept across
    queries; a token already weighted, whether repeated in the same query or
    reused by a later one, adds nothing to any score. */
module BmcRanking {
  import opened Dicts
  import opened Errors
  import opened RealMath
  import opened Ranking
  import Bm25

  /** `weights`: token → document → BM25 weight. */
  type Weights = map<string, map<string, real>>

  /** The fixed inputs: `N`, the BM25 parameters (`k`, `b`, `avdl`,
      `idf_list`, `document_length_index`) and `bmc_data`, whose postings
      give each token's documents with their counts, in stored order. */
  datatype Env = Env(math: Math, n: nat, p: Bm25.Params, postings: map<string, Dict<nat>>)

  /** Lines 29-32: the weight of token `t` with count `tf` in document `d`.
      The idf factor is `log10(N / idf_list[token])`: a missing token raises
      `KeyError` and a stored 0 raises `ZeroDivisionError`; the rest of the
      formula and its errors are BM25's. */
  function PairWeight(env: Env, d: string, t: string, tf: nat): Result<real> {
    if t !in env.p.idf then Failure(KeyError)
    else if env.p.idf[t] == 0.0 then Failure(ZeroDivisionError)
    else Bm25.Weight(env.p.(idf := map[t := env.math.log10(env.n as real / env.p.idf[t])]), d, t, tf)
  }

  /** The postings of `t` with their weights, in stored order, or the error
      of the first one that fails. */
  function Weighted(env: Env, t: string, ps: Dict<nat>): (r: Result<Dict<real>>)
    ensures r.Ok? ==> |r.value| == |ps| && forall j :: 0 <= j < |ps| ==> r.value[j].0 == ps[j].0
    decreases |ps|
  {
    if ps == [] then Ok([])
    else
      var last := ps[|ps| - 1];
      match Weighted(env, t, ps[..|ps| - 1])
      case Failure(e) => Failure(e)
      case Ok(ws) =>
        match PairWeight(env, last.0, t, last.1)
        case Failure(e) => Failure(e)
        case Ok(w) => Ok(ws + [(last.0, w)])
  }

  /** `scores.get(d, 0)`. */
  function Get(s: Dict<real>, d: string): real {
    if d in ToMap(s) then ToMap(s)[d] else 0.0
  }

  /** `scores[d] += w` for a document that may be new. */
  function AddOne(s: Dict<real>, d: string, w: real): (r: Dict<real>)
    requires UniqueKeys(s)
    ensures UniqueKeys(r)
  {
    Put(s, d, Get(s, d) + w)
  }

  /** Lines 33-35 over weighted postings: each adds its weight to its
      document's score, a new document entering last with 0 first. */
  function AddRow(s: Dict<real>, ws: Dict<real>): (r: Dict<real>)
    requires UniqueKeys(s)
    ensures UniqueKeys(r)
    decreases |ws|
  {
    if ws == [] then s
    else
      var last := ws[|ws| - 1];
      AddOne(AddRow(s, ws[..|ws| - 1]), last.0, last.1)
  }

  /** Lines 26-35 for a token seen for the first time: its weights and the
      scores it leaves behind. */
  function NewToken(env: Env, t: string, s: Dict<real>): Result<(map<string, real>, Dict<real>)>
    requires UniqueKeys(s)
  {
    if t !in env.postings then Failure(KeyError)
    else
      match Weighted(env, t, env.postings[t])
      case Failure(e) => Failure(e)
      case Ok(ws) => Ok((ToMap(ws), AddRow(s, ws)))
  }

  /** Lines 24-35: the weights and the scores after the tokens of `q`,
      starting from `w` and `s`. */
  function Run(env: Env, w: Weights, s: Dict<real>, q: seq<string>): (r: Result<(Weights, Dict<real>)>)
    requires UniqueKeys(s)
    ensures r.Ok? ==> UniqueKeys(r.value.1)
    decreases |q|
  {
    if q == [] then Ok((w, s))
    else
      match Run(env, w, s, q[..|q| - 1])
      case Failure(e) => Failure(e)
      case Ok(state) =>
        var t := q[|q| - 1];
        if t in state.0 then Ok(state)
        else
          match NewToken(env, t, state.1)
          case Failure(e) => Failure(e)
          case Ok(step) => Ok((state.0[t := step.0], step.1))
  }

  /** Lines 18-39: the weights after all the queries and each query's ranked
      scores, in query order. */
  function Answers(env: Env, queries: seq<seq<string>>): (r: Result<(Weights, seq<Dict<real>>)>)
    ensures r.Ok? ==> |r.value.1| == |queries|
    decreases |queries|
  {
    if queries == [] then Ok((map[], []))
    else
      match Answers(env, queries[..|queries| - 1])
      case Failure(e) => Failure(e)
      case Ok(done) =>
        match Run(env, done.0, [], queries[|queries| - 1])
        case Failure(e) => Failure(e)
        case Ok(state) => Ok((state.0, done.1 + [Ranked(state.1)]))
  }

  // ---------------------------------------------------------------------
  // Properties

  /** With `k` and `b` in range and a positive `avdl`, a pair fails only on a
      lookup or on a stored idf of 0. */
  lemma PairWeightFails(env: Env, d: string, t: string, tf: nat)
    requires Bm25.InRange(env.p) && tf > 0
    ensures PairWeight(env, d, t, tf).Failure? <==> t !in env.p.idf || env.p.idf[t] == 0.0 || d !in env.p.lengths
    ensures PairWeight(env, d, t, tf).Failure? ==>
              (PairWeight(env, d, t, tf).error == ZeroDivisionError <==> t in env.p.idf && env.p.idf[t] == 0.0)
  {
    if t in env.p.idf && env.p.idf[t] != 0.0 {
      Bm25.WeightInRange(env.p.(idf := map[t := env.math.log10(env.n as real / env.p.idf[t])]), d, t, tf);
    }
  }

  /** The weights of a token's postings: it fails exactly when one of them
      fails, with the error of the first; otherwise every document gets its
      pair's weight. */
  lemma {:induction false} WeightedSpec(env: Env, t: string, ps: Dict<nat>)
    ensures Weighted(env, t, ps).Failure? <==> exists j :: 0 <= j < |ps| && PairWeight(env, ps[j].0, t, ps[j].1).Failure?
    ensures Weighted(env, t, ps).Failure? ==>
              exists j :: 0 <= j < |ps| && PairWeight(env, ps[j].0, t, ps[j].1) == Failure(Weighted(env, t, ps).error)
                          && forall i :: 0 <= i < j ==> PairWeight(env, ps[i].0, t, ps[i].1).Ok?
    ensures Weighted(env, t, ps).Ok? ==>
              forall j :: 0 <= j < |ps| ==> Weighted(env, t, ps).value[j].1 == PairWeight(env, ps[j].0, t, ps[j].1).value
    decreases |ps|
  {
    if ps != [] {
      var p, last := ps[..|ps| - 1], ps[|ps| - 1];
      WeightedSpec(env, t, p);
      assert forall j :: 0 <= j < |p| ==> p[j] == ps[j];
      var r := Weighted(env, t, ps);
      if Weighted(env, t, p).Failure? {
        var j :| 0 <= j < |p| && PairWeight(env, p[j].0, t, p[j].1) == Failure(Weighted(env, t, p).error)
                 && forall i :: 0 <= i < j ==> PairWeight(env, p[i].0, t, p[i].1).Ok?;
        assert PairWeight(env, ps[j].0, t, ps[j].1) == Failure(r.error);
      } else if PairWeight(env, last.0, t, last.1).Failure? {
        assert PairWeight(env, ps[|ps| - 1].0, t, ps[|ps| - 1].1) == Failure(r.error);
      }
    }
  }

  /** Adding weighted postings with distinct documents to the scores adds
      each document's weight to its score; the other scores stay. */
  lemma {:induction false} AddRowAt(s: Dict<real>, ws: Dict<real>, d: string)
    requires UniqueKeys(s) && UniqueKeys(ws)
    ensures d in ToMap(AddRow(s, ws)) <==> d in ToMap(s) || d in ToMap(ws)
    ensures Get(AddRow(s, ws), d) == Get(s, d) + Get(ws, d)
    decreases |ws|
  {
    if ws != [] {
      var p, last := ws[..|ws| - 1], ws[|ws| - 1];
      assert forall i :: 0 <= i < |p| ==> p[i] == ws[i];
      AddRowAt(s, p, d);
      AddRowAt(s, p, last.0);
      if last.0 == d {
        assert d !in ToMap(p);
      }
    }
  }

  /** The tokens of the queries. */
  function Tokens(queries: seq<seq<string>>): set<string>
    decreases |queries|
  {
    if queries == [] then {}
    else
      var last := queries[|queries| - 1];
      Tokens(queries[..|queries| - 1]) + set t | t in last
  }

  /** Weights are only added: after the tokens of `q` there is a row for
      every token seen before and every token of `q`, and rows already there
      are unchanged. */
  lemma {:induction false} RunKeys(env: Env, w: Weights, s: Dict<real>, q: seq<string>)
    requires UniqueKeys(s) && Run(env, w, s, q).Ok?
    ensures forall t :: t in Run(env, w, s, q).value.0 <==> t in w || t in q
    ensures forall t :: t in w ==> Run(env, w, s, q).value.0[t] == w[t]
    decreases |q|
  {
    if q != [] {
      var p := q[..|q| - 1];
      RunKeys(env, w, s, p);
      assert q == p + [q[|q| - 1]];
    }
  }

  /** What the tokens of `q` that were not weighted before add to the score
      of document `d`: one weight per such token whose postings hold `d`. */
  function Gain(w0: Weights, w: Weights, q: seq<string>, d: string): map<string, real> {
    map t | t in q && t !in w0 && t in w && d in w[t] :: w[t][d]
  }

  /** A document's score after the tokens of `q` is its score before plus the
      weights of the newly seen tokens whose postings hold it; it has a score
      exactly when it had one or such a token exists. */
  lemma {:induction false} RunScore(env: Env, w0: Weights, s: Dict<real>, q: seq<string>, d: string)
    requires UniqueKeys(s) && Run(env, w0, s, q).Ok?
    requires forall t :: t in env.postings ==> UniqueKeys(env.postings[t])
    ensures var after := Run(env, w0, s, q).value;
            && (d in ToMap(after.1) <==> d in ToMap(s) || exists t :: t in Gain(w0, after.0, q, d))
            && Get(after.1, d) == Get(s, d) + Sum(Gain(w0, after.0, q, d))
    decreases |q|
  {
    var after := Run(env, w0, s, q).value;
    if q == [] {
      assert Gain(w0, after.0, q, d) == map[];
    } else {
      var p, t := q[..|q| - 1], q[|q| - 1];
      assert q == p + [t];
      var before := Run(env, w0, s, p).value;
      RunScore(env, w0, s, p, d);
      RunKeys(env, w0, s, p);
      if t in before.0 {
        GainSeen(w0, before.0, p, d, t);
      } else {
        var ws := Weighted(env, t, env.postings[t]).value;
        WeightsUnique(env, t, env.postings[t]);
        AddRowAt(before.1, ws, d);
        GainNew(w0, before.0, p, d, t, ToMap(ws));
        if d in ToMap(ws) {
          SumPutNew(Gain(w0, before.0, p, d), t, ToMap(ws)[d]);
        }
      }
    }
  }

  lemma WeightsUnique(env: Env, t: string, ps: Dict<nat>)
    requires UniqueKeys(ps) && Weighted(env, t, ps).Ok?
    ensures UniqueKeys(Weighted(env, t, ps).value)
  {
  }

  /** A token already weighted adds nothing. */
  lemma GainSeen(w0: Weights, w: Weights, p: seq<string>, d: string, t: string)
    requires t in w && forall u :: u in w ==> u in w0 || u in p
    ensures Gain(w0, w, p + [t], d) == Gain(w0, w, p, d)
  {
    var l, r := Gain(w0, w, p + [t], d), Gain(w0, w, p, d);
    forall u
      ensures u in l <==> u in r
    {
      assert u in p + [t] <==> u in p || u == t;
    }
  }

  /** A new token adds its weight for `d`, if it has one. */
  lemma GainNew(w0: Weights, w: Weights, p: seq<string>, d: string, t: string, row: map<string, real>)
    requires t !in w && forall u :: u in w <==> u in w0 || u in p
    ensures t !in Gain(w0, w, p, d)
    ensures d in row ==> Gain(w0, w[t := row], p + [t], d) == Gain(w0, w, p, d)[t := row[d]]
    ensures d !in row ==> Gain(w0, w[t := row], p + [t], d) == Gain(w0, w, p, d)
  {
    var l, r := Gain(w0, w[t := row], p + [t], d), Gain(w0, w, p, d);
    forall u
      ensures u in l <==> u in r || (u == t && d in row)
    {
      assert u in p + [t] <==> u in p || u == t;
    }
  }

  /** Every weighted token: the weights after the queries hold a row for
      exactly the tokens the queries use. */
  lemma {:induction false} AnswersKeys(env: Env, queries: seq<seq<string>>)
    requires Answers(env, queries).Ok?
    ensures forall t :: t in Answers(env, queries).value.0 <==> t in Tokens(queries)
    decreases |queries|
  {
    if queries != [] {
      var p := queries[..|queries| - 1];
      AnswersKeys(env, p);
      var s: Dict<real> := [];
      RunKeys(env, Answers(env, p).value.0, s, queries[|queries| - 1]);
    }
  }

  lemma LastAnswer(env: Env, queries: seq<seq<string>>)
    requires queries != [] && Answers(env, queries).Ok?
    ensures Answers(env, queries[..|queries| - 1]).Ok?
    ensures var s: Dict<real> := []; Run(env, Answers(env, queries[..|queries| - 1]).value.0, s, queries[|queries| - 1]).Ok?
    ensures var s: Dict<real> := []; var state := Run(env, Answers(env, queries[..|queries| - 1]).value.0, s, queries[|queries| - 1]).value;
            && Answers(env, queries).value.0 == state.0
            && Answers(env, queries).value.1[|queries| - 1] == Ranked(state.1)
  {
  }

  /** The scores of the last query: highest first, and a document appears
      exactly when a token the earlier queries had not used holds it, with
      the sum of those tokens' weights for it. */
  lemma QueryScore(env: Env, queries: seq<seq<string>>, d: string)
    requires queries != [] && Answers(env, queries).Ok?
    requires forall t :: t in env.postings ==> UniqueKeys(env.postings[t])
    ensures var q, w0, w, ranked := queries[|queries| - 1], Answers(env, queries[..|queries| - 1]).value.0,
                                    Answers(env, queries).value.0, Answers(env, queries).value.1[|queries| - 1];
            && Descending(ranked)
            && (d in ToMap(ranked) <==> exists t :: t in Gain(w0, w, q, d))
            && Get(ranked, d) == Sum(Gain(w0, w, q, d))
  {
    var q, done := queries[|queries| - 1], Answers(env, queries[..|queries| - 1]).value;
    var s: Dict<real> := [];
    LastAnswer(env, queries);
    var state := Run(env, done.0, s, q).value;
    RunScore(env, done.0, s, q, d);
    RankedSpec(state.1);
  }

  // ---------------------------------------------------------------------
  // The calculation

  /** A new document enters with 0 and then receives its weight. */
  lemma PutTwice(s: Dict<real>, d: string, w: real)
    requires UniqueKeys(s) && d !in ToMap(s)
    ensures Put(Put(s, d, 0.0), d, 0.0 + w) == AddOne(s, d, w)
  {
    assert IndexOf(s, d) == -1;
    var s1 := s + [(d, 0.0)];
    assert Put(s, d, 0.0) == s1;
    assert IndexOf(s1, d) == |s|;
    assert Put(s1, d, 0.0 + w) == s1[|s| := (d, 0.0 + w)];
    assert s1[|s| := (d, 0.0 + w)] == s + [(d, 0.0 + w)];
    assert AddOne(s, d, w) == s + [(d, 0.0 + w)];
  }

  /** Lines 33-35: a new document enters with 0, then the weight is added. */
  method AddScore(scores: Dict<real>, d: string, w: real) returns (scores': Dict<real>)
    requires UniqueKeys(scores)
    ensures scores' == AddOne(scores, d, w)
  {
    if d !in ToMap(scores) {
      var entered := Put(scores, d, 0.0);
      var v := ToMap(entered)[d] + w;
      PutTwice(scores, d, w);
      scores' := Put(entered, d, v);
    } else {
      scores' := Put(scores, d, ToMap(scores)[d] + w);
    }
  }

  lemma WeighStep(env: Env, t: string, ps: Dict<nat>, j: nat, ws: Dict<real>, w: real)
    requires j < |ps|
    requires Weighted(env, t, ps[..j]) == Ok(ws)
    requires PairWeight(env, ps[j].0, t, ps[j].1) == Ok(w)
    ensures Weighted(env, t, ps[..j + 1]) == Ok(ws + [(ps[j].0, w)])
  {
    assert ps[..j + 1][..j] == ps[..j];
  }

  lemma AddRowSnoc(s: Dict<real>, ws: Dict<real>, d: string, w: real)
    requires UniqueKeys(s)
    ensures AddRow(s, ws + [(d, w)]) == AddOne(AddRow(s, ws), d, w)
  {
    assert (ws + [(d, w)])[..|ws|] == ws;
  }

  lemma WeighFails(env: Env, t: string, ps: Dict<nat>, j: nat, ws: Dict<real>)
    requires j < |ps| && Weighted(env, t, ps[..j]) == Ok(ws)
    requires PairWeight(env, ps[j].0, t, ps[j].1).Failure?
    ensures Weighted(env, t, ps) == Failure(PairWeight(env, ps[j].0, t, ps[j].1).error)
  {
    assert ps[..j + 1][..j] == ps[..j];
    WeightedPrefix(env, t, ps, j + 1);
  }

  /** Lines 26-35 for a token not weighted yet. */
  method WeighToken(env: Env, t: string, s: Dict<real>) returns (r: Result<(map<string, real>, Dict<real>)>)
    requires UniqueKeys(s)
    ensures r == NewToken(env, t, s)
  {
    if t !in env.postings {
      return Failure(KeyError);
    }
    var ps := env.postings[t];
    var row: map<string, real> := map[];
    var scores := s;
    ghost var ws: Dict<real> := [];
    for j := 0 to |ps|
      invariant Weighted(env, t, ps[..j]) == Ok(ws)
      invariant row == ToMap(ws) && scores == AddRow(s, ws)
    {
      var d := ps[j].0;
      var w := PairWeight(env, d, t, ps[j].1);
      if w.Failure? {
        WeighFails(env, t, ps, j, ws);
        return Failure(w.error);
      }
      WeighStep(env, t, ps, j, ws, w.value);
      AddRowSnoc(s, ws, d, w.value);
      ToMapAppend(ws, d, w.value);
      row := row[d := w.value];
      scores := AddScore(scores, d, w.value);
      ws := ws + [(d, w.value)];
    }
    assert ps[..|ps|] == ps;
    r := Ok((row, scores));
  }

  /** Once a prefix of the postings fails, they all fail with its error. */
  lemma {:induction false} WeightedPrefix(env: Env, t: string, ps: Dict<nat>, j: nat)
    requires j <= |ps| && Weighted(env, t, ps[..j]).Failure?
    ensures Weighted(env, t, ps) == Weighted(env, t, ps[..j])
    decreases |ps| - j
  {
    if j < |ps| {
      assert ps[..j + 1][..j] == ps[..j];
      WeightedPrefix(env, t, ps, j + 1);
    } else {
      assert ps[..j] == ps;
    }
  }

  /** Lines 24-35 for one query. */
  method RunQuery(env: Env, w: Weights, q: seq<string>) returns (r: Result<(Weights, Dict<real>)>)
    ensures r == Run(env, w, [], q)
  {
    var weights := w;
    var scores: Dict<real> := [];
    for j := 0 to |q|
      invariant Run(env, w, [], q[..j]) == Ok((weights, scores))
    {
      var token := q[j];
      assert q[..j + 1][..j] == q[..j];
      if token !in weights {
        var step := WeighToken(env, token, scores);
        if step.Failure? {
          RunPrefix(env, w, q, j + 1);
          return Failure(step.error);
        }
        weights := weights[token := step.value.0];
        scores := step.value.1;
      }
    }
    assert q[..|q|] == q;
    r := Ok((weights, scores));
  }

  /** Once the tokens of a prefix fail, the whole query fails with its error. */
  lemma {:induction false} RunPrefix(env: Env, w: Weights, q: seq<string>, j: nat)
    requires j <= |q| && Run(env, w, [], q[..j]).Failure?
    ensures Run(env, w, [], q) == Run(env, w, [], q[..j])
    decreases |q| - j
  {
    if j < |q| {
      assert q[..j + 1][..j] == q[..j];
      RunPrefix(env, w, q, j + 1);
    } else {
      assert q[..j] == q;
    }
  }

  /** Once the queries of a prefix fail, the calculation fails with its error. */
  lemma {:induction false} AnswersPrefix(env: Env, queries: seq<seq<string>>, j: nat)
    requires j <= |queries| && Answers(env, queries[..j]).Failure?
    ensures Answers(env, queries) == Answers(env, queries[..j])
    decreases |queries| - j
  {
    if j < |queries| {
      assert queries[..j + 1][..j] == queries[..j];
      AnswersPrefix(env, queries, j + 1);
    } else {
      assert queries[..j] == queries;
    }
  }

  /** Lines 17-39: the weights of every token the queries use and each
      query's ranked scores keyed from 1, or the first error raised. */
  method Bm25Weighting(math: Math, n: nat, k: real, b: real, avdl: real, bmcData: map<string, Dict<nat>>,
                       lengths: map<string, nat>, idf: map<string, real>, queries: seq<seq<string>>)
    returns (r: Result<(Weights, map<int, Dict<real>>)>)
    ensures var env := Env(math, n, Bm25.Params(k, b, avdl, idf, lengths), bmcData);
            && (r.Failure? <==> Answers(env, queries).Failure?)
            && (r.Failure? ==> r.error == Answers(env, queries).error)
            && (r.Ok? ==> && r.value.0 == Answers(env, queries).value.0
                          && (forall i :: i in r.value.1 <==> 1 <= i <= |queries|)
                          && forall i :: 0 <= i < |queries| ==> r.value.1[i + 1] == Answers(env, queries).value.1[i])
  {
    var env := Env(math, n, Bm25.Params(k, b, avdl, idf, lengths), bmcData);
    var weights: Weights := map[];
    var scores: map<int, Dict<real>> := map[];
    ghost var ranked: seq<Dict<real>> := [];
    for idx := 0 to |queries|
      invariant Answers(env, queries[..idx]) == Ok((weights, ranked))
      invariant forall i :: i in scores <==> 1 <= i <= idx
      invariant forall i :: 0 <= i < idx ==> scores[i + 1] == ranked[i]
    {
      assert queries[..idx + 1][..idx] == queries[..idx];
      var state := RunQuery(env, weights, queries[idx]);
      if state.Failure? {
        AnswersPrefix(env, queries, idx + 1);
        return Failure(state.error);
      }
      weights := state.value.0;
      scores := scores[idx + 1 := Ranked(state.value.1)];
      ranked := ranked + [Ranked(state.value.1)];
    }
    assert queries[..|queries|] == queries;
    r := Ok((weights, scores));
  }
}
