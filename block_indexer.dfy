/** `Indexer` of assignment/Indexer.py: the SPIMI block builder. Documents
    arrive as their already tokenized, stop-word filtered and stemmed token
    lists; every `BLOCK_SIZE_LIMIT` documents with an abstract the positional
    term index (term → docID → positions) is sorted by term and written out
    as the next block, and the blocks are finally merged. The block files
    are returned in the order they are written. */
module BlockIndexer {
  import opened Dicts
  import opened Errors
  import opened Blocks
  import Lex
  import Sorting
  import Spimi
  import Tokenizer
  import RealMath
  import Bm25

  /** One CSV row: its `cord_uid`, whether its abstract is non-empty, and the
      tokens of its title and abstract. */
  datatype Doc = Doc(id: string, hasAbstract: bool, tokens: seq<string>)

  /** The indices at which `t` occurs in `toks`, scanning from the first. */
  ghost function Occurrences(toks: seq<string>, t: string): seq<int>
    decreases |toks|
  {
    if toks == [] then []
    else Occurrences(toks[..|toks| - 1], t) + (if toks[|toks| - 1] == t then [|toks| - 1] else [])
  }

  /** The occurrences of `t` are exactly the indices holding `t`, in
      increasing order, as many as `t`'s frequency in `toks`. */
  lemma {:induction false} OccurrencesSpec(toks: seq<string>, t: string)
    ensures var r := Occurrences(toks, t);
            && (forall a, b :: 0 <= a < b < |r| ==> r[a] < r[b])
            && (forall m :: 0 <= m < |r| ==> 0 <= r[m] < |toks| && toks[r[m]] == t)
            && (forall p :: 0 <= p < |toks| && toks[p] == t ==> p in r)
            && |r| == multiset(toks)[t]
    decreases |toks|
  {
    if toks != [] {
      var init, last := toks[..|toks| - 1], toks[|toks| - 1];
      assert toks == init + [last];
      OccurrencesSpec(init, t);
      var q := Occurrences(init, t);
      var r := Occurrences(toks, t);
      assert r == q + (if last == t then [|toks| - 1] else []);
      assert multiset(toks)[t] == multiset(init)[t] + (if last == t then 1 else 0);
      forall m | 0 <= m < |r| ensures 0 <= r[m] < |toks| && toks[r[m]] == t {
        if m < |q| {
          assert r[m] == q[m] && toks[q[m]] == init[q[m]];
        }
      }
      forall p | 0 <= p < |toks| && toks[p] == t ensures p in r {
        if p < |init| {
          assert init[p] == t && p in q;
        }
      }
    }
  }

  /** The positions of `t` in document `id` recorded in `m` (none if absent). */
  function PositionsOf(m: map<string, Postings>, t: string, id: string): seq<int> {
    if t in m && id in m[t] then m[t][id] else []
  }

  /** Recording one more position of `tok` in document `id` (lines 113-118). */
  ghost function AddPosition(m: map<string, Postings>, id: string, tok: string, pos: int): map<string, Postings> {
    var p := if tok in m then m[tok] else map[];
    m[tok := p[id := PositionsOf(m, tok, id) + [pos]]]
  }

  /** Recording every token of document `id` at its index. */
  ghost function AddDoc(m: map<string, Postings>, id: string, toks: seq<string>): map<string, Postings>
    decreases |toks|
  {
    if toks == [] then m
    else AddPosition(AddDoc(m, id, toks[..|toks| - 1]), id, toks[|toks| - 1], |toks| - 1)
  }

  /** Recording one position touches only the position list of `tok` in
      document `id`, to which it appends `pos`. */
  lemma AddPositionFacts(m: map<string, Postings>, id: string, tok: string, pos: int, t: string, d: string)
    ensures t in AddPosition(m, id, tok, pos) <==> t in m || t == tok
    ensures PositionsOf(AddPosition(m, id, tok, pos), t, id) == PositionsOf(m, t, id) + (if t == tok then [pos] else [])
    ensures d != id ==> PositionsOf(AddPosition(m, id, tok, pos), t, d) == PositionsOf(m, t, d)
    ensures t in AddPosition(m, id, tok, pos) ==>
              (d in AddPosition(m, id, tok, pos)[t] <==> (t in m && d in m[t]) || (d == id && t == tok))
  {
  }

  /** The terms of an index after adding a document: the old ones and the
      document's tokens. */
  lemma {:induction false} AddDocTerms(m: map<string, Postings>, id: string, toks: seq<string>, t: string)
    ensures t in AddDoc(m, id, toks) <==> t in m || t in toks
    decreases |toks|
  {
    if toks != [] {
      var init := toks[..|toks| - 1];
      var last := toks[|toks| - 1];
      assert toks == init + [last];
      AddDocTerms(m, id, init, t);
      AddPositionFacts(AddDoc(m, id, init), id, last, |toks| - 1, t, id);
    }
  }

  /** Indexing a document appends to its own position list of every term
      the indices where the term occurs. */
  lemma {:induction false} AddDocPositions(m: map<string, Postings>, id: string, toks: seq<string>, t: string)
    ensures PositionsOf(AddDoc(m, id, toks), t, id) == PositionsOf(m, t, id) + Occurrences(toks, t)
    decreases |toks|
  {
    if toks != [] {
      var init := toks[..|toks| - 1];
      var last := toks[|toks| - 1];
      AddDocPositions(m, id, init, t);
      AddPositionFacts(AddDoc(m, id, init), id, last, |toks| - 1, t, id);
    }
  }

  /** Indexing a document leaves the position lists of other documents
      alone, and adds the document to exactly the terms it holds. */
  lemma {:induction false} AddDocOthers(m: map<string, Postings>, id: string, toks: seq<string>, t: string, d: string)
    ensures d != id ==> PositionsOf(AddDoc(m, id, toks), t, d) == PositionsOf(m, t, d)
    ensures t in AddDoc(m, id, toks) ==>
              (d in AddDoc(m, id, toks)[t] <==> (t in m && d in m[t]) || (d == id && t in toks))
    decreases |toks|
  {
    if toks != [] {
      var init := toks[..|toks| - 1];
      var last := toks[|toks| - 1];
      assert toks == init + [last];
      AddDocOthers(m, id, init, t, d);
      AddDocTerms(m, id, init, t);
      AddPositionFacts(AddDoc(m, id, init), id, last, |toks| - 1, t, d);
    }
  }

  /** The positional index of a run of documents, in order. */
  ghost function IndexDocs(docs: seq<Doc>): map<string, Postings>
    decreases |docs|
  {
    if docs == [] then map[]
    else AddDoc(IndexDocs(docs[..|docs| - 1]), docs[|docs| - 1].id, docs[|docs| - 1].tokens)
  }

  /** For a document whose id no other document of the run shares, the index
      holds exactly the indices of each term in its token list: strictly
      increasing, as many as the term frequency. */
  lemma {:induction false} IndexDocsPositions(docs: seq<Doc>, k: int, t: string)
    requires 0 <= k < |docs|
    requires forall j :: 0 <= j < |docs| && j != k ==> docs[j].id != docs[k].id
    ensures PositionsOf(IndexDocs(docs), t, docs[k].id) == Occurrences(docs[k].tokens, t)
    decreases |docs|
  {
    var last := docs[|docs| - 1];
    var init := docs[..|docs| - 1];
    AddDocPositions(IndexDocs(init), last.id, last.tokens, t);
    AddDocOthers(IndexDocs(init), last.id, last.tokens, t, docs[k].id);
    if k < |docs| - 1 {
      IndexDocsPositions(init, k, t);
    } else {
      IndexDocsNone(init, t, last.id);
    }
  }

  /** A document id that does not occur in a run has no positions there. */
  lemma {:induction false} IndexDocsNone(docs: seq<Doc>, t: string, id: string)
    requires forall j :: 0 <= j < |docs| ==> docs[j].id != id
    ensures PositionsOf(IndexDocs(docs), t, id) == []
    decreases |docs|
  {
    if docs != [] {
      var last := docs[|docs| - 1];
      IndexDocsNone(docs[..|docs| - 1], t, id);
      AddDocOthers(IndexDocs(docs[..|docs| - 1]), last.id, last.tokens, t, id);
    }
  }

  /** The terms of a run's index are the tokens of its documents. */
  lemma {:induction false} IndexDocsTerms(docs: seq<Doc>, t: string)
    ensures t in IndexDocs(docs) <==> exists j :: 0 <= j < |docs| && t in docs[j].tokens
    decreases |docs|
  {
    if docs != [] {
      var last := docs[|docs| - 1];
      var init := docs[..|docs| - 1];
      IndexDocsTerms(init, t);
      AddDocTerms(IndexDocs(init), last.id, last.tokens, t);
      if t in IndexDocs(docs) && t !in last.tokens {
        var j :| 0 <= j < |init| && t in init[j].tokens;
        assert docs[j] == init[j];
      }
      if t in IndexDocs(init) {
        var j :| 0 <= j < |init| && t in init[j].tokens;
        assert docs[j] == init[j];
      }
    }
  }

  /** The documents with a non-empty abstract (line 84), in order. */
  ghost function Kept(docs: seq<Doc>): (r: seq<Doc>)
    ensures forall j :: 0 <= j < |r| ==> r[j].hasAbstract && r[j] in docs
    decreases |docs|
  {
    if docs == [] then []
    else Kept(docs[..|docs| - 1]) + (if docs[|docs| - 1].hasAbstract then [docs[|docs| - 1]] else [])
  }

  /** The running values of the row loop after one more row. */
  lemma RowStep(m: map<string, nat>, docs: seq<Doc>, i: nat)
    requires i < |docs|
    ensures Kept(docs[..i + 1]) == Kept(docs[..i]) + (if docs[i].hasAbstract then [docs[i]] else [])
    ensures TokenCount(docs[..i + 1]) == TokenCount(docs[..i]) + (if docs[i].hasAbstract then |docs[i].tokens| else 0)
    ensures DocLengths(m, docs[..i + 1]) ==
              if docs[i].hasAbstract then AddLength(DocLengths(m, docs[..i]), docs[i].id, |docs[i].tokens|)
              else DocLengths(m, docs[..i])
  {
    assert docs[..i + 1][..i] == docs[..i];
  }

  /** Number of tokens of the documents with an abstract. */
  ghost function TokenCount(docs: seq<Doc>): nat
    decreases |docs|
  {
    if docs == [] then 0
    else TokenCount(docs[..|docs| - 1]) + (if docs[|docs| - 1].hasAbstract then |docs[|docs| - 1].tokens| else 0)
  }

  /** Adding a document's length to the lengths index: a document with no
      token gets no entry (lines 99-102). */
  function AddLength(m: map<string, nat>, id: string, n: nat): (r: map<string, nat>)
    ensures n == 0 ==> r == m
    ensures n > 0 ==> r.Keys == m.Keys + {id}
    ensures n > 0 ==> r[id] == (if id in m then m[id] else 0) + n
    ensures forall d :: d in m && d != id ==> r[d] == m[d]
  {
    if n == 0 then m else m[id := (if id in m then m[id] else 0) + n]
  }

  /** One more token of document `id`: its length entry is created at 0
      when missing, then incremented (lines 99-102). */
  lemma AddLengthSucc(m: map<string, nat>, id: string, j: nat)
    ensures var l := AddLength(m, id, j);
            var l' := if id !in l then l[id := 0] else l;
            AddLength(m, id, j + 1) == l'[id := l'[id] + 1]
  {
  }

  /** Indexing one more token of a document's token list. */
  lemma AddDocSnoc(m: map<string, Postings>, id: string, toks: seq<string>, j: nat)
    requires j < |toks|
    ensures AddDoc(m, id, toks[..j + 1]) == AddPosition(AddDoc(m, id, toks[..j]), id, toks[j], j)
  {
    assert toks[..j + 1][..j] == toks[..j];
  }

  /** `document_length_index` after the given rows. */
  ghost function DocLengths(m: map<string, nat>, docs: seq<Doc>): map<string, nat>
    decreases |docs|
  {
    if docs == [] then m
    else
      var d := docs[|docs| - 1];
      var p := DocLengths(m, docs[..|docs| - 1]);
      if d.hasAbstract then AddLength(p, d.id, |d.tokens|) else p
  }

  /** The lengths index sums to the number of tokens it was built from. */
  lemma {:induction false} DocLengthsSum(m: map<string, nat>, docs: seq<Doc>)
    ensures RealMath.Sum(RealMath.Reals(DocLengths(m, docs))) == RealMath.Sum(RealMath.Reals(m)) + TokenCount(docs) as real
    decreases |docs|
  {
    if docs != [] {
      var d := docs[|docs| - 1];
      var p := DocLengths(m, docs[..|docs| - 1]);
      DocLengthsSum(m, docs[..|docs| - 1]);
      if d.hasAbstract && |d.tokens| > 0 {
        var r := AddLength(p, d.id, |d.tokens|);
        assert RealMath.Reals(r) == RealMath.Reals(p)[d.id := r[d.id] as real];
        if d.id in p {
          RealMath.SumPutOld(RealMath.Reals(p), d.id, r[d.id] as real);
        } else {
          RealMath.SumPutNew(RealMath.Reals(p), d.id, r[d.id] as real);
        }
      }
    }
  }

  /** After indexing from an empty lengths index, the average length times
      the number of documents is the number of tokens indexed. */
  lemma AvdlTokens(docs: seq<Doc>, avdl: real)
    requires var m := DocLengths(map[], docs);
             RealMath.Times(avdl, |m| as real) == RealMath.Sum(RealMath.Reals(m))
    ensures RealMath.Times(avdl, |DocLengths(map[], docs)| as real) == TokenCount(docs) as real
  {
    DocLengthsSum(map[], docs);
    var empty: map<string, nat> := map[];
    assert RealMath.Reals(empty) == map[];
  }

  /** The document counter of line 120 steps from `x - 1` to `x % size`. */
  lemma NextDoc(x: nat, size: nat)
    requires 1 <= x <= size
    ensures x % size == if x == size then 0 else x
  {
  }

  /** Quotient and remainder are determined by `a == q * size + r`. */
  lemma DivModUnique(a: nat, size: nat, q: nat, r: nat)
    requires size >= 1 && a == q * size + r && r < size
    ensures a / size == q && a % size == r
  {
    var q', r' := a / size, a % size;
    if q' < q {
      MulMonotone(q' + 1, q, size);
    } else if q < q' {
      MulMonotone(q + 1, q', size);
    }
  }

  lemma {:induction false} MulMonotone(x: nat, y: nat, s: nat)
    requires x <= y
    ensures x * s <= y * s
    decreases y - x
  {
    if x < y {
      MulMonotone(x + 1, y, s);
    }
  }

  type Positive = n: nat | n >= 1 witness 1

  /** The complete runs of `size` kept documents, from the first on: each
      run fills one block. */
  ghost function Runs(kept: seq<Doc>, size: nat): (r: seq<seq<Doc>>)
    requires size >= 1
    ensures forall k :: 0 <= k < |r| ==> |r[k]| == size
    decreases |kept|
  {
    if |kept| < size then [] else [kept[..size]] + Runs(kept[size..], size)
  }

  /** The kept documents after the last complete run. */
  ghost function Rest(kept: seq<Doc>, size: nat): (r: seq<Doc>)
    requires size >= 1
    ensures |r| < size
    decreases |kept|
  {
    if |kept| < size then kept else Rest(kept[size..], size)
  }

  /** The runs followed by the rest are the kept documents, and there are
      `|kept| / size` runs. */
  lemma {:induction false} RunsPartition(kept: seq<Doc>, size: nat)
    requires size >= 1
    ensures Concat(Runs(kept, size)) + Rest(kept, size) == kept
    ensures |Runs(kept, size)| == |kept| / size && |Rest(kept, size)| == |kept| % size
    decreases |kept|
  {
    if |kept| < size {
      DivModUnique(|kept|, size, 0, |kept|);
    } else {
      var tail := kept[size..];
      RunsPartition(tail, size);
      assert |Runs(kept, size)| == |Runs(tail, size)| + 1;
      assert |kept| == (|tail| / size + 1) * size + |tail| % size;
      DivModUnique(|kept|, size, |tail| / size + 1, |tail| % size);
      assert Concat(Runs(kept, size)) == kept[..size] + Concat(Runs(tail, size));
    }
  }

  /** The documents of a sequence of runs, in order. */
  ghost function Concat(runs: seq<seq<Doc>>): seq<Doc>
    decreases |runs|
  {
    if runs == [] then [] else runs[0] + Concat(runs[1..])
  }

  /** One more kept document joins the rest, or completes a run. */
  lemma {:induction false} RunsSnoc(kept: seq<Doc>, size: nat, d: Doc)
    requires size >= 1
    ensures |Rest(kept, size)| + 1 < size ==>
              Runs(kept + [d], size) == Runs(kept, size) && Rest(kept + [d], size) == Rest(kept, size) + [d]
    ensures |Rest(kept, size)| + 1 == size ==>
              Runs(kept + [d], size) == Runs(kept, size) + [Rest(kept, size) + [d]] && Rest(kept + [d], size) == []
    decreases |kept|
  {
    var kept' := kept + [d];
    if |kept| < size {
      if |kept'| == size {
        assert kept'[..size] == kept';
        assert kept'[size..] == [];
      }
    } else {
      assert kept'[..size] == kept[..size];
      assert kept'[size..] == kept[size..] + [d];
      RunsSnoc(kept[size..], size, d);
    }
  }

  /** The blocks written so far and the term index being filled, after the
      kept documents `kept`: block `k` indexes the `k`-th run, in key order,
      and the term index the rest. */
  ghost predicate Blocked(kept: seq<Doc>, size: nat, blocks: seq<Block>, e: Block, docNumber: nat)
    requires size >= 1
  {
    && docNumber == |Rest(kept, size)|
    && |blocks| == |Runs(kept, size)|
    && (forall k :: 0 <= k < |blocks| ==> SortedKeys(blocks[k]) && ToMap(blocks[k]) == IndexDocs(Runs(kept, size)[k]))
    && UniqueKeys(e) && ToMap(e) == IndexDocs(Rest(kept, size))
  }

  /** A kept document that does not complete a run goes into the index. */
  lemma KeepDoc(kept: seq<Doc>, size: nat, blocks: seq<Block>, e: Block, e': Block, docNumber: nat, d: Doc)
    requires size >= 1 && Blocked(kept, size, blocks, e, docNumber) && docNumber + 1 < size
    requires UniqueKeys(e') && ToMap(e') == AddDoc(ToMap(e), d.id, d.tokens)
    ensures Blocked(kept + [d], size, blocks, e', docNumber + 1)
  {
    RunsSnoc(kept, size, d);
    var rest := Rest(kept, size);
    assert (rest + [d])[..|rest|] == rest;
  }

  /** A kept document that completes a run: the index, sorted by key, is
      written as the next block. */
  lemma CompleteBlock(kept: seq<Doc>, size: nat, blocks: seq<Block>, e: Block, e': Block, docNumber: nat, d: Doc,
                      b: Block)
    requires size >= 1 && Blocked(kept, size, blocks, e, docNumber) && docNumber + 1 == size
    requires UniqueKeys(e') && ToMap(e') == AddDoc(ToMap(e), d.id, d.tokens)
    requires SortedKeys(b) && multiset(b) == multiset(e')
    ensures Blocked(kept + [d], size, blocks + [b], [], 0)
  {
    RunsSnoc(kept, size, d);
    var rest := Rest(kept, size);
    assert (rest + [d])[..|rest|] == rest;
    Sorting.SortedUnique(b);
    Sorting.SameEntriesSameMap(e', b);
    var runs' := Runs(kept + [d], size);
    assert ToMap(b) == IndexDocs(rest + [d]);
    forall k | 0 <= k < |blocks| + 1
      ensures SortedKeys((blocks + [b])[k]) && ToMap((blocks + [b])[k]) == IndexDocs(runs'[k])
    {
      if k < |blocks| {
        assert (blocks + [b])[k] == blocks[k] && runs'[k] == Runs(kept, size)[k];
      }
    }
  }

  /** The blocks written from the kept rows: one per complete run, and one
      more for the rest when its index is not empty; each sorted by key and
      holding that run's index. */
  ghost predicate Written(kept: seq<Doc>, size: nat, blocks: seq<Block>)
    requires size >= 1
  {
    var runs, rest := Runs(kept, size), Rest(kept, size);
    && |blocks| == |runs| + (if IndexDocs(rest) != map[] then 1 else 0)
    && (forall k :: 0 <= k < |runs| ==> SortedKeys(blocks[k]) && ToMap(blocks[k]) == IndexDocs(runs[k]))
    && (IndexDocs(rest) != map[] ==>
          SortedKeys(blocks[|blocks| - 1]) && ToMap(blocks[|blocks| - 1]) == IndexDocs(rest))
  }

  /** After the last row: the leftover index, if any, is the last block. */
  lemma Finish(kept: seq<Doc>, size: nat, blocks0: seq<Block>, e: Block, docNumber: nat, blocks: seq<Block>)
    requires size >= 1 && Blocked(kept, size, blocks0, e, docNumber)
    requires |e| == 0 ==> blocks == blocks0
    requires |e| > 0 ==> |blocks| == |blocks0| + 1 && blocks[..|blocks0|] == blocks0 &&
                         SortedKeys(blocks[|blocks0|]) && multiset(blocks[|blocks0|]) == multiset(e)
    ensures Written(kept, size, blocks)
  {
    var n := |blocks0|;
    if |e| > 0 {
      assert e[0].0 in ToMap(e);
      forall k | 0 <= k < n ensures blocks[k] == blocks0[k] {
        assert blocks[..n][k] == blocks[k];
      }
      Sorting.SortedUnique(blocks[n]);
      Sorting.SameEntriesSameMap(e, blocks[n]);
    }
  }

  /** Every document of a run or of the rest is a kept document. */
  lemma {:induction false} RunsMembers(kept: seq<Doc>, size: nat)
    requires size >= 1
    ensures forall k, j :: 0 <= k < |Runs(kept, size)| && 0 <= j < |Runs(kept, size)[k]| ==> Runs(kept, size)[k][j] in kept
    ensures forall j :: 0 <= j < |Rest(kept, size)| ==> Rest(kept, size)[j] in kept
    decreases |kept|
  {
    if |kept| >= size {
      RunsMembers(kept[size..], size);
      forall k, j | 0 <= k < |Runs(kept, size)| && 0 <= j < |Runs(kept, size)[k]|
        ensures Runs(kept, size)[k][j] in kept
      {
        if k > 0 {
          assert Runs(kept, size)[k] == Runs(kept[size..], size)[k - 1];
          assert Runs(kept, size)[k][j] in kept[size..];
        } else {
          assert Runs(kept, size)[k][j] == kept[j];
        }
      }
      forall j | 0 <= j < |Rest(kept, size)| ensures Rest(kept, size)[j] in kept {
        assert Rest(kept, size)[j] in kept[size..];
      }
    }
  }

  /** Terms made of lower-case letters are below the merge's sentinel. */
  lemma TokensBelowSentinel(docs: seq<Doc>, blocks: seq<Block>, groups: seq<seq<Doc>>)
    requires forall j, t :: 0 <= j < |docs| && t in docs[j].tokens ==> Tokenizer.IsToken(t)
    requires |groups| == |blocks| && forall k :: 0 <= k < |blocks| ==> ToMap(blocks[k]) == IndexDocs(groups[k])
    requires forall k, j :: 0 <= k < |groups| && 0 <= j < |groups[k]| ==> groups[k][j] in docs
    ensures BelowSentinel(blocks)
  {
    forall k, j | 0 <= k < |blocks| && 0 <= j < |blocks[k]| ensures Lex.Below(blocks[k][j].0, Lex.Sentinel) {
      var t := blocks[k][j].0;
      assert t in ToMap(blocks[k]);
      IndexDocsTerms(groups[k], t);
      var m :| 0 <= m < |groups[k]| && t in groups[k][m].tokens;
      var q :| 0 <= q < |docs| && docs[q] == groups[k][m];
      assert Tokenizer.IsToken(t);
      Lex.LowercaseBelowSentinel(t);
    }
  }

  /** The blocks written from rows whose tokens are lower-case words hold
      only terms below the merge's sentinel. */
  lemma WrittenBelowSentinel(docs: seq<Doc>, size: nat, blocks: seq<Block>)
    requires size >= 1 && Written(Kept(docs), size, blocks)
    requires forall d, t :: d in docs && t in d.tokens ==> Tokenizer.IsToken(t)
    ensures BelowSentinel(blocks)
  {
    var kept := Kept(docs);
    var runs := Runs(kept, size);
    var groups := runs + (if |blocks| > |runs| then [Rest(kept, size)] else []);
    RunsMembers(kept, size);
    TokensBelowSentinel(kept, blocks, groups);
  }

  /** Lines 113-118: `term_index[tok]` is created empty when missing, then
      `pos` is appended to its list for document `id`, created when missing. */
  method AddPosting(terms: Spimi.TermDict, tok: string, id: string, pos: int)
    requires UniqueKeys(terms.entries)
    modifies terms
    ensures UniqueKeys(terms.entries)
    ensures ToMap(terms.entries) == AddPosition(old(ToMap(terms.entries)), id, tok, pos)
  {
    var i := IndexOf(terms.entries, tok);
    var p: Postings := map[];
    if i >= 0 {
      ToMapAt(terms.entries, i);
      p := terms.entries[i].1;
    }
    var ps: seq<int> := [];
    if id in p {
      ps := p[id];
    }
    terms.entries := Put(terms.entries, tok, p[id := ps + [pos]]);
  }

  /** The index builder; its fields are the ones `indexer` updates. */
  class Indexer {
    const blockSizeLimit: Positive
    var numBlocks: nat
    var numTokens: nat
    var documentLengthIndex: map<string, nat>

    /** `Indexer(filename, block_size_limit)` (lines 32-40). The limit is
        positive: 0 would make the modulo at line 120 divide by zero. */
    constructor (blockSizeLimit: Positive)
      ensures this.blockSizeLimit == blockSizeLimit
      ensures numBlocks == 0 && numTokens == 0 && documentLengthIndex == map[]
    {
      this.blockSizeLimit := blockSizeLimit;
      numBlocks := 0;
      numTokens := 0;
      documentLengthIndex := map[];
    }

    /** The per-token loop of one document (lines 92-118): counts each token,
        adds it to the document's length and appends its index to the
        document's position list of the term. */
    method IndexTokens(terms: Spimi.TermDict, id: string, toks: seq<string>)
      requires UniqueKeys(terms.entries)
      modifies this, terms
      ensures numBlocks == old(numBlocks)
      ensures numTokens == old(numTokens) + |toks|
      ensures documentLengthIndex == AddLength(old(documentLengthIndex), id, |toks|)
      ensures UniqueKeys(terms.entries)
      ensures ToMap(terms.entries) == AddDoc(old(ToMap(terms.entries)), id, toks)
    {
      ghost var m0 := ToMap(terms.entries);
      ghost var lengths0 := documentLengthIndex;
      ghost var tokens0 := numTokens;
      for j := 0 to |toks|
        invariant numBlocks == old(numBlocks)
        invariant numTokens == tokens0 + j
        invariant documentLengthIndex == AddLength(lengths0, id, j)
        invariant UniqueKeys(terms.entries)
        invariant ToMap(terms.entries) == AddDoc(m0, id, toks[..j])
      {
        var tok := toks[j];
        numTokens := numTokens + 1;
        if id !in documentLengthIndex {
          documentLengthIndex := documentLengthIndex[id := 0];
        }
        documentLengthIndex := documentLengthIndex[id := documentLengthIndex[id] + 1];
        AddLengthSucc(lengths0, id, j);
        AddPosting(terms, tok, id, j);
        AddDocSnoc(m0, id, toks, j);
      }
      assert toks[..|toks|] == toks;
    }

    /** The loop body for one row (lines 85-123), which the caller runs only for
        rows with an abstract: its tokens are indexed, and
        when it completes a run of `blockSizeLimit` rows the index is sorted
        and written as the next block. */
    method AddRow(terms: Spimi.TermDict, d: Doc, docNumber: nat, blocks: seq<Block>, ghost kept: seq<Doc>)
      returns (docNumber': nat, blocks': seq<Block>)
      requires numBlocks == |blocks| && Blocked(kept, blockSizeLimit, blocks, terms.entries, docNumber)
      modifies this, terms
      ensures numBlocks == |blocks'|
      ensures numTokens == old(numTokens) + |d.tokens|
      ensures documentLengthIndex == AddLength(old(documentLengthIndex), d.id, |d.tokens|)
      ensures Blocked(kept + [d], blockSizeLimit, blocks', terms.entries, docNumber')
    {
      var size: nat := blockSizeLimit;
      ghost var e := terms.entries;
      IndexTokens(terms, d.id, d.tokens);
      NextDoc(docNumber + 1, size);
      docNumber' := (docNumber + 1) % size;
      if docNumber' == 0 {
        numBlocks := numBlocks + 1;
        ghost var e' := terms.entries;
        var block := Spimi.SortTerms(terms);
        CompleteBlock(kept, size, blocks, e, e', docNumber, d, block);
        blocks' := blocks + [block];
      } else {
        KeepDoc(kept, size, blocks, e, terms.entries, docNumber, d);
        blocks' := blocks;
      }
    }

    /** After the last row (lines 124-127): postings left in the index are
        sorted and written as a last block. */
    method WriteLast(terms: Spimi.TermDict, blocks: seq<Block>, ghost kept: seq<Doc>, docNumber: nat)
      returns (blocks': seq<Block>)
      requires numBlocks == |blocks| && Blocked(kept, blockSizeLimit, blocks, terms.entries, docNumber)
      modifies this, terms
      ensures numBlocks == |blocks'|
      ensures numTokens == old(numTokens) && documentLengthIndex == old(documentLengthIndex)
      ensures Written(kept, blockSizeLimit, blocks')
    {
      ghost var e := terms.entries;
      blocks' := blocks;
      if |terms.entries| > 0 {
        numBlocks := numBlocks + 1;
        var block := Spimi.SortTerms(terms);
        blocks' := blocks + [block];
      }
      Finish(kept, blockSizeLimit, blocks, e, docNumber, blocks');
    }

    /** The row loop of `indexer` (lines 83-127): indexes the rows with an
        abstract, writes a key-sorted block after every `blockSizeLimit` of
        them and a last one if postings are left. */
    method WriteBlocks(docs: seq<Doc>) returns (blocks: seq<Block>)
      requires numBlocks == 0
      modifies this
      ensures numTokens == old(numTokens) + TokenCount(docs)
      ensures documentLengthIndex == DocLengths(old(documentLengthIndex), docs)
      ensures numBlocks == |blocks|
      ensures Written(Kept(docs), blockSizeLimit, blocks)
    {
      var size: nat := blockSizeLimit;
      var terms := new Spimi.TermDict();
      var docNumber: nat := 0;
      ghost var kept: seq<Doc> := [];
      ghost var lengths0 := documentLengthIndex;
      ghost var tokens0 := numTokens;
      blocks := [];
      for i := 0 to |docs|
        invariant kept == Kept(docs[..i])
        invariant numTokens == tokens0 + TokenCount(docs[..i])
        invariant documentLengthIndex == DocLengths(lengths0, docs[..i])
        invariant numBlocks == |blocks|
        invariant Blocked(kept, size, blocks, terms.entries, docNumber)
      {
        var d := docs[i];
        RowStep(lengths0, docs, i);
        if d.hasAbstract {
          docNumber, blocks := AddRow(terms, d, docNumber, blocks, kept);
          kept := kept + [d];
        }
      }
      assert docs[..|docs|] == docs;
      blocks := WriteLast(terms, blocks, kept, docNumber);
    }

    /** `bm25_avdl` (lines 186-198): the mean of the document lengths, or
        ZeroDivisionError when no document was indexed. */
    method Bm25Avdl() returns (r: Result<real>)
      ensures r.Failure? <==> |documentLengthIndex| == 0
      ensures r.Failure? ==> r.error == ZeroDivisionError
      ensures r.Ok? ==> RealMath.Times(r.value, |documentLengthIndex| as real)
                        == RealMath.Sum(RealMath.Reals(documentLengthIndex))
    {
      r := Bm25.Avdl(documentLengthIndex);
    }

    /** `indexer` (lines 43-131): writes the blocks of the rows with an
        abstract and merges them with the total token count as the merge's
        term budget. Block `k` indexes the `k`-th run of `blockSizeLimit`
        kept rows. */
    method Index(docs: seq<Doc>) returns (blocks: seq<Block>, merged: Result<seq<Block>>)
      requires numBlocks == 0
      requires forall d, t :: d in docs && t in d.tokens ==> Tokenizer.IsToken(t)
      modifies this
      ensures numTokens == old(numTokens) + TokenCount(docs)
      ensures documentLengthIndex == DocLengths(old(documentLengthIndex), docs)
      ensures numBlocks == |blocks|
      ensures Written(Kept(docs), blockSizeLimit, blocks)
      ensures |blocks| == 0 ==> merged == Failure(ZeroDivisionError)
      ensures |blocks| > 0 ==> (merged.Ok? <==> forall k :: 0 <= k < |blocks| ==> |blocks[k]| > 0)
      ensures |blocks| > 0 && merged.Failure? ==> merged.error == IndexError
      ensures merged.Ok? ==> MergeSpec(blocks, numTokens, merged.value)
    {
      blocks := WriteBlocks(docs);
      WrittenBelowSentinel(docs, blockSizeLimit, blocks);
      AllSortedIntro(blocks);
      merged := Spimi.MergeBlocks(blocks, numTokens);
    }
  }
}
