/** What the N-way merge of SPIMI blocks computes. A block is the content of
    one `block_<n>.json` file: term → (docID → positions), in the file's key
    order. The merge walks one cursor per block, repeatedly takes the least
    current term, unions the postings of every block positioned on it and
    emits the term; the emitted entries are cut into segments. The
    definitions and lemmas here are shared by both merge variants. */
module Blocks {
  import opened Lex
  import opened Dicts

  /** docID → positions of one term in that document. */
  type Postings = map<string, seq<int>>

  /** One block file: term → postings, in the file's key order. */
  type Block = Dict<Postings>

  /** Every block's keys are strictly increasing (each block file was
      written from `sort_terms`). */
  ghost predicate AllSorted(blocks: seq<Block>) {
    blocks == [] || (AllSorted(blocks[..|blocks| - 1]) && SortedKeys(blocks[|blocks| - 1]))
  }

  lemma {:induction false} AllSortedIntro(blocks: seq<Block>)
    requires forall i :: 0 <= i < |blocks| ==> SortedKeys(blocks[i])
    ensures AllSorted(blocks)
    decreases |blocks|
  {
    if blocks != [] {
      assert forall i :: 0 <= i < |blocks| - 1 ==> blocks[..|blocks| - 1][i] == blocks[i];
      AllSortedIntro(blocks[..|blocks| - 1]);
    }
  }

  lemma {:induction false} AllSortedEach(blocks: seq<Block>)
    requires AllSorted(blocks)
    ensures forall i :: 0 <= i < |blocks| ==> SortedKeys(blocks[i])
    decreases |blocks|
  {
    if blocks != [] {
      AllSortedEach(blocks[..|blocks| - 1]);
      assert forall i :: 0 <= i < |blocks| - 1 ==> blocks[..|blocks| - 1][i] == blocks[i];
    }
  }

  /** Every term is below the "{" the merge starts each scan with. */
  ghost predicate BelowSentinel(blocks: seq<Block>) {
    forall i, j :: 0 <= i < |blocks| && 0 <= j < |blocks[i]| ==> Below(blocks[i][j].0, Sentinel)
  }

  /** Term `t` is a key of some block. */
  ghost predicate Occurs(blocks: seq<Block>, t: string) {
    exists i, j :: 0 <= i < |blocks| && 0 <= j < |blocks[i]| && blocks[i][j].0 == t
  }

  /** `data[t]`: the postings of `t` in block `b`, or none when `t` is not
      a key of `b`. */
  function Get(b: Block, t: string): Postings {
    if b == [] then map[] else if b[|b| - 1].0 == t then b[|b| - 1].1 else Get(b[..|b| - 1], t)
  }

  /** The postings of `t` over `blocks[..n]`, united in block order; on a
      docID present in several blocks the later block's positions win. */
  ghost function Union(blocks: seq<Block>, t: string, n: nat): Postings
    requires n <= |blocks|
  {
    if n == 0 then map[] else Union(blocks, t, n - 1) + Get(blocks[n - 1], t)
  }

  /** The same union, taken over the listed blocks only, in list order. */
  ghost function UnionOver(blocks: seq<Block>, t: string, li: seq<nat>): Postings
    requires forall k :: 0 <= k < |li| ==> li[k] < |blocks|
  {
    if li == [] then map[]
    else UnionOver(blocks, t, li[..|li| - 1]) + Get(blocks[li[|li| - 1]], t)
  }

  /** The numbers below `n` satisfying `p`, in increasing order. */
  ghost function Indices(n: nat, p: nat -> bool): (r: seq<nat>)
    ensures |r| <= n
    ensures forall k :: 0 <= k < |r| ==> r[k] < n && p(r[k])
    ensures forall a, b :: 0 <= a < b < |r| ==> r[a] < r[b]
  {
    if n == 0 then [] else Indices(n - 1, p) + (if p(n - 1) then [n - 1] else [])
  }

  lemma {:induction false} IndicesComplete(n: nat, p: nat -> bool, j: nat)
    requires j < n && p(j)
    ensures j in Indices(n, p)
  {
    if j < n - 1 {
      IndicesComplete(n - 1, p, j);
    }
  }

  lemma {:induction false} IndicesNone(n: nat, p: nat -> bool)
    requires forall j :: 0 <= j < n ==> !p(j)
    ensures Indices(n, p) == []
  {
    if n > 0 {
      IndicesNone(n - 1, p);
    }
  }

  lemma {:induction false} IndicesEquiv(n: nat, p: nat -> bool, q: nat -> bool)
    requires forall j :: 0 <= j < n ==> p(j) == q(j)
    ensures Indices(n, p) == Indices(n, q)
  {
    if n > 0 {
      IndicesEquiv(n - 1, p, q);
    }
  }

  /** Block `j` has `t` as a key. */
  ghost function Contains(blocks: seq<Block>, t: string): nat -> bool {
    (j: nat) => j < |blocks| && HasKey(blocks[j], t)
  }

  /** The blocks below `n` that hold `t`, in increasing order. */
  ghost function Holding(blocks: seq<Block>, t: string, n: nat): (r: seq<nat>)
    requires n <= |blocks|
    ensures forall k :: 0 <= k < |r| ==> r[k] < n
  {
    if n == 0 then [] else Holding(blocks, t, n - 1) + (if HasKey(blocks[n - 1], t) then [n - 1] else [])
  }

  /** `Holding` is `Indices` of `Contains`. */
  lemma {:induction false} HoldingIndices(blocks: seq<Block>, t: string, n: nat)
    requires n <= |blocks|
    ensures Holding(blocks, t, n) == Indices(n, Contains(blocks, t))
  {
    if n > 0 {
      HoldingIndices(blocks, t, n - 1);
      var p := Contains(blocks, t);
      assert p(n - 1) == HasKey(blocks[n - 1], t);
      assert Indices(n, p) == Indices(n - 1, p) + (if p(n - 1) then [n - 1] else []);
    }
  }

  /** Uniting over the blocks that hold `t` is uniting over all. */
  lemma {:induction false} UnionOverHolding(blocks: seq<Block>, t: string, n: nat)
    requires n <= |blocks|
    ensures UnionOver(blocks, t, Holding(blocks, t, n)) == Union(blocks, t, n)
  {
    if n > 0 {
      UnionOverHolding(blocks, t, n - 1);
      HoldingStep(blocks, t, n);
    }
  }

  /** One more block: it adds its postings of `t` to both unions. */
  lemma HoldingStep(blocks: seq<Block>, t: string, n: nat)
    requires 0 < n <= |blocks|
    ensures UnionOver(blocks, t, Holding(blocks, t, n)) == UnionOver(blocks, t, Holding(blocks, t, n - 1)) + Get(blocks[n - 1], t)
  {
    var xs := Holding(blocks, t, n - 1);
    if HasKey(blocks[n - 1], t) {
      assert Holding(blocks, t, n) == xs + [n - 1];
      UnionOverSnoc(blocks, t, xs, n - 1);
    } else {
      assert Holding(blocks, t, n) == xs;
      NoKeyNoPostings(blocks[n - 1], t);
      assert UnionOver(blocks, t, xs) + map[] == UnionOver(blocks, t, xs);
    }
  }

  /** Uniting over exactly the blocks that hold `t` is uniting over all. */
  lemma UnionOverContaining(blocks: seq<Block>, t: string, n: nat)
    requires n <= |blocks|
    ensures UnionOver(blocks, t, Indices(n, Contains(blocks, t))) == Union(blocks, t, n)
  {
    HoldingIndices(blocks, t, n);
    UnionOverHolding(blocks, t, n);
  }

  lemma {:induction false} NoKeyNoPostings(b: Block, t: string)
    requires !HasKey(b, t)
    ensures Get(b, t) == map[]
  {
    if b != [] {
      NoKeyNoPostings(b[..|b| - 1], t);
    }
  }

  lemma UnionOverSnoc(blocks: seq<Block>, t: string, xs: seq<nat>, j: nat)
    requires forall k :: 0 <= k < |xs| ==> xs[k] < |blocks|
    requires j < |blocks|
    ensures UnionOver(blocks, t, xs + [j]) == UnionOver(blocks, t, xs) + Get(blocks[j], t)
  {
    assert (xs + [j])[..|xs|] == xs;
  }

  /** The cursor of every block lies within it. */
  ghost predicate Cursors(blocks: seq<Block>, c: seq<int>) {
    |c| == |blocks| && forall i :: 0 <= i < |c| ==> 0 <= c[i] <= |blocks[i]|
  }

  /** Block `i` still has a current term. */
  predicate Active(blocks: seq<Block>, c: seq<int>, i: int) {
    0 <= i < |blocks| && i < |c| && 0 <= c[i] < |blocks[i]|
  }

  /** Block `j` is positioned on term `t`. */
  predicate OnTerm(blocks: seq<Block>, c: seq<int>, t: string, j: int) {
    Active(blocks, c, j) && blocks[j][c[j]].0 == t
  }

  ghost function Tied(blocks: seq<Block>, c: seq<int>, t: string): nat -> bool {
    (j: nat) => OnTerm(blocks, c, t, j)
  }

  /** `li` lists, in increasing order, exactly the blocks below `i` that are
      positioned on `t`. */
  ghost predicate Lists(blocks: seq<Block>, c: seq<int>, t: string, li: seq<nat>, i: nat) {
    && (forall a, b :: 0 <= a < b < |li| ==> li[a] < li[b])
    && (forall k :: 0 <= k < |li| ==> li[k] < i && OnTerm(blocks, c, t, li[k]))
    && (forall j :: 0 <= j < i && OnTerm(blocks, c, t, j) ==> j in li)
  }

  /** An increasing list of exactly the numbers below `n` satisfying `p` is
      `Indices(n, p)`. */
  lemma {:induction false} ListsAreIndices(n: nat, p: nat -> bool, li: seq<nat>)
    requires forall a, b :: 0 <= a < b < |li| ==> li[a] < li[b]
    requires forall k :: 0 <= k < |li| ==> li[k] < n && p(li[k])
    requires forall j: nat :: j < n && p(j) ==> j in li
    ensures li == Indices(n, p)
    decreases |li|
  {
    if li == [] {
      IndicesNone(n, p);
    } else {
      var m := li[|li| - 1];
      ListsLast(n, p, li);
      ListsAreIndices(m, p, li[..|li| - 1]);
      IndicesTail(n, m, p);
    }
  }

  /** Without its last member `m`, such a list is the list below `m`, and
      nothing between `m` and `n` satisfies `p`. */
  lemma ListsLast(n: nat, p: nat -> bool, li: seq<nat>)
    requires |li| > 0
    requires forall a, b :: 0 <= a < b < |li| ==> li[a] < li[b]
    requires forall k :: 0 <= k < |li| ==> li[k] < n && p(li[k])
    requires forall j: nat :: j < n && p(j) ==> j in li
    ensures var m, init := li[|li| - 1], li[..|li| - 1];
            && li == init + [m] && m < n && p(m)
            && (forall a, b :: 0 <= a < b < |init| ==> init[a] < init[b])
            && (forall k :: 0 <= k < |init| ==> init[k] < m && p(init[k]))
            && (forall j: nat :: j < m && p(j) ==> j in init)
            && (forall j: nat :: m < j < n ==> !p(j))
  {
    var last := |li| - 1;
    var m := li[last];
    var init := li[..last];
    assert li == init + [m];
    assert forall x :: 0 <= x < last ==> li[x] < m;
    forall j: nat | j < m && p(j) ensures j in init {
      var x :| 0 <= x < |li| && li[x] == j;
      assert x != last;
      assert init[x] == j;
    }
  }

  /** With `m` the greatest number below `n` satisfying `p`, the list
      below `n` is the list below `m` followed by `m`. */
  lemma {:induction false} IndicesTail(n: nat, m: nat, p: nat -> bool)
    requires m < n && p(m)
    requires forall j: nat :: m < j < n ==> !p(j)
    ensures Indices(n, p) == Indices(m, p) + [m]
  {
    if n - 1 > m {
      IndicesTail(n - 1, m, p);
    }
  }

  /** How many of `blocks[..n]` are exhausted. */
  ghost function CountDone(blocks: seq<Block>, c: seq<int>, n: nat): (r: nat)
    requires n <= |blocks| && |c| == |blocks|
    ensures r <= n
  {
    if n == 0 then 0 else CountDone(blocks, c, n - 1) + (if c[n - 1] == |blocks[n - 1]| then 1 else 0)
  }

  /** With no block exhausted, none is counted. */
  lemma {:induction false} CountDoneNone(blocks: seq<Block>, c: seq<int>, n: nat)
    requires n <= |blocks| && |c| == |blocks|
    requires forall i :: 0 <= i < n ==> c[i] != |blocks[i]|
    ensures CountDone(blocks, c, n) == 0
  {
    if n > 0 {
      CountDoneNone(blocks, c, n - 1);
    }
  }

  /** Advancing one active cursor adds one to the count exactly when it
      reaches its block's end. */
  lemma {:induction false} CountDoneStep(blocks: seq<Block>, c: seq<int>, l: nat, n: nat)
    requires n <= |blocks| && |c| == |blocks| && l < |blocks| && c[l] < |blocks[l]|
    ensures CountDone(blocks, c[l := c[l] + 1], n)
            == CountDone(blocks, c, n) + (if l < n && c[l] + 1 == |blocks[l]| then 1 else 0)
  {
    if n > 0 {
      CountDoneStep(blocks, c, l, n - 1);
    }
  }

  /** While fewer than all blocks are exhausted, some block has a current term. */
  lemma {:induction false} SomeActive(blocks: seq<Block>, c: seq<int>, n: nat)
    requires n <= |blocks| && Cursors(blocks, c)
    requires CountDone(blocks, c, n) < n
    ensures exists j :: 0 <= j < n && Active(blocks, c, j)
  {
    if c[n - 1] == |blocks[n - 1]| {
      SomeActive(blocks, c, n - 1);
    } else {
      assert Active(blocks, c, n - 1);
    }
  }

  /** Once all blocks are counted as exhausted, every cursor is at its block's end. */
  lemma {:induction false} AllDone(blocks: seq<Block>, c: seq<int>, n: nat)
    requires n <= |blocks| && |c| == |blocks|
    requires CountDone(blocks, c, n) >= n
    ensures forall i :: 0 <= i < n ==> c[i] == |blocks[i]|
  {
    if n > 0 {
      AllDone(blocks, c, n - 1);
    }
  }

  /** The merge's loop invariant over sorted blocks, for the entries `e`
      emitted so far (the written segments followed by the accumulator):
      emitted terms increase, every consumed term was emitted with the union
      of its postings over all blocks, and every block's current term lies
      above everything emitted. */
  ghost predicate Invariant(blocks: seq<Block>, c: seq<int>, e: Block) {
    && Cursors(blocks, c)
    && SortedKeys(e)
    && (forall i, j :: 0 <= i < |blocks| && 0 <= j < c[i] ==> HasKey(e, blocks[i][j].0))
    && (forall k :: 0 <= k < |e| ==> Occurs(blocks, e[k].0) && e[k].1 == Union(blocks, e[k].0, |blocks|))
    && Above(blocks, c, e)
  }

  /** Every block's current term lies above every emitted term. */
  ghost predicate Above(blocks: seq<Block>, c: seq<int>, e: Block)
    requires Cursors(blocks, c)
  {
    forall i, k :: 0 <= i < |blocks| && c[i] < |blocks[i]| && 0 <= k < |e| ==> Below(e[k].0, blocks[i][c[i]].0)
  }

  lemma InvariantInit(blocks: seq<Block>)
    ensures Invariant(blocks, seq(|blocks|, _ => 0), [])
  {
  }

  /** The least current term has not been emitted yet. */
  lemma NotEmitted(blocks: seq<Block>, c: seq<int>, e: Block, lt: string, w: nat)
    requires Invariant(blocks, c, e)
    requires Active(blocks, c, w) && blocks[w][c[w]].0 == lt
    ensures !HasKey(e, lt)
  {
    if HasKey(e, lt) {
      var k :| 0 <= k < |e| && e[k].0 == lt;
      BelowIrreflexive(lt);
      assert false;
    }
  }

  /** With sorted blocks, the blocks positioned on the least current term
      are exactly the blocks that hold it. */
  lemma TiedAreContaining(blocks: seq<Block>, c: seq<int>, e: Block, lt: string, w: nat, j: nat)
    requires AllSorted(blocks) && Invariant(blocks, c, e)
    requires Active(blocks, c, w) && blocks[w][c[w]].0 == lt
    requires forall i :: Active(blocks, c, i) ==> blocks[i][c[i]].0 == lt || Below(lt, blocks[i][c[i]].0)
    ensures OnTerm(blocks, c, lt, j) == Contains(blocks, lt)(j)
  {
    AllSortedEach(blocks);
    if Contains(blocks, lt)(j) {
      var b := blocks[j];
      var p :| 0 <= p < |b| && b[p].0 == lt;
      NotEmitted(blocks, c, e, lt, w);
      assert p >= c[j];
      assert Active(blocks, c, j);
      if p > c[j] {
        assert Below(b[c[j]].0, lt);
        if b[c[j]].0 != lt {
          BelowAsymmetric(b[c[j]].0, lt);
        }
        BelowIrreflexive(lt);
      }
    }
  }

  /** The precondition of one merge iteration: `lt` is the least current
      term, `li` lists the blocks on it, and `c'` advances exactly those. */
  ghost predicate Advance(blocks: seq<Block>, c: seq<int>, lt: string, li: seq<nat>, w: nat, c': seq<int>)
  {
    && Lowest(blocks, c, lt, li, w)
    && |c'| == |c|
    && (forall i :: 0 <= i < |c| ==> c'[i] == if OnTerm(blocks, c, lt, i) then c[i] + 1 else c[i])
  }

  /** One iteration of the merge over sorted blocks: emitting the least
      current term with the union of its postings over the listed blocks,
      which is its union over all blocks, and advancing every block
      positioned on it keeps the invariant. */
  lemma Step(blocks: seq<Block>, c: seq<int>, e: Block, lt: string, li: seq<nat>, w: nat, c': seq<int>)
    requires AllSorted(blocks) && Invariant(blocks, c, e)
    requires Advance(blocks, c, lt, li, w, c')
    ensures !HasKey(e, lt)
    ensures UnionOver(blocks, lt, li) == Union(blocks, lt, |blocks|)
    ensures Invariant(blocks, c', e + [(lt, Union(blocks, lt, |blocks|))])
  {
    AllSortedEach(blocks);
    var n := |blocks|;
    NotEmitted(blocks, c, e, lt, w);
    ListedUnion(blocks, c, e, lt, li, w);
    var e' := e + [(lt, Union(blocks, lt, n))];
    StepConsumed(blocks, c, e, lt, li, w, c');
    StepAbove(blocks, c, e, lt, li, w, c');
    StepSorted(blocks, c, e, lt, w);
    assert Occurs(blocks, lt) by {
      assert blocks[w][c[w]].0 == lt;
    }
    assert forall k :: 0 <= k < |e| ==> e'[k] == e[k];
  }

  /** Uniting over the listed blocks is uniting over all blocks. */
  lemma ListedUnion(blocks: seq<Block>, c: seq<int>, e: Block, lt: string, li: seq<nat>, w: nat)
    requires AllSorted(blocks) && Invariant(blocks, c, e)
    requires Lowest(blocks, c, lt, li, w)
    ensures UnionOver(blocks, lt, li) == Union(blocks, lt, |blocks|)
  {
    AllSortedEach(blocks);
    var n := |blocks|;
    forall j | 0 <= j < n
      ensures Tied(blocks, c, lt)(j) == Contains(blocks, lt)(j)
    {
      TiedAreContaining(blocks, c, e, lt, w, j);
    }
    ListsAreIndices(n, Tied(blocks, c, lt), li);
    IndicesEquiv(n, Tied(blocks, c, lt), Contains(blocks, lt));
    UnionOverContaining(blocks, lt, n);
  }

  lemma StepConsumed(blocks: seq<Block>, c: seq<int>, e: Block, lt: string, li: seq<nat>, w: nat, c': seq<int>)
    requires Invariant(blocks, c, e)
    requires Advance(blocks, c, lt, li, w, c')
    ensures Cursors(blocks, c')
    ensures forall i, j :: 0 <= i < |blocks| && 0 <= j < c'[i] ==> HasKey(e + [(lt, Union(blocks, lt, |blocks|))], blocks[i][j].0)
  {
    var e' := e + [(lt, Union(blocks, lt, |blocks|))];
    forall i, j | 0 <= i < |blocks| && 0 <= j < c'[i]
      ensures HasKey(e', blocks[i][j].0)
    {
      if j < c[i] {
        var k :| 0 <= k < |e| && e[k].0 == blocks[i][j].0;
        assert e'[k] == e[k];
      } else {
        assert e'[|e|].0 == lt;
      }
    }
  }

  lemma StepAbove(blocks: seq<Block>, c: seq<int>, e: Block, lt: string, li: seq<nat>, w: nat, c': seq<int>)
    requires AllSorted(blocks) && Invariant(blocks, c, e)
    requires Advance(blocks, c, lt, li, w, c')
    ensures Cursors(blocks, c')
    ensures Above(blocks, c', e + [(lt, Union(blocks, lt, |blocks|))])
  {
    AllSortedEach(blocks);
    var e' := e + [(lt, Union(blocks, lt, |blocks|))];
    forall i, k | 0 <= i < |blocks| && c'[i] < |blocks[i]| && 0 <= k < |e'|
      ensures Below(e'[k].0, blocks[i][c'[i]].0)
    {
      var next := blocks[i][c'[i]].0;
      if OnTerm(blocks, c, lt, i) {
        assert Below(lt, next);
        if k < |e| {
          assert e'[k] == e[k];
          BelowTransitive(e[k].0, lt, next);
        }
      } else if k == |e| {
        assert blocks[i][c[i]].0 != lt;
      } else {
        assert e'[k] == e[k];
      }
    }
  }

  lemma StepSorted(blocks: seq<Block>, c: seq<int>, e: Block, lt: string, w: nat)
    requires Invariant(blocks, c, e)
    requires Active(blocks, c, w) && blocks[w][c[w]].0 == lt
    ensures SortedKeys(e + [(lt, Union(blocks, lt, |blocks|))])
  {
    var e' := e + [(lt, Union(blocks, lt, |blocks|))];
    forall a, b | 0 <= a < b < |e'|
      ensures Below(e'[a].0, e'[b].0)
    {
      assert e'[a] == e[a];
      if b == |e| {
        assert Below(e[a].0, blocks[w][c[w]].0);
      } else {
        assert e'[b] == e[b];
      }
    }
  }

  /** Once every block is exhausted, the emitted terms are exactly the
      terms of the blocks. */
  lemma Completion(blocks: seq<Block>, c: seq<int>, e: Block, t: string)
    requires Invariant(blocks, c, e)
    requires forall i :: 0 <= i < |blocks| ==> c[i] == |blocks[i]|
    ensures HasKey(e, t) <==> Occurs(blocks, t)
  {
    if HasKey(e, t) {
      var k :| 0 <= k < |e| && e[k].0 == t;
    }
  }

  /** The segments, concatenated in the order they are written. */
  ghost function Flatten(segs: seq<Block>): Block {
    if segs == [] then [] else Flatten(segs[..|segs| - 1]) + segs[|segs| - 1]
  }

  /** `max_num_terms_per_block` is `floor(T / N)`; a segment is written as
      soon as it holds that many terms, and never holds fewer than one. */
  function Capacity(t: nat, n: nat): nat
    requires n > 0
  {
    if t / n == 0 then 1 else t / n
  }

  /** The outcome of merging sorted blocks: the written segments, read in
      order, list every term of the blocks exactly once in increasing order,
      each with the union of its postings; every segment but the last holds
      `Capacity` terms and the last holds between one and that many. */
  ghost predicate MergeSpec(blocks: seq<Block>, t: nat, segs: seq<Block>) {
    var e := Flatten(segs);
    && |blocks| > 0
    && SortedKeys(e)
    && (forall term :: HasKey(e, term) <==> Occurs(blocks, term))
    && (forall k :: 0 <= k < |e| ==> e[k].1 == Union(blocks, e[k].0, |blocks|))
    && Segmented(segs, Capacity(t, |blocks|))
  }

  /** At least one segment; each holds between one and `cap` terms, and all
      but the last hold exactly `cap`. */
  ghost predicate Segmented(segs: seq<Block>, cap: nat) {
    && |segs| >= 1
    && (forall k :: 0 <= k < |segs| ==> 1 <= |segs[k]| <= cap)
    && (forall k :: 0 <= k < |segs| - 1 ==> |segs[k]| == cap)
  }

  /** The segments written so far and the accumulator: while blocks remain,
      every written segment is full and the accumulator is not; once all are
      completed the accumulator has been written out and the segments are
      `Segmented`. */
  ghost predicate Filling(segs: seq<Block>, result: Block, cap: nat, done: bool) {
    && |result| < cap
    && (done ==> result == [] && Segmented(segs, cap))
    && (!done ==> forall k :: 0 <= k < |segs| ==> |segs[k]| == cap)
  }

  /** Writing out a non-empty accumulator that is full, or the last one. */
  lemma Flush(segs: seq<Block>, result: Block, cap: nat, done: bool)
    requires forall k :: 0 <= k < |segs| ==> |segs[k]| == cap
    requires 1 <= |result| <= cap && (done || |result| == cap)
    ensures Filling(segs + [result], [], cap, done)
  {
  }

  lemma FlattenSnoc(segs: seq<Block>, b: Block)
    ensures Flatten(segs + [b]) == Flatten(segs) + b
  {
    assert (segs + [b])[..|segs|] == segs;
  }

  /** Segment k of the flattened output starts after the earlier segments. */
  lemma {:induction false} FlattenAt(segs: seq<Block>, k: nat, x: nat)
    requires k < |segs| && x < |segs[k]|
    ensures |Flatten(segs[..k])| + x < |Flatten(segs)|
    ensures Flatten(segs)[|Flatten(segs[..k])| + x] == segs[k][x]
    decreases |segs|
  {
    var last := |segs| - 1;
    assert segs[..last] == segs[..|segs| - 1];
    if k < last {
      assert segs[..last][..k] == segs[..k];
      FlattenAt(segs[..last], k, x);
    } else {
      assert segs[..k] == segs[..|segs| - 1];
    }
  }

  /** Segments are disjoint and ordered: every term of an earlier segment is
      below every term of a later one. */
  lemma SegmentsOrdered(blocks: seq<Block>, t: nat, segs: seq<Block>, k1: nat, x1: nat, k2: nat, x2: nat)
    requires MergeSpec(blocks, t, segs)
    requires k1 < k2 < |segs| && x1 < |segs[k1]| && x2 < |segs[k2]|
    ensures Below(segs[k1][x1].0, segs[k2][x2].0)
  {
    FlattenAt(segs, k1, x1);
    FlattenAt(segs, k2, x2);
    FlattenPrefix(segs, k1 + 1, k2);
    assert segs[..k1 + 1][..k1] == segs[..k1];
    assert |Flatten(segs[..k1 + 1])| == |Flatten(segs[..k1])| + |segs[k1]|;
    var e := Flatten(segs);
    assert Below(e[|Flatten(segs[..k1])| + x1].0, e[|Flatten(segs[..k2])| + x2].0);
  }

  lemma {:induction false} FlattenPrefix(segs: seq<Block>, a: nat, b: nat)
    requires a <= b <= |segs|
    ensures |Flatten(segs[..a])| <= |Flatten(segs[..b])|
    decreases b
  {
    if a < b {
      FlattenPrefix(segs, a, b - 1);
      assert segs[..b][..b - 1] == segs[..b - 1];
    }
  }

  /** A docID has postings for a term in the merged output exactly when some
      block lists that docID under the term. */
  lemma {:induction false} UnionDocs(blocks: seq<Block>, t: string, n: nat, d: string)
    requires n <= |blocks|
    ensures d in Union(blocks, t, n) <==> exists i :: 0 <= i < n && d in Get(blocks[i], t)
  {
    if n > 0 {
      UnionDocs(blocks, t, n - 1, d);
    }
  }

  /** On a docID listed by several blocks, the last of them decides. */
  lemma {:induction false} UnionLastWins(blocks: seq<Block>, t: string, n: nat, d: string, i: nat)
    requires i < n <= |blocks|
    requires d in Get(blocks[i], t)
    requires forall j :: i < j < n ==> d !in Get(blocks[j], t)
    ensures d in Union(blocks, t, n) && Union(blocks, t, n)[d] == Get(blocks[i], t)[d]
  {
    if i < n - 1 {
      UnionLastWins(blocks, t, n - 1, d, i);
    }
  }

  /** Terms still ahead of the cursors of `blocks[..n]`; every merge
      iteration makes it smaller. */
  ghost function Remaining(blocks: seq<Block>, c: seq<int>, n: nat): nat
    requires n <= |blocks| && Cursors(blocks, c)
  {
    if n == 0 then 0 else Remaining(blocks, c, n - 1) + (|blocks[n - 1]| - c[n - 1])
  }

  /** Moving cursors forward, one of them strictly, leaves fewer terms ahead. */
  lemma {:induction false} RemainingDecreases(blocks: seq<Block>, c: seq<int>, c': seq<int>, w: nat, n: nat)
    requires n <= |blocks| && Cursors(blocks, c) && Cursors(blocks, c')
    requires forall i :: 0 <= i < |c| ==> c[i] <= c'[i]
    requires w < n && c[w] < c'[w]
    ensures Remaining(blocks, c', n) < Remaining(blocks, c, n)
  {
    if w < n - 1 {
      RemainingDecreases(blocks, c, c', w, n - 1);
    } else {
      RemainingMonotone(blocks, c, c', n - 1);
    }
  }

  lemma {:induction false} RemainingMonotone(blocks: seq<Block>, c: seq<int>, c': seq<int>, n: nat)
    requires n <= |blocks| && Cursors(blocks, c) && Cursors(blocks, c')
    requires forall i :: 0 <= i < |c| ==> c[i] <= c'[i]
    ensures Remaining(blocks, c', n) <= Remaining(blocks, c, n)
  {
    if n > 0 {
      RemainingMonotone(blocks, c, c', n - 1);
    }
  }

  /** Block `w` is on the least current term `lt` and `li` lists, in
      increasing order, the blocks positioned on it. */
  ghost predicate Lowest(blocks: seq<Block>, c: seq<int>, lt: string, li: seq<nat>, w: nat) {
    && OnTerm(blocks, c, lt, w)
    && (forall i :: Active(blocks, c, i) ==> blocks[i][c[i]].0 == lt || Below(lt, blocks[i][c[i]].0))
    && Lists(blocks, c, lt, li, |blocks|)
  }

  /** The state of a scan after `blocks[..i]`: while no block was active,
      the least term is still the sentinel and the list its initial `[0]`;
      afterwards `lt` is the least current term among them, held by block
      `w`, and `li` lists the blocks on it. */
  ghost predicate Scanned(blocks: seq<Block>, c: seq<int>, i: nat, found: bool, lt: string, li: seq<nat>, w: nat) {
    && i <= |blocks|
    && (!found ==> lt == Sentinel && li == [0] && forall j :: 0 <= j < i ==> !Active(blocks, c, j))
    && (found ==> && w < i && OnTerm(blocks, c, lt, w)
                  && (forall j :: 0 <= j < i && Active(blocks, c, j) ==>
                        blocks[j][c[j]].0 == lt || Below(lt, blocks[j][c[j]].0))
                  && Lists(blocks, c, lt, li, i))
  }

  lemma ScanStart(blocks: seq<Block>, c: seq<int>)
    ensures Scanned(blocks, c, 0, false, Sentinel, [0], 0)
  {
  }

  /** A block without a current term leaves the scan as it is. */
  lemma ScanSkip(blocks: seq<Block>, c: seq<int>, i: nat, found: bool, lt: string, li: seq<nat>, w: nat)
    requires Scanned(blocks, c, i, found, lt, li, w) && i < |blocks| && !Active(blocks, c, i)
    ensures Scanned(blocks, c, i + 1, found, lt, li, w)
  {
  }

  /** A current term below the least so far starts a new list. */
  lemma ScanLower(blocks: seq<Block>, c: seq<int>, i: nat, found: bool, lt: string, li: seq<nat>, w: nat)
    requires Scanned(blocks, c, i, found, lt, li, w) && i < |blocks| && Active(blocks, c, i)
    requires Below(blocks[i][c[i]].0, lt)
    ensures Scanned(blocks, c, i + 1, true, blocks[i][c[i]].0, [i], i)
  {
    var key := blocks[i][c[i]].0;
    forall j | 0 <= j < i && Active(blocks, c, j) ensures Below(key, blocks[j][c[j]].0) {
      if blocks[j][c[j]].0 != lt {
        BelowTransitive(key, lt, blocks[j][c[j]].0);
      }
    }
    forall j | 0 <= j < i ensures !OnTerm(blocks, c, key, j) {
      if Active(blocks, c, j) {
        BelowIrreflexive(key);
      }
    }
  }

  /** A current term equal to the least so far joins the list; the
      sentinel is above every term, so a term was already found. */
  lemma ScanTie(blocks: seq<Block>, c: seq<int>, i: nat, found: bool, lt: string, li: seq<nat>, w: nat)
    requires Scanned(blocks, c, i, found, lt, li, w) && i < |blocks| && Active(blocks, c, i)
    requires BelowSentinel(blocks) && blocks[i][c[i]].0 == lt
    ensures found && Scanned(blocks, c, i + 1, found, lt, li + [i], w)
  {
    if !found {
      BelowIrreflexive(lt);
    }
  }

  /** A current term above the least so far is passed over. */
  lemma ScanPass(blocks: seq<Block>, c: seq<int>, i: nat, found: bool, lt: string, li: seq<nat>, w: nat)
    requires Scanned(blocks, c, i, found, lt, li, w) && i < |blocks| && Active(blocks, c, i)
    requires BelowSentinel(blocks)
    requires !Below(blocks[i][c[i]].0, lt) && blocks[i][c[i]].0 != lt
    ensures Scanned(blocks, c, i + 1, found, lt, li, w)
  {
    BelowTotal(blocks[i][c[i]].0, lt);
  }

  /** At the end of a scan that met an active block, the least term and
      its blocks are known. */
  lemma ScanEnd(blocks: seq<Block>, c: seq<int>, found: bool, lt: string, li: seq<nat>, w: nat, j: nat)
    requires Scanned(blocks, c, |blocks|, found, lt, li, w) && Active(blocks, c, j)
    ensures found && Lowest(blocks, c, lt, li, w)
  {
  }
}
