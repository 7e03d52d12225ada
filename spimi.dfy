/** `Spimi` of Spimi.py: sorting a block's terms and the N-way merge of the
    block files into segment files. A block file is read as a `Block` (its
    JSON object in key order); the files written by the merge are returned,
    in the order they are written, as the segments of the result. */
module Spimi {
  import opened Lex
  import opened Dicts
  import opened Errors
  import opened Blocks
  import Sorting

  /** Initial size of a block not read yet (`MAX_INT`). */
  const MaxInt: int := 9223372036854775807

  /** The in-memory term dictionary of the block being built:
      term → (docID → positions), in insertion order. */
  class TermDict {
    var entries: Block

    constructor ()
      ensures entries == []
    {
      entries := [];
    }
  }

  /** `sort_terms`: returns the entries in increasing term order and empties
      the dictionary it was given. */
  method SortTerms(terms: TermDict) returns (res: Block)
    requires UniqueKeys(terms.entries)
    modifies terms
    ensures terms.entries == []
    ensures SortedKeys(res)
    ensures multiset(res) == multiset(old(terms.entries))
  {
    res := Sorting.SortByKey(terms.entries);
    terms.entries := [];
  }

  /** One scan of `merge_blocks`: every block whose cursor is below its
      recorded size is read (recording its real size) and the least current
      term `lt` is found together with the blocks positioned on it. Reading
      the current key of an empty block raises IndexError, which can only
      happen on the first scan, while every size is still `MaxInt`. */
  method ScanLowest(blocks: seq<Block>, indexes: seq<int>, sizes: seq<int>, ghost first: bool)
    returns (ok: bool, lt: string, li: seq<nat>, ghost w: nat, sizes': seq<int>)
    requires |indexes| == |sizes| == |blocks| > 0
    requires BelowSentinel(blocks) && Cursors(blocks, indexes)
    requires first ==> forall i :: 0 <= i < |blocks| ==> indexes[i] == 0 && sizes[i] == MaxInt
    requires !first ==> forall i :: 0 <= i < |blocks| ==> |blocks[i]| > 0 && sizes[i] == |blocks[i]|
    requires !first ==> exists j :: Active(blocks, indexes, j)
    ensures ok <==> !first || forall i :: 0 <= i < |blocks| ==> |blocks[i]| > 0
    ensures ok ==> |sizes'| == |blocks| && forall i :: 0 <= i < |blocks| ==> |blocks[i]| > 0 && sizes'[i] == |blocks[i]|
    ensures ok ==> Lowest(blocks, indexes, lt, li, w)
  {
    var n := |indexes|;
    ghost var found := false;
    sizes' := sizes;
    lt, li, w := Sentinel, [0], 0;
    ScanStart(blocks, indexes);
    for i := 0 to n
      invariant |sizes'| == n
      invariant forall j :: 0 <= j < i ==> |blocks[j]| > 0 && sizes'[j] == |blocks[j]|
      invariant forall j :: i <= j < n ==> sizes'[j] == sizes[j]
      invariant Scanned(blocks, indexes, i, found, lt, li, w)
    {
      if indexes[i] < sizes'[i] {
        sizes' := sizes'[i := |blocks[i]|];
        if indexes[i] >= |blocks[i]| {
          return false, lt, li, w, sizes';
        }
        var key := blocks[i][indexes[i]].0;
        if Below(key, lt) {
          ScanLower(blocks, indexes, i, found, lt, li, w);
          lt, li, w := key, [i], i;
          found := true;
        } else if key == lt {
          ScanTie(blocks, indexes, i, found, lt, li, w);
          li := li + [i];
        } else {
          ScanPass(blocks, indexes, i, found, lt, li, w);
        }
      } else {
        ScanSkip(blocks, indexes, i, found, lt, li, w);
      }
    }
    ghost var j: nat :| Active(blocks, indexes, j);
    ScanEnd(blocks, indexes, found, lt, li, w, j);
    ok := true;
  }

  /** The blocks of `li`, in increasing order, each with a current term. */
  ghost predicate Listed(blocks: seq<Block>, c: seq<int>, li: seq<nat>) {
    && (forall a, b :: 0 <= a < b < |li| ==> li[a] < li[b])
    && (forall m :: 0 <= m < |li| ==> Active(blocks, c, li[m]))
  }

  /** The scan's list names exactly the blocks positioned on the least term,
      the witness among them. */
  lemma LowestListed(blocks: seq<Block>, c: seq<int>, lt: string, li: seq<nat>, w: nat)
    requires Lowest(blocks, c, lt, li, w)
    ensures Listed(blocks, c, li) && w in li
    ensures forall j :: 0 <= j < |blocks| ==> (j in li <==> OnTerm(blocks, c, lt, j))
  {
  }

  /** The advance of `merge_blocks` (lines 45-56): every listed block moves
      one term on, a block reaching its size counts as completed, and the
      block's postings of `lt` are merged into the accumulator. */
  method AdvanceCursors(blocks: seq<Block>, indexes: seq<int>, sizes: seq<int>, lt: string, li: seq<nat>,
                        result: Block, numCompleted: nat)
    returns (indexes': seq<int>, result': Block, numCompleted': nat)
    requires |sizes| == |blocks| && forall i :: 0 <= i < |blocks| ==> sizes[i] == |blocks[i]|
    requires Cursors(blocks, indexes) && Listed(blocks, indexes, li) && |li| > 0
    requires UniqueKeys(result)
    requires numCompleted == CountDone(blocks, indexes, |blocks|)
    ensures |indexes'| == |blocks|
    ensures forall j :: 0 <= j < |blocks| ==> indexes'[j] == indexes[j] + (if j in li then 1 else 0)
    ensures Cursors(blocks, indexes')
    ensures numCompleted' == CountDone(blocks, indexes', |blocks|)
    ensures UniqueKeys(result') && 1 <= |result'| <= |result| + 1
    ensures !HasKey(result, lt) ==> result' == result + [(lt, UnionOver(blocks, lt, li))]
  {
    var n := |indexes|;
    indexes', result', numCompleted' := indexes, result, numCompleted;
    for k := 0 to |li|
      invariant |indexes'| == n
      invariant forall j :: 0 <= j < n ==> indexes'[j] == indexes[j] + (if j in li[..k] then 1 else 0)
      invariant Cursors(blocks, indexes')
      invariant numCompleted' == CountDone(blocks, indexes', n)
      invariant Accumulated(blocks, lt, li, k, result, result')
    {
      var l := li[k];
      ghost var before := indexes';
      MoveCursor(blocks, indexes, li, k, before);
      indexes' := indexes'[l := indexes'[l] + 1];
      if indexes'[l] == sizes[l] {
        numCompleted' := numCompleted' + 1;
      }
      CountDoneStep(blocks, before, l, n);
      AccumulateStep(blocks, lt, li, k, result, result');
      result' := Accumulate(result', lt, Get(blocks[l], lt));
    }
    assert li[..|li|] == li;
  }

  /** Lines 52-55: `result[lt].update(data[lt])` when the term is already
      in the accumulator (later docIDs overwrite), `result[lt] = data[lt]`
      otherwise. */
  function Accumulate(result: Block, lt: string, data: Postings): (r: Block)
    requires UniqueKeys(result)
    ensures UniqueKeys(r) && HasKey(r, lt)
    ensures |result| <= |r| <= |result| + 1
    ensures HasKey(result, lt) ==> |r| == |result|
    ensures !HasKey(result, lt) ==> r == result + [(lt, data)]
    ensures |result| > 0 && result[|result| - 1].0 == lt ==>
              r == result[..|result| - 1] + [(lt, result[|result| - 1].1 + data)]
  {
    HasKeyToMap(result, lt);
    var r := if IndexOf(result, lt) >= 0 then Put(result, lt, Get(result, lt) + data) else Put(result, lt, data);
    HasKeyToMap(r, lt);
    SizeOfUnique(result);
    SizeOfUnique(r);
    r
  }

  /** A term already in the accumulator keeps the key order, and only its
      postings change, to the old postings updated with `data`. */
  lemma AccumulatePresent(result: Block, lt: string, data: Postings)
    requires UniqueKeys(result) && HasKey(result, lt)
    ensures Keys(Accumulate(result, lt, data)) == Keys(result)
    ensures ToMap(Accumulate(result, lt, data)) == ToMap(result)[lt := Get(result, lt) + data]
  {
    HasKeyToMap(result, lt);
  }

  /** Advancing the `k`-th listed block: it was not advanced before. */
  lemma MoveCursor(blocks: seq<Block>, c: seq<int>, li: seq<nat>, k: nat, before: seq<int>)
    requires k < |li| && |before| == |c| == |blocks|
    requires forall a, b :: 0 <= a < b < |li| ==> li[a] < li[b]
    requires forall j :: 0 <= j < |c| ==> before[j] == c[j] + (if j in li[..k] then 1 else 0)
    requires Listed(blocks, c, li) && Cursors(blocks, before)
    ensures before[li[k]] == c[li[k]] < |blocks[li[k]]|
    ensures Cursors(blocks, before[li[k] := before[li[k]] + 1])
    ensures forall j :: 0 <= j < |c| ==>
              before[li[k] := before[li[k]] + 1][j] == c[j] + (if j in li[..k + 1] then 1 else 0)
  {
    assert li[..k + 1] == li[..k] + [li[k]];
    assert li[k] !in li[..k];
  }

  /** The accumulator after the postings of `lt` from the first `k` listed
      blocks were merged into `result`. */
  ghost predicate Accumulated(blocks: seq<Block>, lt: string, li: seq<nat>, k: nat, result: Block, r: Block)
    requires k <= |li| && forall m :: 0 <= m < |li| ==> li[m] < |blocks|
  {
    && UniqueKeys(r)
    && (k == 0 ==> r == result)
    && (k > 0 ==> 1 <= |r| <= |result| + 1 && HasKey(r, lt))
    && (k > 0 && !HasKey(result, lt) ==> r == result + [(lt, UnionOver(blocks, lt, li[..k]))])
  }

  /** Merging one more listed block's postings. */
  lemma AccumulateStep(blocks: seq<Block>, lt: string, li: seq<nat>, k: nat, result: Block, prev: Block)
    requires k < |li| && forall m :: 0 <= m < |li| ==> li[m] < |blocks|
    requires Accumulated(blocks, lt, li, k, result, prev)
    ensures Accumulated(blocks, lt, li, k + 1, result, Accumulate(prev, lt, Get(blocks[li[k]], lt)))
  {
    var r := Accumulate(prev, lt, Get(blocks[li[k]], lt));
    if k > 0 {
      assert |r| == |prev|;
    }
    if !HasKey(result, lt) {
      AccumulateNew(blocks, lt, li, k, result, prev);
    }
  }

  /** For a term new to the accumulator, the entry appended for it holds the
      union of the postings of the blocks merged so far. */
  lemma AccumulateNew(blocks: seq<Block>, lt: string, li: seq<nat>, k: nat, result: Block, prev: Block)
    requires k < |li| && forall m :: 0 <= m < |li| ==> li[m] < |blocks|
    requires !HasKey(result, lt) && UniqueKeys(prev)
    requires k == 0 ==> prev == result
    requires k > 0 ==> prev == result + [(lt, UnionOver(blocks, lt, li[..k]))]
    ensures Accumulate(prev, lt, Get(blocks[li[k]], lt)) == result + [(lt, UnionOver(blocks, lt, li[..k + 1]))]
  {
    assert li[..k + 1] == li[..k] + [li[k]];
    UnionOverSnoc(blocks, lt, li[..k], li[k]);
    var data := Get(blocks[li[k]], lt);
    if k == 0 {
      assert UnionOver(blocks, lt, li[..k]) == map[];
      assert map[] + data == data;
    } else {
      var u := UnionOver(blocks, lt, li[..k]);
      assert prev[|prev| - 1] == (lt, u);
      assert prev[..|prev| - 1] == result;
      assert Accumulate(prev, lt, data) == result + [(lt, u + data)];
    }
  }

  /** `merge_blocks(N, T)`: merges the N block files into segment files of
      `floor(T / N)` terms each. With no blocks `T / N` divides by zero; an
      empty block raises IndexError on the first scan. Over sorted blocks
      the segments list every term once, in increasing order, with the
      union of its postings. */
  method MergeBlocks(blocks: seq<Block>, t: nat) returns (r: Result<seq<Block>>)
    requires BelowSentinel(blocks)
    ensures |blocks| == 0 ==> r == Failure(ZeroDivisionError)
    ensures |blocks| > 0 && (exists i :: 0 <= i < |blocks| && |blocks[i]| == 0) ==> r == Failure(IndexError)
    ensures |blocks| > 0 && (forall i :: 0 <= i < |blocks| ==> |blocks[i]| > 0) ==>
              r.Ok? && Segmented(r.value, Capacity(t, |blocks|))
    ensures r.Ok? && AllSorted(blocks) ==> MergeSpec(blocks, t, r.value)
  {
    var n := |blocks|;
    if n == 0 {
      return Failure(ZeroDivisionError);
    }
    var maxTerms := t / n;
    ghost var cap := Capacity(t, n);
    var indexes := seq(n, _ => 0);
    var sizes := seq(n, _ => MaxInt);
    var result: Block := [];
    var segs: seq<Block> := [];
    var numCompleted: nat := 0;
    ghost var first := true;
    InvariantInit(blocks);
    while numCompleted < n
      invariant |indexes| == n && |sizes| == n
      invariant Cursors(blocks, indexes)
      invariant first ==> numCompleted == 0 && result == [] && segs == []
      invariant first ==> forall i :: 0 <= i < n ==> indexes[i] == 0 && sizes[i] == MaxInt
      invariant !first ==> forall i :: 0 <= i < n ==> |blocks[i]| > 0 && sizes[i] == |blocks[i]|
      invariant !first ==> numCompleted == CountDone(blocks, indexes, n)
      invariant UniqueKeys(result) && Filling(segs, result, cap, numCompleted >= n)
      invariant AllSorted(blocks) ==> Invariant(blocks, indexes, Flatten(segs) + result)
      decreases Remaining(blocks, indexes, n)
    {
      ghost var c := indexes;
      if !first {
        SomeActive(blocks, c, n);
      }
      var ok, lt, li, w, sizes' := ScanLowest(blocks, indexes, sizes, first);
      sizes := sizes';
      if !ok {
        return Failure(IndexError);
      }
      if first {
        CountDoneNone(blocks, c, n);
        first := false;
      }
      ghost var result0 := result;
      LowestListed(blocks, c, lt, li, w);
      indexes, result, numCompleted := AdvanceCursors(blocks, indexes, sizes, lt, li, result, numCompleted);
      RemainingDecreases(blocks, c, indexes, w, n);
      if AllSorted(blocks) {
        SortedStep(blocks, c, indexes, segs, result0, result, lt, li, w);
      }
      segs, result := WriteSegment(segs, result, maxTerms, cap, numCompleted == n);
    }
    if AllSorted(blocks) {
      MergeDone(blocks, indexes, segs, t);
    }
    return Ok(segs);
  }

  /** Lines 59-63: the accumulator is written out as the next segment file
      when it holds `max_terms` terms or every block is completed. */
  method WriteSegment(segs: seq<Block>, result: Block, maxTerms: int, ghost cap: nat, done: bool)
    returns (segs': seq<Block>, result': Block)
    requires cap == if maxTerms <= 0 then 1 else maxTerms
    requires UniqueKeys(result) && 1 <= |result| <= cap && forall k :: 0 <= k < |segs| ==> |segs[k]| == cap
    ensures Flatten(segs') + result' == Flatten(segs) + result
    ensures UniqueKeys(result') && Filling(segs', result', cap, done)
  {
    if |result| >= maxTerms || done {
      Flush(segs, result, cap, done);
      FlattenSnoc(segs, result);
      segs', result' := segs + [result], [];
    } else {
      segs', result' := segs, result;
    }
  }

  /** One merge iteration over sorted blocks keeps the invariant on the
      written segments followed by the accumulator. */
  lemma SortedStep(blocks: seq<Block>, c: seq<int>, c': seq<int>, segs: seq<Block>, result0: Block, result: Block,
                   lt: string, li: seq<nat>, w: nat)
    requires AllSorted(blocks) && Invariant(blocks, c, Flatten(segs) + result0)
    requires Lowest(blocks, c, lt, li, w)
    requires |c'| == |c| && forall i :: 0 <= i < |blocks| ==> c'[i] == c[i] + (if i in li then 1 else 0)
    requires !HasKey(result0, lt) ==> result == result0 + [(lt, UnionOver(blocks, lt, li))]
    ensures Invariant(blocks, c', Flatten(segs) + result)
  {
    var e := Flatten(segs) + result0;
    LowestListed(blocks, c, lt, li, w);
    assert Advance(blocks, c, lt, li, w, c');
    Step(blocks, c, e, lt, li, w, c');
    if HasKey(result0, lt) {
      HasKeySuffix(Flatten(segs), result0, lt);
      assert false;
    }
    assert Flatten(segs) + result == e + [(lt, Union(blocks, lt, |blocks|))];
  }

  /** When every block is completed, the written segments are the merge's
      outcome. */
  lemma MergeDone(blocks: seq<Block>, c: seq<int>, segs: seq<Block>, t: nat)
    requires |blocks| > 0 && Invariant(blocks, c, Flatten(segs) + [])
    requires CountDone(blocks, c, |blocks|) >= |blocks|
    requires Segmented(segs, Capacity(t, |blocks|))
    ensures MergeSpec(blocks, t, segs)
  {
    AllDone(blocks, c, |blocks|);
    assert Flatten(segs) + [] == Flatten(segs);
    forall term ensures HasKey(Flatten(segs), term) <==> Occurs(blocks, term) {
      Completion(blocks, c, Flatten(segs), term);
    }
  }
}
