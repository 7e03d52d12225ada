/** `Spimi.merge_blocks` of spimi.py: the same N-way merge as Spimi.py, but
    exhausted blocks are tracked by a set `completed` of block numbers in
    place of a `sizes` array and a counter. (Its `sort_terms` is the one of
    Spimi.py, modelled by `Spimi.SortTerms`.) */
module SpimiSet {
  import opened Dicts
  import opened Errors
  import opened Blocks
  import opened Spimi

  /** The blocks below `n` whose cursor has reached their length. */
  ghost function DoneSet(blocks: seq<Block>, c: seq<int>, n: nat): set<int>
    requires n <= |blocks| && |c| == |blocks|
  {
    set j | 0 <= j < n && c[j] == |blocks[j]|
  }

  /** The set of completed blocks has as many members as `CountDone` counts. */
  lemma {:induction false} DoneSetSize(blocks: seq<Block>, c: seq<int>, n: nat)
    requires n <= |blocks| && |c| == |blocks|
    ensures |DoneSet(blocks, c, n)| == CountDone(blocks, c, n)
    decreases n
  {
    if n > 0 {
      DoneSetSize(blocks, c, n - 1);
      if c[n - 1] == |blocks[n - 1]| {
        assert DoneSet(blocks, c, n) == DoneSet(blocks, c, n - 1) + {n - 1};
      } else {
        assert DoneSet(blocks, c, n) == DoneSet(blocks, c, n - 1);
      }
    }
  }

  /** One scan (lines 27-39): every block not in `completed` is read and the
      least current term is found with the blocks positioned on it. Reading
      the first key of an empty block raises IndexError, which can only
      happen on the first scan, while `completed` is still empty. */
  method ScanLowest(blocks: seq<Block>, indexes: seq<int>, completed: set<int>, ghost first: bool)
    returns (ok: bool, lt: string, li: seq<nat>, ghost w: nat)
    requires |indexes| == |blocks| > 0
    requires BelowSentinel(blocks) && Cursors(blocks, indexes)
    requires first ==> completed == {} && forall i :: 0 <= i < |blocks| ==> indexes[i] == 0
    requires !first ==> (forall i :: 0 <= i < |blocks| ==> |blocks[i]| > 0) && completed == DoneSet(blocks, indexes, |blocks|)
    requires !first ==> exists j :: Active(blocks, indexes, j)
    ensures ok <==> !first || forall i :: 0 <= i < |blocks| ==> |blocks[i]| > 0
    ensures ok ==> Lowest(blocks, indexes, lt, li, w)
  {
    var n := |indexes|;
    ghost var found := false;
    lt, li, w := Lex.Sentinel, [0], 0;
    ScanStart(blocks, indexes);
    for i := 0 to n
      invariant first ==> forall j :: 0 <= j < i ==> |blocks[j]| > 0
      invariant Scanned(blocks, indexes, i, found, lt, li, w)
    {
      if i !in completed {
        if indexes[i] >= |blocks[i]| {
          return false, lt, li, w;
        }
        var key := blocks[i][indexes[i]].0;
        if Lex.Below(key, lt) {
          ScanLower(blocks, indexes, i, found, lt, li, w);
          lt, li, w := key, [i], i;
          found := true;
        } else if key == lt {
          ScanTie(blocks, indexes, i, found, lt, li, w);
          li := li + [i];
        } else {
          ScanPass(blocks, indexes, i, found, lt, li, w);
        }
      } else {
        ScanSkip(blocks, indexes, i, found, lt, li, w);
      }
    }
    ghost var j: nat :| Active(blocks, indexes, j);
    ScanEnd(blocks, indexes, found, lt, li, w, j);
    ok := true;
  }

  /** The advance (lines 41-51): every listed block moves one term on, joins
      `completed` when its cursor reaches its length, and its postings of
      `lt` are merged into the accumulator. */
  method AdvanceCursors(blocks: seq<Block>, indexes: seq<int>, completed: set<int>, lt: string, li: seq<nat>,
                        result: Block)
    returns (indexes': seq<int>, completed': set<int>, result': Block)
    requires Cursors(blocks, indexes) && Listed(blocks, indexes, li) && |li| > 0
    requires UniqueKeys(result)
    requires completed == DoneSet(blocks, indexes, |blocks|)
    ensures |indexes'| == |blocks|
    ensures forall j :: 0 <= j < |blocks| ==> indexes'[j] == indexes[j] + (if j in li then 1 else 0)
    ensures Cursors(blocks, indexes')
    ensures completed <= completed' == DoneSet(blocks, indexes', |blocks|)
    ensures UniqueKeys(result') && 1 <= |result'| <= |result| + 1
    ensures !HasKey(result, lt) ==> result' == result + [(lt, UnionOver(blocks, lt, li))]
  {
    var n := |indexes|;
    indexes', completed', result' := indexes, completed, result;
    for k := 0 to |li|
      invariant |indexes'| == n
      invariant forall j :: 0 <= j < n ==> indexes'[j] == indexes[j] + (if j in li[..k] then 1 else 0)
      invariant Cursors(blocks, indexes')
      invariant completed <= completed' == DoneSet(blocks, indexes', n)
      invariant Accumulated(blocks, lt, li, k, result, result')
    {
      var l := li[k];
      ghost var before := indexes';
      MoveCursor(blocks, indexes, li, k, before);
      indexes' := indexes'[l := indexes'[l] + 1];
      if indexes'[l] == |blocks[l]| {
        completed' := completed' + {l};
      }
      assert completed' == DoneSet(blocks, indexes', n) by {
        assert forall j :: 0 <= j < n && j != l ==> indexes'[j] == before[j];
      }
      AccumulateStep(blocks, lt, li, k, result, result');
      result' := Accumulate(result', lt, Get(blocks[l], lt));
    }
    assert li[..|li|] == li;
  }

  /** `merge_blocks(N, T)` of spimi.py: the outcome agrees with the
      `sizes`-array variant: no blocks divide by zero, an empty block raises
      IndexError, and over sorted blocks the segments list every term once,
      in increasing order, with the union of its postings. */
  method MergeBlocks(blocks: seq<Block>, t: nat) returns (r: Result<seq<Block>>)
    requires BelowSentinel(blocks)
    ensures |blocks| == 0 ==> r == Failure(ZeroDivisionError)
    ensures |blocks| > 0 && (exists i :: 0 <= i < |blocks| && |blocks[i]| == 0) ==> r == Failure(IndexError)
    ensures |blocks| > 0 && (forall i :: 0 <= i < |blocks| ==> |blocks[i]| > 0) ==>
              r.Ok? && Segmented(r.value, Capacity(t, |blocks|))
    ensures r.Ok? && AllSorted(blocks) ==> MergeSpec(blocks, t, r.value)
  {
    var n := |blocks|;
    if n == 0 {
      return Failure(ZeroDivisionError);
    }
    var maxTerms := t / n;
    ghost var cap := Capacity(t, n);
    var indexes := seq(n, _ => 0);
    var result: Block := [];
    var segs: seq<Block> := [];
    var completed: set<int> := {};
    ghost var first := true;
    InvariantInit(blocks);
    while |completed| < n
      invariant |indexes| == n && Cursors(blocks, indexes)
      invariant first ==> completed == {} && result == [] && segs == []
      invariant first ==> forall i :: 0 <= i < n ==> indexes[i] == 0
      invariant !first ==> (forall i :: 0 <= i < n ==> |blocks[i]| > 0) && completed == DoneSet(blocks, indexes, n)
      invariant |completed| <= n
      invariant UniqueKeys(result) && Filling(segs, result, cap, |completed| >= n)
      invariant AllSorted(blocks) ==> Invariant(blocks, indexes, Flatten(segs) + result)
      decreases Remaining(blocks, indexes, n)
    {
      ghost var c := indexes;
      if !first {
        DoneSetSize(blocks, c, n);
        SomeActive(blocks, c, n);
      }
      var ok, lt, li, w := ScanLowest(blocks, indexes, completed, first);
      if !ok {
        return Failure(IndexError);
      }
      if first {
        assert DoneSet(blocks, c, n) == {};
        first := false;
      }
      ghost var result0 := result;
      LowestListed(blocks, c, lt, li, w);
      indexes, completed, result := AdvanceCursors(blocks, indexes, completed, lt, li, result);
      DoneSetSize(blocks, indexes, n);
      RemainingDecreases(blocks, c, indexes, w, n);
      if AllSorted(blocks) {
        SortedStep(blocks, c, indexes, segs, result0, result, lt, li, w);
      }
      segs, result := WriteSegment(segs, result, maxTerms, cap, |completed| == n);
    }
    if AllSorted(blocks) {
      DoneSetSize(blocks, indexes, n);
      MergeDone(blocks, indexes, segs, t);
    }
    return Ok(segs);
  }
}
