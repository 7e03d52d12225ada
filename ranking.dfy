/** The last step every ranking variant shares: a query's scores sorted by
    score, highest first, with
    `dict(sorted(scores.items(), key=operator.itemgetter(1), reverse=True))`. */
module Ranking {
  import opened Dicts
  import Sorting

  /** The sort key that turns Python's stable `reverse=True` sort into a
      stable ascending one. */
  function Neg(v: real): real {
    -v
  }

  /** Scores ordered from the highest down; entries with equal scores keep
      their order, as Python's sort is stable also with `reverse=True`. */
  function Ranked(scores: Dict<real>): Dict<real> {
    Sorting.SortBy(scores, Neg)
  }

  /** Scores never increase along `d`. */
  ghost predicate Descending(d: Dict<real>) {
    forall i, j :: 0 <= i < j < |d| ==> d[i].1 >= d[j].1
  }

  /** The entries of `d` with score `v`, in order. */
  function Tied(d: Dict<real>, v: real): Dict<real> {
    Sorting.With(d, Neg, -v)
  }

  /** Ranking reorders the entries only: highest score first, the same
      entries, the same mapping when the documents are distinct, and
      documents with equal scores in their original order. */
  lemma RankedSpec(scores: Dict<real>)
    ensures Descending(Ranked(scores))
    ensures multiset(Ranked(scores)) == multiset(scores)
    ensures forall v :: Tied(Ranked(scores), v) == Tied(scores, v)
    ensures UniqueKeys(scores) ==> UniqueKeys(Ranked(scores)) && ToMap(Ranked(scores)) == ToMap(scores)
  {
    var r := Ranked(scores);
    Sorting.SortBySpec(scores, Neg);
    forall i, j | 0 <= i < j < |r| ensures r[i].1 >= r[j].1 {
      assert Neg(r[i].1) <= Neg(r[j].1);
    }
    if UniqueKeys(scores) {
      Sorting.PermutationUnique(scores, r);
      Sorting.SameEntriesSameMap(scores, r);
    }
  }
}
