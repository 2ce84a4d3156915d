/** Shared datatypes and a counting argument used by several components. */
module Base {
  datatype Option<+T> = None | Some(value: T)

  datatype Result<+T, +E> = Ok(value: T) | Err(error: E)

  /** A lifetime the store accepts: Redis refuses a zero or negative one. */
  type Lifetime = n: int | 0 < n witness 1

  const MS := 1000

  function Min(a: int, b: int): int {
    if a <= b then a else b
  }

  function Max(a: int, b: int): int {
    if a <= b then b else a
  }

  /** Pigeonhole: distinct labels drawn from lo..hi bound the number of indices. */
  lemma {:induction false} DistinctLabels(indices: set<int>, tag: map<int, int>, lo: int, hi: int)
    requires indices <= tag.Keys
    requires forall i :: i in indices ==> lo <= tag[i] < hi
    requires forall i, j :: i in indices && j in indices && i != j ==> tag[i] != tag[j]
    ensures |indices| <= if lo <= hi then hi - lo else 0
    decreases if lo <= hi then hi - lo else 0
  {
    if lo >= hi {
      assert forall i :: i !in indices;
      assert indices == {};
    } else if top :| top in indices && tag[top] == hi - 1 {
      DistinctLabels(indices - {top}, tag, lo, hi - 1);
    } else {
      DistinctLabels(indices, tag, lo, hi - 1);
    }
  }

  lemma {:induction false} RangeSize(xs: set<int>, lo: int, hi: int)
    requires lo <= hi
    requires forall x :: x in xs <==> lo <= x < hi
    ensures |xs| == hi - lo
    decreases hi - lo
  {
    if lo == hi {
      assert forall x :: x !in xs;
      assert xs == {};
    } else {
      RangeSize(xs - {hi - 1}, lo, hi - 1);
      assert hi - 1 in xs;
    }
  }
}
