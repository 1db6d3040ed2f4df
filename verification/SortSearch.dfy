/** Go's sort.Search: bisection for the boundary of a predicate. */
module SortSearch {
  /** Bisects [lo, hi): the result is a boundary of `holds`, and its least index when `holds` is
      monotone there. */
  function Search(holds: nat -> bool, lo: nat, hi: nat): (r: nat)
    requires lo <= hi
    ensures lo <= r <= hi
    ensures r < hi ==> holds(r)
    ensures lo < r ==> !holds(r - 1)
    decreases hi - lo
  {
    if lo == hi then lo
    else
      var mid := (lo + hi) / 2;
      if holds(mid) then Search(holds, lo, mid) else Search(holds, mid + 1, hi)
  }

  lemma SearchIsLeast(holds: nat -> bool, lo: nat, hi: nat, r: nat)
    requires lo <= hi && r == Search(holds, lo, hi)
    requires forall i: nat, j: nat :: lo <= i <= j < hi && holds(i) ==> holds(j)
    ensures forall i: nat :: lo <= i < r ==> !holds(i)
    ensures forall i: nat :: r <= i < hi ==> holds(i)
  {
    if lo < r {
      var last: nat := r - 1;
      assert !holds(last);
      assert forall i: nat :: lo <= i <= last ==> (holds(i) ==> holds(last));
    }
  }
}
