/** Tables as maps from row id to row, and the queries the store runs on them. */
module Rows {
  import opened Strings

  /** GORM's `First`: the row with the least id, from `lo` on, that satisfies `p`. */
  function First<T>(rows: map<nat, T>, p: T -> bool, lo: nat, hi: nat): (r: Option<nat>)
    ensures r.Some? ==> r.value in rows && p(rows[r.value]) && lo <= r.value < hi
    ensures r.Some? ==> forall i :: lo <= i < r.value && i in rows ==> !p(rows[i])
    ensures r.None? ==> forall i :: lo <= i < hi && i in rows ==> !p(rows[i])
    decreases hi - lo
  {
    if lo >= hi then None
    else if lo in rows && p(rows[lo]) then Some(lo)
    else First(rows, p, lo + 1, hi)
  }
}
