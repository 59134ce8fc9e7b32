/** Counting facts about duplicate-free sequences, shared by the queues and the allocators. */
module Pigeonhole {

  ghost predicate Distinct(q: seq<nat>) {
    forall i, j | 0 <= i < j < |q| :: q[i] != q[j]
  }

  /** A duplicate-free sequence of numbers from an interval is no longer than the interval. */
  lemma {:induction false} DistinctFits(q: seq<nat>, lo: nat, hi: nat)
    requires Distinct(q) && lo <= hi && forall i | 0 <= i < |q| :: lo <= q[i] < hi
    ensures |q| <= hi - lo
    decreases hi
  {
    if q == [] {
      return;
    }
    assert lo <= q[0] < hi;
    if hi - 1 in q {
      var k :| 0 <= k < |q| && q[k] == hi - 1;
      var r := q[..k] + q[k + 1..];
      assert forall i | 0 <= i < |r| :: r[i] == q[if i < k then i else i + 1] && r[i] != q[k];
      DistinctFits(r, lo, hi - 1);
    } else {
      DistinctFits(q, lo, hi - 1);
    }
  }
}
