/**
 What several models share.
 */
module Common {
  datatype Option<T> = None | Some(value: T)

  lemma {:induction false} SubsetSize<T>(a: set<T>, b: set<T>)
    requires a <= b
    ensures |a| <= |b|
  {
    assert b == a + (b - a);
  }

  // The n numbers from lo on.
  function Interval(lo: nat, n: nat): (r: set<nat>) { if n == 0 then {} else Interval(lo, n - 1) + {lo + n - 1} }

  lemma {:induction false} IntervalSize(lo: nat, n: nat)
    ensures |Interval(lo, n)| == n && forall m :: m in Interval(lo, n) <==> lo <= m < lo + n
  {
    if n > 0 { IntervalSize(lo, n - 1); }
  }
}
