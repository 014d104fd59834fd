/** Induction up to a number, over a property that stays unopened. */
module Induction {
  lemma {:induction false} UpTo(p: int -> bool, n: nat)
    requires p(0) && forall k | 0 <= k < n && p(k) :: p(k + 1)
    ensures p(n)
  {
    if n > 0 {
      UpTo(p, n - 1);
    }
  }
}
