/** Counting by distinct numbers. */
module Pigeonhole {

  /** Distinct numbers below a bound are at most as many as the bound. */
  lemma {:induction false} InjectiveBelow(f: map<nat, nat>, bound: nat)
    requires forall x | x in f :: f[x] < bound
    requires forall x, y | x in f && y in f && f[x] == f[y] :: x == y
    ensures |f| <= bound
    decreases bound
  {
    if x :| x in f && f[x] == bound - 1 {
      var rest := f - {x};
      assert f == rest[x := f[x]];
      InjectiveBelow(rest, bound - 1);
    } else if bound > 0 {
      InjectiveBelow(f, bound - 1);
    } else {
      assert f == map[];
    }
  }
}
