/** Facts that some steps of a run establish and others end. */
module Histories {
  /** A fact that some steps establish and others end holds after `n` steps exactly when a step established it
      and none behind that step ended it. */
  lemma {:induction false} LastWriter(n: nat, holds: nat -> bool, adds: nat -> bool, ends: nat -> bool)
    requires !holds(0)
    requires forall i :: 0 <= i < n ==> (holds(i + 1) <==> adds(i) || (holds(i) && !ends(i)))
    ensures holds(n) <==> exists k :: 0 <= k < n && adds(k) && forall j :: k < j < n ==> !ends(j)
    decreases n
  {
    if n > 0 {
      LastWriter(n - 1, holds, adds, ends);
      assert holds((n - 1) + 1) <==> adds(n - 1) || (holds(n - 1) && !ends(n - 1));
    }
  }
}
