/** Runs of an arbitrary step function.  Stating induction here keeps the definition of the supervisor's step out
    of proofs that do not need it. */
module Stepping {

  /** `run` lists the states of a run. */
  ghost predicate IsRun<S(!new)>(step: S -> S, run: nat -> S) { forall n: nat :: run(n + 1) == step(run(n)) }

  function Iterate<S>(step: S -> S, s: S, k: nat): S {
    if k == 0 then s else step(Iterate(step, s, k - 1))
  }

  lemma {:induction false} IterateShift<S>(step: S -> S, s: S, k: nat)
    ensures Iterate(step, s, k + 1) == Iterate(step, step(s), k)
  {
    if k > 0 { IterateShift(step, s, k - 1); }
  }

  /** Iterating `k` times from state `n` of a run gives state `n + k`. */
  lemma {:induction false} IterateOnRun<S(!new)>(step: S -> S, run: nat -> S, n: nat, k: nat)
    requires IsRun(step, run)
    ensures Iterate(step, run(n), k) == run(n + k)
    decreases k
  {
    if k > 0 {
      IterateOnRun(step, run, n, k - 1);
      assert run(n + k - 1 + 1) == step(run(n + k - 1));
    }
  }

  /** What every step keeps holds from any state on. */
  lemma {:induction false} Along<S(!new)>(step: S -> S, run: nat -> S, keeps: S -> bool, k: nat, n: nat)
    requires IsRun(step, run) && k <= n && keeps(run(k))
    requires forall s :: keeps(s) ==> keeps(step(s))
    ensures keeps(run(n))
    decreases n
  {
    if k < n {
      Along(step, run, keeps, k, n - 1);
      assert run(n - 1 + 1) == step(run(n - 1));
    }
  }

  /** The same for a relation between a state and all later ones. */
  lemma {:induction false} AlongRelation<S(!new)>(step: S -> S, run: nat -> S, related: (S, S) -> bool, k: nat, n: nat)
    requires IsRun(step, run) && k <= n
    requires forall s :: related(s, s) && related(s, step(s))
    requires forall a, b, c :: related(a, b) && related(b, c) ==> related(a, c)
    ensures related(run(k), run(n))
    decreases n
  {
    if k < n {
      AlongRelation(step, run, related, k, n - 1);
      assert run(n - 1 + 1) == step(run(n - 1));
      assert related(run(n - 1), step(run(n - 1)));
    }
  }
}
