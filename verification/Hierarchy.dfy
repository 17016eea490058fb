/** Trees of running supervisors: every supervisor goroutine of a run is itself a run (internal/s/subtree.go). */
module Hierarchy {
  import opened Types
  import opened Engine
  import opened Ledger
  import opened Runs
  import NilMap
  import Stepping

  /** A goroutine of a supervisor: a worker, or a supervisor that failed before its loop; or a supervisor after `n`
      steps of its own, with what each of its goroutines, of every incarnation, runs. */
  datatype Org = Leaf | Node(o: Oracle, cfg: Config, specs: seq<ChildSpec>, n: nat, below: seq<Org>)

  function St(x: Org): Sys
    requires x.Node?
  {
    Run(x.o, x.cfg, x.specs, x.n)
  }

  /** The supervisor goroutine is over. */
  predicate Ended(st: Status) { st.Finished? || st.StartAborted? || st.Panicked? }

  /** A supervisor goroutine reports a failed start, and ends, only after its own run has ended. */
  ghost predicate Matches(p: Proc, x: Org) {
    && (x.Node? ==> p.spec.tag.Supervisor?)
    && (p.started && p.spec.tag.Supervisor? ==> x.Node?)
    && (x.Node? && (!p.started || !p.phase.Running?) ==> Ended(St(x).status))
  }

  ghost predicate Consistent(x: Org)
    decreases x
  {
    x.Node? ==>
      && |x.below| == |St(x).w.procs|
      && forall id :: 0 <= id < |x.below| ==> Matches(St(x).w.procs[id], x.below[id]) && Consistent(x.below[id])
  }

  /** Every supervisor has distinct names and no accidents. */
  ghost predicate Orderly(x: Org)
    decreases x
  {
    x.Node? ==>
      && NamesStayDistinct(x.o, x.cfg, x.specs, x.n) && FaultFree(St(x).w.procs)
      && forall id :: 0 <= id < |x.below| ==> Orderly(x.below[id])
  }

  ghost predicate NobodyPanicked(x: Org)
    decreases x
  {
    x.Node? ==> !St(x).status.Panicked? && forall id :: 0 <= id < |x.below| ==> NobodyPanicked(x.below[id])
  }

  /** No started child of any supervisor is live. */
  ghost predicate NobodyLives(x: Org)
    decreases x
  {
    x.Node? ==> AllDelivered(St(x).w.procs) && forall id :: 0 <= id < |x.below| ==> NobodyLives(x.below[id])
  }

  // ----- The child whose spawn crashed its supervisor ---------------------------------------------------------

  /** The child whose entry the nil map refused is still running, and nobody will ever stop it. */
  ghost predicate Stranded(s: Sys) {
    s.status.Panicked? && s.status.crash.NilMapWrite? ==>
      var ch := s.status.crash.child;
      ch.id < |s.w.procs| && s.w.procs[ch.id].started && s.w.procs[ch.id].phase.Running?
  }

  lemma StrandedStep(o: Oracle, cfg: Config, s: Sys)
    requires Stranded(s)
    ensures Stranded(Step(o, cfg, s))
  {
    if !s.status.Panicked? { NilMap.NilWriteExactly(o, cfg, s); }
  }

  lemma {:induction false} StrandedAlways(o: Oracle, cfg: Config, specs: seq<ChildSpec>, n: nat)
    ensures Stranded(Run(o, cfg, specs, n))
  {
    var step, run := Stepper(o, cfg), States(o, cfg, specs);
    StatesAreRun(o, cfg, specs);
    assert run(0) == Start(o, cfg, specs);
    forall s | Stranded(s) ensures Stranded(step(s)) { StrandedStep(o, cfg, s); }
    Stepping.Along(step, run, (s: Sys) => Stranded(s), 0, n);
  }

  /** One supervisor that is over: all its started children have been delivered exactly when it has not panicked. */
  lemma {:induction false} DeliveredExactly(o: Oracle, cfg: Config, specs: seq<ChildSpec>, n: nat)
    requires NamesStayDistinct(o, cfg, specs, n) && FaultFree(Run(o, cfg, specs, n).w.procs)
    requires Ended(Run(o, cfg, specs, n).status)
    ensures AllDelivered(Run(o, cfg, specs, n).w.procs) <==> !Run(o, cfg, specs, n).status.Panicked?
  {
    if Run(o, cfg, specs, n).status.Panicked? {
      ReachableIsGood(o, cfg, specs, n);
      StrandedAlways(o, cfg, specs, n);
    } else {
      NobodyOutlivesTheSupervisor(o, cfg, specs, n);
    }
  }

  // ----- The whole tree ---------------------------------------------------------------------------------------

  /** Below a supervisor without live children, every supervisor is over. */
  lemma {:induction false} BelowIsOver(x: Org, id: nat)
    requires x.Node? && Consistent(x) && AllDelivered(St(x).w.procs) && id < |x.below| && x.below[id].Node?
    ensures Ended(St(x.below[id]).status)
  {
    assert Matches(St(x).w.procs[id], x.below[id]);
  }

  /** Once the root of a tree of supervisors is over, by its context, by giving up or by a failed start, nobody in the
      whole tree is live, of any incarnation of any subtree, exactly when no supervisor of the tree has panicked. */
  lemma {:induction false} NobodyOutlivesTheRoot(x: Org)
    requires Consistent(x) && Orderly(x) && (x.Node? ==> Ended(St(x).status))
    ensures NobodyLives(x) <==> NobodyPanicked(x)
    decreases x
  {
    if x.Node? {
      DeliveredExactly(x.o, x.cfg, x.specs, x.n);
      if !St(x).status.Panicked? {
        forall id | 0 <= id < |x.below| ensures NobodyLives(x.below[id]) <==> NobodyPanicked(x.below[id]) {
          if x.below[id].Node? { BelowIsOver(x, id); }
          NobodyOutlivesTheRoot(x.below[id]);
        }
      }
    }
  }
}
