/** Control messages over whole runs: whatever is spawned, stopped and restarted, the spec list keeps the order in
    which the children were spawned, and the children map holds all of them but the retired ones
    (internal/s/dyn_supervisor.go). */
module Dynamic {
  import opened Types
  import opened Engine
  import opened Ledger
  import opened Operations
  import opened Runs
  import opened Retirement
  import DynSlice
  import Stepping
  import Tolerance

  // ----- What one step does to the spec list -------------------------------------------------------------

  ghost predicate Edited(a: seq<ChildSpec>, b: seq<ChildSpec>) {
    b == a || (exists spec :: b == a + [spec]) || (exists name :: b == DynSlice.Without(a, name))
  }

  lemma {:induction false} StopEdits(o: Oracle, s: Sys, name: string)
    requires DynSlice.DistinctNames(s.specs)
    ensures StopChild(o, s, name).specs == if name in s.children then DynSlice.Without(s.specs, name) else s.specs
  {
    DynSlice.DeleteWithDistinctNames(s.specs, name);
  }

  lemma ExecKeepsSpecs(o: Oracle, cfg: Config, s: Sys, source: Child)
    ensures BackoffAndRestart(o, cfg, s, source).specs == s.specs
  {}

  lemma TurnEdits(o: Oracle, cfg: Config, s: Sys)
    requires DynSlice.DistinctNames(s.specs) && s.status.Looping?
    ensures Edited(s.specs, LoopTurn(o, cfg, s).specs)
  {
    var s1 := s.(w := Interfere(o, s.w));
    match o(s.w.tick).turn {
      case Shutdown =>
      case Notify(id) => if id < |s1.w.procs| && s1.w.procs[id].phase.Exiting? { HandlingMeans(s1, id); }
      case Spawn(spec) =>
      case Stop(name) => StopEdits(o, s1, name);
    }
  }

  /** A step appends one spec, filters out one name, or leaves the list alone. */
  lemma StepEdits(o: Oracle, cfg: Config, s: Sys)
    requires DynSlice.DistinctNames(s.specs)
    ensures Edited(s.specs, Step(o, cfg, s).specs)
  {
    match s.status {
      case Looping => TurnEdits(o, cfg, s);
      case Restarting(source, prev) =>
        if prev.None? {
          ExecKeepsSpecs(o, cfg, s, source);
        } else {
          var a := Tolerance.Admit(s.mgr, prev.value, o(s.w.tick).clock);
          ExecKeepsSpecs(o, cfg, s.(w := Interfere(o, s.w), mgr := a.mgr), source);
        }
      case _ =>
    }
  }

  // ----- Spawn order ------------------------------------------------------------------------------------------

  function Added(a: seq<ChildSpec>, b: seq<ChildSpec>): seq<ChildSpec> {
    if |b| > |a| then [b[|b| - 1]] else []
  }

  /** The specs a run began with, followed by those of its successful spawns. */
  function Log(run: nat -> Sys, n: nat): seq<ChildSpec> {
    if n == 0 then run(0).specs else Log(run, n - 1) + Added(run(n - 1).specs, run(n).specs)
  }

  /** Reference: `sub` lists elements of `all` at increasing positions. */
  ghost predicate InOrder(sub: seq<ChildSpec>, all: seq<ChildSpec>, at: seq<nat>) {
    && |at| == |sub|
    && (forall i :: 0 <= i < |at| ==> at[i] < |all| && all[at[i]] == sub[i])
    && (forall i, j :: 0 <= i < j < |at| ==> at[i] < at[j])
  }

  lemma {:induction false} WithoutIsInOrder(specs: seq<ChildSpec>, name: string, all: seq<ChildSpec>, at: seq<nat>)
    returns (at': seq<nat>)
    requires InOrder(specs, all, at)
    ensures InOrder(DynSlice.Without(specs, name), all, at')
    ensures at' != [] ==> at != [] && at[0] <= at'[0]
  {
    if specs == [] {
      at' := [];
    } else {
      var tail := specs[1..];
      InOrderTail(specs, all, at);
      at' := WithoutIsInOrder(tail, name, all, at[1..]);
      if specs[0].name != name {
        InOrderCons(at[0], DynSlice.Without(tail, name), all, at');
        at' := [at[0]] + at';
        assert DynSlice.Without(specs, name) == [specs[0]] + DynSlice.Without(tail, name);
      } else {
        assert DynSlice.Without(specs, name) == [] + DynSlice.Without(tail, name) == DynSlice.Without(tail, name);
      }
    }
  }

  lemma InOrderTail(sub: seq<ChildSpec>, all: seq<ChildSpec>, at: seq<nat>)
    requires InOrder(sub, all, at) && sub != []
    ensures InOrder(sub[1..], all, at[1..]) && all[at[0]] == sub[0]
    ensures at[1..] != [] ==> at[0] < at[1..][0]
  {}

  lemma InOrderCons(k: nat, sub: seq<ChildSpec>, all: seq<ChildSpec>, at: seq<nat>)
    requires InOrder(sub, all, at) && k < |all| && (at != [] ==> k < at[0])
    ensures InOrder([all[k]] + sub, all, [k] + at)
  {}

  lemma EditKeepsOrder(a: seq<ChildSpec>, b: seq<ChildSpec>, log: seq<ChildSpec>, at: seq<nat>) returns (at': seq<nat>)
    requires InOrder(a, log, at) && Edited(a, b)
    ensures InOrder(b, log + Added(a, b), at')
  {
    if b == a {
      at' := at;
    } else if exists spec :: b == a + [spec] {
      at' := at + [|log|];
    } else {
      var name :| b == DynSlice.Without(a, name);
      WithoutIsShorter(a, name);
      at' := WithoutIsInOrder(a, name, log, at);
    }
  }

  lemma {:induction false} WithoutIsShorter(specs: seq<ChildSpec>, name: string)
    ensures |DynSlice.Without(specs, name)| <= |specs|
  {
    if specs != [] { WithoutIsShorter(specs[1..], name); }
  }

  ghost predicate KeepsOrder(step: Sys -> Sys) {
    forall s: Sys :: DynSlice.DistinctNames(s.specs) ==> Edited(s.specs, step(s).specs)
  }

  lemma {:induction false} OrderAlong(step: Sys -> Sys, run: nat -> Sys, n: nat) returns (at: seq<nat>)
    requires Stepping.IsRun(step, run) && KeepsOrder(step)
    requires forall k: nat :: k <= n ==> DynSlice.DistinctNames(run(k).specs)
    ensures InOrder(run(n).specs, Log(run, n), at)
  {
    if n == 0 {
      at := seq(|run(0).specs|, i => i);
    } else {
      var before := OrderAlong(step, run, n - 1);
      assert run(n - 1 + 1) == step(run(n - 1)) && DynSlice.DistinctNames(run(n - 1).specs);
      at := EditKeepsOrder(run(n - 1).specs, run(n).specs, Log(run, n - 1), before);
    }
  }

  /** In every run with distinct names, under either strategy and whatever accidents happen, the spec list is in spawn
      order. */
  lemma {:induction false} SpecsKeepSpawnOrder(o: Oracle, cfg: Config, specs: seq<ChildSpec>, n: nat)
      returns (at: seq<nat>)
    requires NamesStayDistinct(o, cfg, specs, n)
    ensures InOrder(Run(o, cfg, specs, n).specs, Log(States(o, cfg, specs), n), at)
  {
    var step, run := Stepper(o, cfg), States(o, cfg, specs);
    StatesAreRun(o, cfg, specs);
    forall s: Sys | DynSlice.DistinctNames(s.specs) ensures Edited(s.specs, step(s).specs) { StepEdits(o, cfg, s); }
    forall k: nat | k <= n ensures DynSlice.DistinctNames(run(k).specs) {
      assert DynSlice.DistinctNames(Run(o, cfg, specs, k).specs);
    }
    at := OrderAlong(step, run, n);
  }

  // ----- Specs and children ----------------------------------------------------------------------------------

  /** The children map holds exactly the names of the spec list. */
  ghost predicate InStep(s: Sys) { forall name :: name in s.children <==> Named(s.specs, name) }

  /** A one-for-one supervisor that takes control messages has a child for every listed spec exactly when none of
      them has retired. */
  lemma {:induction false} SpecsAndChildrenAgreeExactly(o: Oracle, cfg: Config, specs: seq<ChildSpec>, n: nat)
    requires cfg.strategy.OneForOne? && NamesStayDistinct(o, cfg, specs, n) && FaultFree(Run(o, cfg, specs, n).w.procs)
    requires !Run(o, cfg, specs, n).status.StartAborted?
    ensures var s := Run(o, cfg, specs, n); InStep(s) <==> forall spec :: spec in s.specs ==> !Retired(s.w.procs, spec)
  {
    MapIsSpecsMinusRetired(o, cfg, specs, n);
    assert DynSlice.DistinctNames(Run(o, cfg, specs, n).specs);
    AgreeExactly(Run(o, cfg, specs, n));
  }

  lemma AgreeExactly(s: Sys)
    requires forall spec :: spec in s.specs ==> (spec.name in s.children <==> !Retired(s.w.procs, spec))
    requires forall name ::
               name in s.children ==> s.children[name].spec in s.specs && s.children[name].spec.name == name
    ensures InStep(s) <==> forall spec :: spec in s.specs ==> !Retired(s.w.procs, spec)
  {
    if InStep(s) {
      forall spec | spec in s.specs ensures !Retired(s.w.procs, spec) { assert Named(s.specs, spec.name); }
    }
  }

  /** In particular when every listed child is permanent. */
  lemma {:induction false} SpecsAndChildrenAgree(o: Oracle, cfg: Config, specs: seq<ChildSpec>, n: nat)
    requires cfg.strategy.OneForOne? && NamesStayDistinct(o, cfg, specs, n) && FaultFree(Run(o, cfg, specs, n).w.procs)
    requires !Run(o, cfg, specs, n).status.StartAborted?
    requires forall spec :: spec in Run(o, cfg, specs, n).specs ==> spec.restart.Permanent?
    ensures InStep(Run(o, cfg, specs, n))
  {
    SpecsAndChildrenAgreeExactly(o, cfg, specs, n);
    PermanentNeverRetires(Run(o, cfg, specs, n).w.procs);
  }

  lemma PermanentNeverRetires(procs: seq<Proc>)
    ensures forall spec: ChildSpec :: spec.restart.Permanent? ==> !Retired(procs, spec)
  {}
}
