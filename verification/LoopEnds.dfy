/** Exactly which tolerances make every restart loop end, over all runs of all supervisors (`execRestartLoop`). */
module LoopEnds {
  import opened Types
  import opened Ordering
  import opened Engine
  import opened RestartLoop
  import Stepping
  import Tolerance

  /** Nothing is ever forgotten, and the counter can be surpassed. */
  predicate Bounded(p: Tolerance.Policy) { Tolerance.CounterFits(p) && p.window == 0 }

  ghost predicate LeavesLater(run: nat -> Sys, n: nat) { exists k: nat :: k > n && !run(k).status.Restarting? }

  /** Whatever the children and the environment, no run stays in its restart loop. */
  ghost predicate EveryLoopEnds(cfg: Config) {
    forall o: Oracle, specs: seq<ChildSpec>, n: nat ::
      Run(o, cfg, specs, n).status.Restarting? ==> LeavesLater(States(o, cfg, specs), n)
  }

  // ----- Bounded tolerance ends every loop ---------------------------------------------------------------

  lemma {:induction false} ZeroWindowCount<E>(p: Tolerance.Policy, fs: seq<Tolerance.Fail<E>>)
    requires p.window == 0 && Tolerance.CounterFits(p)
    ensures Tolerance.After(p, fs).count <= p.max && Tolerance.After(p, fs).policy == p
  {
    if fs != [] { ZeroWindowCount(p, fs[..|fs| - 1]); }
  }

  lemma {:induction false} Leaves(o: Oracle, cfg: Config, s: Sys)
    requires s.status.Restarting? && s.mgr.policy == cfg.policy && s.mgr.count <= cfg.policy.max && Bounded(cfg.policy)
    ensures exists k: nat :: k > 0 && !Path(o, cfg, s)(k).status.Restarting?
  {
    var attempts := Left(cfg, s) + if s.status.prev.None? then 1 else 0;
    if s.status.prev.Some? { LoopEndsAfterError(o, cfg, s); } else { LoopEndsAfterCompletion(o, cfg, s); }
    var k: nat :| EndsAt(cfg, Path(o, cfg, s)(k), k, attempts);
    assert k > 0 && !Path(o, cfg, s)(k).status.Restarting?;
  }

  lemma {:induction false} LeavesOnRun(o: Oracle, cfg: Config, specs: seq<ChildSpec>, n: nat)
    requires exists k: nat :: k > 0 && !Path(o, cfg, Run(o, cfg, specs, n))(k).status.Restarting?
    ensures LeavesLater(States(o, cfg, specs), n)
  {
    var run := States(o, cfg, specs);
    var k: nat :| k > 0 && !Path(o, cfg, run(n))(k).status.Restarting?;
    StatesAreRun(o, cfg, specs);
    Stepping.IterateOnRun(Stepper(o, cfg), run, n, k);
    assert n + k > n && !run(n + k).status.Restarting?;
  }

  lemma {:induction false} BoundedLeaves(o: Oracle, cfg: Config, specs: seq<ChildSpec>, n: nat)
    requires Bounded(cfg.policy) && Run(o, cfg, specs, n).status.Restarting?
    ensures LeavesLater(States(o, cfg, specs), n)
  {
    ManagerFollows(o, cfg, specs, n);
    ZeroWindowCount(cfg.policy, Fed(o, cfg, specs, n));
    Leaves(o, cfg, Run(o, cfg, specs, n));
    LeavesOnRun(o, cfg, specs, n);
  }

  // ----- No tolerance at all, and a clock that does not jump over a window ------------------------------------

  predicate PromptCall(p: Tolerance.Policy, c: Tolerance.Clock) { c.checked - c.began < p.window }

  /** No window is so short that it closes between two readings of the clock within a call. */
  ghost predicate Prompt(o: Oracle, p: Tolerance.Policy) {
    forall t: nat :: PromptCall(p, o(t).clock)
  }

  lemma RefusesFirst(o: Oracle, cfg: Config, s: Sys)
    requires s.status.Restarting? && s.status.prev.Some? && s.mgr == Tolerance.Fresh(cfg.policy)
    requires cfg.policy.max == 0 && cfg.policy.window > 0 && Prompt(o, cfg.policy)
    ensures Step(o, cfg, s).status.Finished?
  {
    assert PromptCall(cfg.policy, o(s.w.tick).clock);
    assert !Tolerance.Admit(s.mgr, s.status.prev.value, o(s.w.tick).clock).ok;
  }

  /** The first error ends the loop. */
  lemma {:induction false} LeavesAtOnce(o: Oracle, cfg: Config, s: Sys)
    requires s.status.Restarting? && s.mgr == Tolerance.Fresh(cfg.policy)
    requires cfg.policy.max == 0 && cfg.policy.window > 0 && Prompt(o, cfg.policy)
    ensures exists k: nat :: k > 0 && !Path(o, cfg, s)(k).status.Restarting?
  {
    StepPrecedes(o, cfg, s);
    var s1 := Step(o, cfg, s);
    assert Path(o, cfg, s)(0 + 1) == Path(o, cfg, s1)(0);
    if s.status.prev.Some? {
      RefusesFirst(o, cfg, s);
      assert !Path(o, cfg, s)(1).status.Restarting?;
    } else {
      ExecKeepsCount(o, cfg, s, s.status.source);
      if s1.status.Restarting? {
        RefusesFirst(o, cfg, s1);
        StepPrecedes(o, cfg, s1);
        assert Path(o, cfg, s1)(0 + 1) == Path(o, cfg, Step(o, cfg, s1))(0);
        assert Path(o, cfg, s)(1 + 1) == Path(o, cfg, s1)(1);
        assert !Path(o, cfg, s)(2).status.Restarting?;
      } else {
        assert !Path(o, cfg, s)(1).status.Restarting?;
      }
    }
  }

  /** Only prompt calls count failures. */
  lemma {:induction false} FedPromptly(o: Oracle, cfg: Config, specs: seq<ChildSpec>, n: nat)
    requires Prompt(o, cfg.policy)
    ensures forall i :: 0 <= i < |Fed(o, cfg, specs, n)| ==> PromptCall(cfg.policy, Fed(o, cfg, specs, n)[i].at)
  {
    if n > 0 {
      FedPromptly(o, cfg, specs, n - 1);
      OnePromptly(o, cfg.policy, Run(o, cfg, specs, n - 1), Fed(o, cfg, specs, n - 1));
    }
  }

  lemma OnePromptly(o: Oracle, p: Tolerance.Policy, s: Sys, before: seq<Tolerance.Fail<Error>>)
    requires Prompt(o, p) && forall i :: 0 <= i < |before| ==> PromptCall(p, before[i].at)
    ensures var fs := before + Report(o, s); forall i :: 0 <= i < |fs| ==> PromptCall(p, fs[i].at)
  {
    assert PromptCall(p, o(s.w.tick).clock);
  }

  lemma NothingTolerated(p: Tolerance.Policy, fs: seq<Tolerance.Fail<Error>>)
    requires p.max == 0 && p.window > 0 && forall i :: 0 <= i < |fs| ==> PromptCall(p, fs[i].at)
    ensures Tolerance.AllTolerated(p, fs) <==> fs == []
  {
    if fs != [] {
      assert fs[..0] == [] && PromptCall(p, fs[0].at);
      assert !Tolerance.ToleratedAt(p, fs, 0);
    }
  }

  /** With max 0 and a positive window a restart loop ends wherever no window closes within a call of the manager. */
  lemma {:induction false} ZeroToleranceLeaves(o: Oracle, cfg: Config, specs: seq<ChildSpec>, n: nat)
    requires cfg.policy.max == 0 && cfg.policy.window > 0 && Prompt(o, cfg.policy)
    requires Run(o, cfg, specs, n).status.Restarting?
    ensures LeavesLater(States(o, cfg, specs), n)
  {
    var run, fed := States(o, cfg, specs), (k: nat) => Fed(o, cfg, specs, k);
    ManagerFollows(o, cfg, specs, n);
    FedPromptly(o, cfg, specs, n);
    NothingTolerated(cfg.policy, fed(n));
    LeavesAtOnce(o, cfg, run(n));
    LeavesOnRun(o, cfg, specs, n);
  }

  // ----- Any other tolerance can be kept busy for ever -----------------------------------------------------

  const STUBBORN_CHILD := ChildSpec("a", Worker, Permanent, Indefinitely)

  function Pace(p: Tolerance.Policy): nat { if p.window > 0 then p.window else 0 }

  /** The first reading at tick `t`. */
  function Began(p: Tolerance.Policy, t: nat): nat { t * (2 * Pace(p)) }

  /** A child that starts once, fails, and never starts again; the clock moves on by one window between its first
      reading in a call and the next, and again before the next call. */
  function Stubborn(p: Tolerance.Policy): Oracle {
    (t: nat) => Choice(if t == 1 then [Exit(0, Some(Failure(0)))] else [], false, Notify(0),
                       if t == 0 then None else Some(Failure(0)), None, false, false, 0, None,
                       Tolerance.Clock(Began(p, t), Began(p, t) + Pace(p), Began(p, t) + Pace(p)))
  }

  lemma PaceGrows(p: Tolerance.Policy, t: nat, u: nat)
    requires t < u
    ensures Began(p, t) + Pace(p) <= Began(p, u)
  {
    TimesGrows(2 * Pace(p), t + 1, u);
  }

  lemma TimesGrows(a: nat, x: nat, y: nat)
    requires x <= y
    ensures x * a <= y * a
  {
    assert y * a == x * a + (y - x) * a;
    assert (y - x) * a >= 0;
  }

  lemma StubbornClockRuns(p: Tolerance.Policy)
    ensures ClockRuns(Stubborn(p))
  {
    var o := Stubborn(p);
    forall t: nat, u: nat | t < u ensures o(t).clock.reset <= o(u).clock.began { PaceGrows(p, t, u); }
  }

  /** The manager's window, if it has one, began before the call at tick `t`. */
  predicate Elapsed(p: Tolerance.Policy, m: Tolerance.Manager<Error>, t: nat) {
    && m.policy == p
    && (m.begin.Zero? ==> m.count == 0)
    && (m.begin.At? ==> m.begin.ns <= Began(p, t))
  }

  lemma AdmitsAgain(p: Tolerance.Policy, m: Tolerance.Manager<Error>, err: Error, t: nat)
    requires !Bounded(p) && Elapsed(p, m, t)
    ensures var a := Tolerance.Admit(m, err, Stubborn(p)(t).clock);
            a.ok && a.mgr.policy == p && a.mgr.begin.At? && a.mgr.begin.ns <= Began(p, t) + Pace(p)
  {
    assert Tolerance.Succ32(0) == 1;
  }

  /** Always back at the head of the restart loop, one failed start later. */
  ghost predicate Stuck(cfg: Config, s: Sys) {
    && s.specs == [STUBBORN_CHILD] && s.w.tick >= 2 && !s.w.done
    && s.status.Restarting? && s.status.source == Child(0, STUBBORN_CHILD) && s.status.prev.Some?
    && Elapsed(cfg.policy, s.mgr, s.w.tick)
  }

  lemma {:induction false} StuckExec(cfg: Config, s: Sys)
    requires s.specs == [STUBBORN_CHILD] && s.w.tick >= 2 && !s.w.done
    ensures var s' := ExecRestart(Stubborn(cfg.policy), cfg, s, Child(0, STUBBORN_CHILD));
            && s'.specs == s.specs && s'.w.tick > s.w.tick && !s'.w.done && s'.mgr == s.mgr
            && s'.status.Restarting? && s'.status.source == Child(0, STUBBORN_CHILD) && s'.status.prev.Some?
  {
    var o := Stubborn(cfg.policy);
    assert [STUBBORN_CHILD][1..] == [];
    assert SortStart(cfg.order, [STUBBORN_CHILD]) == [STUBBORN_CHILD] == SortTermination(cfg.order, [STUBBORN_CHILD]);
    if cfg.strategy.OneForAll? {
      var skip := Some(STUBBORN_CHILD.name);
      assert TerminateChildNodes(o, s.w, [], s.children, skip, map[]) == Halts(s.w, map[]);
      assert TerminateChildNodes(o, s.w, [STUBBORN_CHILD], s.children, skip, map[]) == Halts(s.w, map[]);
      OneFailedStart(o, s.w, cfg.order);
    }
  }

  lemma {:induction false} OneFailedStart(o: Oracle, w: World, order: Order)
    requires o(w.tick).startErr.Some? && !o(w.tick).cancel
    requires SortTermination(order, [STUBBORN_CHILD]) == [STUBBORN_CHILD]
    ensures var l := StartChildNodes(o, w, order, [STUBBORN_CHILD], [STUBBORN_CHILD], map[]);
            l.err.Some? && l.w.tick == w.tick + 1 && l.w.done == w.done
  {
    var s := StartChildNode(o, w, STUBBORN_CHILD);
    assert [STUBBORN_CHILD][1..] == [];
    assert TerminateChildNodes(o, s.w, [STUBBORN_CHILD], map[], None, map[]) == Halts(s.w, map[]);
  }

  lemma StuckStep(cfg: Config, s: Sys)
    requires !Bounded(cfg.policy) && Stuck(cfg, s)
    ensures Stuck(cfg, Step(Stubborn(cfg.policy), cfg, s))
  {
    var o, p, t := Stubborn(cfg.policy), cfg.policy, s.w.tick;
    AdmitsAgain(p, s.mgr, s.status.prev.value, t);
    var a := Tolerance.Admit(s.mgr, s.status.prev.value, o(t).clock);
    var s1 := s.(w := Interfere(o, s.w), mgr := a.mgr);
    StuckExec(cfg, s1);
    StuckExec(cfg, s1.(w := Interfere(o, s1.w)));
    var s' := Step(o, cfg, s);
    assert s' == BackoffAndRestart(o, cfg, s1, s.status.source);
    assert s'.mgr == a.mgr && s'.w.tick > t;
    PaceGrows(p, t, s'.w.tick);
  }

  lemma {:induction false} StubbornStart(cfg: Config)
    ensures var s := Start(Stubborn(cfg.policy), cfg, [STUBBORN_CHILD]);
            && s.status.Looping? && s.w.procs == [Proc(STUBBORN_CHILD, Running, true, false, false)] && s.w.tick == 1
            && !s.w.done && s.specs == [STUBBORN_CHILD] && s.children == map["a" := Child(0, STUBBORN_CHILD)]
            && s.mgr == Tolerance.Fresh(cfg.policy)
  {
    var o := Stubborn(cfg.policy);
    assert [STUBBORN_CHILD][1..] == [];
    assert SortStart(cfg.order, [STUBBORN_CHILD]) == [STUBBORN_CHILD];
    var s := StartChildNode(o, VOID, STUBBORN_CHILD);
    assert s.w.procs == [Proc(STUBBORN_CHILD, Running, true, false, false)];
    var acc: map<string, Child> := map["a" := s.child];
    assert StartChildNodes(o, s.w, cfg.order, [STUBBORN_CHILD], [], acc) == Launch(s.w, acc, None);
  }

  lemma {:induction false} FirstFailure(cfg: Config, s: Sys)
    requires s == Start(Stubborn(cfg.policy), cfg, [STUBBORN_CHILD])
    ensures Stuck(cfg, Step(Stubborn(cfg.policy), cfg, s))
  {
    var o := Stubborn(cfg.policy);
    StubbornStart(cfg);
    assert [Exit(0, Some(Failure(0)))][1..] == [];
    var s1 := s.(w := Interfere(o, s.w));
    assert s1.w.procs[0].phase == Exiting(Some(Failure(0)));
    assert Step(o, cfg, s) == HandleNotification(s1, 0);
  }

  /** For every other tolerance, under both strategies and with any backoff, there is a run that enters its restart
      loop with the first failure and never leaves it, though the clock never goes back. */
  lemma {:induction false} LoopMayNeverEnd(cfg: Config, n: nat)
    requires !Bounded(cfg.policy) && n > 0
    ensures Run(Stubborn(cfg.policy), cfg, [STUBBORN_CHILD], n).status.Restarting? && ClockRuns(Stubborn(cfg.policy))
  {
    StubbornClockRuns(cfg.policy);
    var o := Stubborn(cfg.policy);
    var step, run, keeps := Stepper(o, cfg), States(o, cfg, [STUBBORN_CHILD]), (s: Sys) => Stuck(cfg, s);
    StatesAreRun(o, cfg, [STUBBORN_CHILD]);
    FirstFailure(cfg, run(0));
    assert run(0 + 1) == step(run(0));
    forall s | keeps(s) ensures keeps(step(s)) { StuckStep(cfg, s); }
    Stepping.Along(step, run, keeps, 1, n);
  }

  /** Exactly which tolerances make every restart loop end, whatever the strategy, the order and the backoff. */
  lemma {:induction false} RestartLoopsEndExactly(cfg: Config)
    ensures EveryLoopEnds(cfg) <==> Bounded(cfg.policy)
  {
    if Bounded(cfg.policy) {
      forall o: Oracle, specs: seq<ChildSpec>, n: nat | Run(o, cfg, specs, n).status.Restarting?
        ensures LeavesLater(States(o, cfg, specs), n)
      {
        BoundedLeaves(o, cfg, specs, n);
      }
    } else {
      var o, specs := Stubborn(cfg.policy), [STUBBORN_CHILD];
      LoopMayNeverEnd(cfg, 1);
      forall k: nat | k > 1 ensures States(o, cfg, specs)(k).status.Restarting? { LoopMayNeverEnd(cfg, k); }
      assert Run(o, cfg, specs, 1).status.Restarting? && !LeavesLater(States(o, cfg, specs), 1);
    }
  }
}
