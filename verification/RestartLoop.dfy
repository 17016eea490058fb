/** The restart loop: when it ends, how often it tries, and why a supervisor gives up
    (`execRestartLoop`). */
module RestartLoop {
  import opened Types
  import opened Engine
  import opened Runs
  import Stepping
  import Tolerance

  // ----- Termination with a zero window ----------------------------------------------------------

  function Steps(o: Oracle, cfg: Config, s: Sys, k: nat): Sys { Stepping.Iterate(Stepper(o, cfg), s, k) }

  /** The tolerance still left to a supervisor whose failures are never forgotten. */
  function Left(cfg: Config, s: Sys): int { cfg.policy.max - s.mgr.count }

  ghost predicate Counting(cfg: Config, s: Sys) {
    s.mgr.policy == cfg.policy && s.mgr.count <= cfg.policy.max
  }

  lemma ExecKeepsCount(o: Oracle, cfg: Config, s: Sys, source: Child)
    ensures var s' := BackoffAndRestart(o, cfg, s, source);
            && s'.mgr == s.mgr && s'.specs == s.specs
            && (s'.status.Looping? || (s'.status.Restarting? && s'.status.prev.Some? && s'.status.source == source))
  {}

  /** One iteration entered with an error and a zero window: it spends one unit of tolerance and leaves the
      loop or comes back with a new error; with nothing left it gives up without trying. */
  lemma IterationSpends(o: Oracle, cfg: Config, s: Sys)
    requires s.status.Restarting? && s.status.prev.Some?
    requires cfg.policy.window == 0 && Tolerance.CounterFits(cfg.policy) && Counting(cfg, s)
    ensures var s' := Step(o, cfg, s);
            && Counting(cfg, s')
            && (Left(cfg, s) == 0 ==>
                  && s'.status.Finished? && s'.status.result.Some? && s'.status.result.value.RestartFailed?
                  && s'.mgr.count == cfg.policy.max)
            && (Left(cfg, s) > 0 ==> Left(cfg, s') == Left(cfg, s) - 1
                                     && (s'.status.Looping? || (s'.status.Restarting? && s'.status.prev.Some?)))
  {
    var m := s.mgr;
    assert Tolerance.Succ32(m.count) == m.count + 1;
    var a := Tolerance.Admit(m, s.status.prev.value, o(s.w.tick).clock);
    assert a.ok <==> m.count < cfg.policy.max;
    if a.ok {
      ExecKeepsCount(o, cfg, s.(w := Interfere(o, s.w), mgr := a.mgr), s.status.source);
    }
  }

  /** The loop is left in state `e` at iteration `k`, after at most `attempts` restart attempts: if there is
      one more iteration than that, it gives up without an attempt. */
  predicate EndsAt(cfg: Config, e: Sys, k: nat, attempts: int) {
    && 1 <= k <= attempts + 1
    && !e.status.Restarting?
    && (k == attempts + 1 ==> e.status.Finished?)
    && (e.status.Finished? ==> e.mgr.count == cfg.policy.max)
  }

  ghost predicate LeavesOn(cfg: Config, path: nat -> Sys, attempts: int) {
    exists k: nat :: EndsAt(cfg, path(k), k, attempts)
  }

  function Path(o: Oracle, cfg: Config, s: Sys): nat -> Sys { (k: nat) => Steps(o, cfg, s, k) }

  ghost predicate LeavesWithin(o: Oracle, cfg: Config, s: Sys, attempts: int) {
    LeavesOn(cfg, Path(o, cfg, s), attempts)
  }

  lemma FirstStep(o: Oracle, cfg: Config, s: Sys)
    ensures Steps(o, cfg, s, 1) == Step(o, cfg, s)
  {
    assert Stepping.Iterate(Stepper(o, cfg), s, 0) == s;
  }

  lemma StepsShift(o: Oracle, cfg: Config, s: Sys, k: nat)
    ensures Steps(o, cfg, s, k + 1) == Steps(o, cfg, Step(o, cfg, s), k)
  {
    Stepping.IterateShift(Stepper(o, cfg), s, k);
  }

  /** `g` goes on where `f` is after one iteration. */
  ghost predicate Precedes(f: nat -> Sys, g: nat -> Sys) { forall k: nat :: f(k + 1) == g(k) }

  lemma StepPrecedes(o: Oracle, cfg: Config, s: Sys)
    ensures Precedes(Path(o, cfg, s), Path(o, cfg, Step(o, cfg, s)))
    ensures Path(o, cfg, Step(o, cfg, s))(0) == Step(o, cfg, s)
  {
    forall k: nat ensures Steps(o, cfg, s, k + 1) == Steps(o, cfg, Step(o, cfg, s), k) { StepsShift(o, cfg, s, k); }
  }

  /** One iteration more in front. */
  lemma LeavesOneLater(cfg: Config, f: nat -> Sys, g: nat -> Sys, attempts: int)
    requires Precedes(f, g) && LeavesOn(cfg, g, attempts)
    ensures LeavesOn(cfg, f, attempts + 1)
  {
    var k: nat :| EndsAt(cfg, g(k), k, attempts);
    assert f(k + 1) == g(k);
    assert EndsAt(cfg, f(k + 1), k + 1, attempts + 1);
  }

  lemma LeavesNow(cfg: Config, f: nat -> Sys, g: nat -> Sys, attempts: int)
    requires Precedes(f, g) && attempts >= 0
    requires !g(0).status.Restarting? && (attempts == 0 ==> g(0).status.Finished?)
    requires g(0).status.Finished? ==> g(0).mgr.count == cfg.policy.max
    ensures LeavesOn(cfg, f, attempts)
  {
    assert f(0 + 1) == g(0);
    assert EndsAt(cfg, f(1), 1, attempts);
  }

  /** Entered with an error, the loop is left after at most `max - count` restart attempts, and giving up
      means that the counter stands at `max`. */
  lemma {:induction false} LoopEndsAfterError(o: Oracle, cfg: Config, s: Sys)
    requires s.status.Restarting? && s.status.prev.Some?
    requires cfg.policy.window == 0 && Tolerance.CounterFits(cfg.policy) && Counting(cfg, s)
    ensures LeavesWithin(o, cfg, s, Left(cfg, s))
    decreases Left(cfg, s)
  {
    var s' := Step(o, cfg, s);
    IterationSpends(o, cfg, s);
    StepPrecedes(o, cfg, s);
    if s'.status.Restarting? {
      LoopEndsAfterError(o, cfg, s');
      LeavesOneLater(cfg, Path(o, cfg, s), Path(o, cfg, s'), Left(cfg, s'));
    } else {
      LeavesNow(cfg, Path(o, cfg, s), Path(o, cfg, s'), Left(cfg, s));
    }
  }

  /** Entered without an error, by the completion of a permanent child, the loop tries once more. */
  lemma LoopEndsAfterCompletion(o: Oracle, cfg: Config, s: Sys)
    requires s.status.Restarting? && s.status.prev.None?
    requires cfg.policy.window == 0 && Tolerance.CounterFits(cfg.policy) && Counting(cfg, s)
    ensures LeavesWithin(o, cfg, s, Left(cfg, s) + 1)
  {
    var s' := Step(o, cfg, s);
    FirstTrySpendsNothing(o, cfg, s);
    StepPrecedes(o, cfg, s);
    if s'.status.Restarting? {
      LoopEndsAfterError(o, cfg, s');
      LeavesOneLater(cfg, Path(o, cfg, s), Path(o, cfg, s'), Left(cfg, s'));
    } else {
      LeavesNow(cfg, Path(o, cfg, s), Path(o, cfg, s'), Left(cfg, s) + 1);
    }
  }

  lemma FirstTrySpendsNothing(o: Oracle, cfg: Config, s: Sys)
    requires s.status.Restarting? && s.status.prev.None? && Counting(cfg, s)
    ensures var s' := Step(o, cfg, s);
            && Counting(cfg, s') && Left(cfg, s') == Left(cfg, s)
            && (s'.status.Looping? || (s'.status.Restarting? && s'.status.prev.Some?))
  {
    ExecKeepsCount(o, cfg, s, s.status.source);
  }

  // ----- Why a supervisor gives up ---------------------------------------------------------------------

  /** The failure, if any, that a step from `s` reports to the tolerance manager. */
  function Report(o: Oracle, s: Sys): seq<Tolerance.Fail<Error>> {
    if s.status.Restarting? && s.status.prev.Some?
    then [Tolerance.Fail(s.status.prev.value, o(s.w.tick).clock)] else []
  }

  /** The failures that the first `n` steps of a run reported to the tolerance manager. */
  function Fed(o: Oracle, cfg: Config, specs: seq<ChildSpec>, n: nat): seq<Tolerance.Fail<Error>> {
    if n == 0 then [] else Fed(o, cfg, specs, n - 1) + Report(o, Run(o, cfg, specs, n - 1))
  }

  /** The readings of the clock, within a call and from tick to tick. */
  ghost predicate ClockRuns(o: Oracle) {
    && (forall t: nat :: Tolerance.Forward(o(t).clock))
    && (forall t: nat, u: nat :: t < u ==> o(t).clock.reset <= o(u).clock.began)
  }

  /** A step from `s` to `s'` reports a failure to the manager exactly when the restart loop is entered with
      an error, and ends the run exactly when the manager refuses it. */
  ghost predicate Feeds(o: Oracle, s: Sys, s': Sys) {
    if s.status.Restarting? && s.status.prev.Some? then
      var a := Tolerance.Admit(s.mgr, s.status.prev.value, o(s.w.tick).clock);
      && s'.mgr == a.mgr
      && if a.ok then !s'.status.Finished? else GivesUp(s', a.mgr.source, s.status.prev.value)
    else
      s'.mgr == s.mgr && (s.status.Finished? ==> s'.status.Finished?)
  }

  predicate GivesUp(s: Sys, source: Option<Error>, last: Error) {
    && s.status.Finished? && s.status.result.Some? && s.status.result.value.RestartFailed?
    && s.status.result.value.reason.source == source && s.status.result.value.reason.last == last
  }

  lemma StepFeeds(o: Oracle, cfg: Config, s: Sys)
    ensures Feeds(o, s, Step(o, cfg, s))
  {
    if s.status.Restarting? && s.status.prev.Some? {
      var a := Tolerance.Admit(s.mgr, s.status.prev.value, o(s.w.tick).clock);
      ExecKeepsCount(o, cfg, s.(w := Interfere(o, s.w), mgr := a.mgr), s.status.source);
    } else if s.status.Restarting? {
      ExecKeepsCount(o, cfg, s, s.status.source);
    }
  }

  lemma RunFeeds(o: Oracle, cfg: Config, specs: seq<ChildSpec>, n: nat)
    ensures Feeds(o, Run(o, cfg, specs, n), Run(o, cfg, specs, n + 1))
  {
    StepFeeds(o, cfg, Run(o, cfg, specs, n));
  }

  /** What is known of the manager, the clock and the failures `fs` reported so far: the manager is the one
      of the tolerance theory, fed with `fs`; it has tolerated them all unless the supervisor has
      finished; and they were reported in the order of the clock. */
  ghost predicate Follows(o: Oracle, p: Tolerance.Policy, s: Sys, fs: seq<Tolerance.Fail<Error>>) {
    && s.mgr == Tolerance.After(p, fs)
    && (!s.status.Finished? ==> Tolerance.AllTolerated(p, fs))
    && (ClockRuns(o) ==>
          && Tolerance.Chronological(fs)
          && forall i :: 0 <= i < |fs| ==> fs[i].at.reset <= o(s.w.tick).clock.began)
  }

  /** Steps take time, and one that reports a failure at least one tick. */
  predicate Moves(o: Oracle, s: Sys, s': Sys) {
    s.w.tick <= s'.w.tick && (Report(o, s) != [] ==> s.w.tick < s'.w.tick)
  }

  lemma FollowsStep(o: Oracle, p: Tolerance.Policy, s: Sys, s': Sys, before: seq<Tolerance.Fail<Error>>)
    requires Follows(o, p, s, before) && Feeds(o, s, s') && Moves(o, s, s')
    ensures Follows(o, p, s', before + Report(o, s))
  {
    if ClockRuns(o) {
      assert Tolerance.Forward(o(s.w.tick).clock);
      assert s.w.tick < s'.w.tick ==> o(s.w.tick).clock.reset <= o(s'.w.tick).clock.began;
    }
    if Report(o, s) != [] {
      var f := Report(o, s)[0];
      assert Report(o, s) == [f];
      Tolerance.ManagerSnoc(p, before, f);
      if ClockRuns(o) { Tolerance.ChronologicalSnoc(before, f); }
    } else {
      assert before + Report(o, s) == before;
    }
  }

  lemma {:induction false} FollowsAlways(o: Oracle, p: Tolerance.Policy, state: nat -> Sys,
                                         fed: nat -> seq<Tolerance.Fail<Error>>, n: nat)
    requires Follows(o, p, state(0), fed(0))
    requires forall k: nat :: Feeds(o, state(k), state(k + 1)) && Moves(o, state(k), state(k + 1))
    requires forall k: nat :: fed(k + 1) == fed(k) + Report(o, state(k))
    ensures Follows(o, p, state(n), fed(n))
  {
    if n > 0 {
      FollowsAlways(o, p, state, fed, n - 1);
      assert Feeds(o, state(n - 1), state(n - 1 + 1));
      FollowsStep(o, p, state(n - 1), state(n), fed(n - 1));
    }
  }

  lemma StepMoves(o: Oracle, cfg: Config, s: Sys)
    ensures Moves(o, s, Step(o, cfg, s))
  {
    StepContinues(o, cfg, s);
    if s.status.Restarting? && s.status.prev.Some? {
      var source, last := s.status.source, s.status.prev.value;
      var a := Tolerance.Admit(s.mgr, last, o(s.w.tick).clock);
      var s1 := s.(w := Interfere(o, s.w), mgr := a.mgr);
      if a.ok {
        BackoffAndRestartContinues(o, cfg, s1, source);
      } else {
        TerminateSupervisorContinues(o, cfg, s1,
          Some(GaveUp(source.spec.name, cfg.policy.max, cfg.policy.window, a.mgr.source, last)));
      }
    }
  }

  lemma RunMoves(o: Oracle, cfg: Config, specs: seq<ChildSpec>, n: nat)
    ensures Moves(o, Run(o, cfg, specs, n), Run(o, cfg, specs, n + 1))
  {
    StepMoves(o, cfg, Run(o, cfg, specs, n));
  }

  /** In every run the supervisor's manager follows the failures reported to it. */
  lemma {:induction false} ManagerFollows(o: Oracle, cfg: Config, specs: seq<ChildSpec>, n: nat)
    ensures Follows(o, cfg.policy, Run(o, cfg, specs, n), Fed(o, cfg, specs, n))
  {
    var state := (k: nat) => Run(o, cfg, specs, k);
    var fed := (k: nat) => Fed(o, cfg, specs, k);
    forall k: nat ensures Feeds(o, state(k), state(k + 1)) && Moves(o, state(k), state(k + 1)) {
      RunFeeds(o, cfg, specs, k);
      RunMoves(o, cfg, specs, k);
    }
    FollowsAlways(o, cfg.policy, state, fed, n);
  }

  /** The last `max + 1` failures of `fs` all lie within less than the window; the error that `s` names as
      the source is the one that opened that window, and the one it names as the last is the last. */
  ghost predicate JustifiedGiveUp(p: Tolerance.Policy, s: Sys, fs: seq<Tolerance.Fail<Error>>) {
    && fs != []
    && var n := |fs| - 1;
       var k := Tolerance.Opener(p, fs, n);
       Tolerance.Overfull(p, fs, k) && GivesUp(s, Some(fs[k].err), fs[n].err)
  }

  lemma Justify(o: Oracle, p: Tolerance.Policy, s: Sys, s': Sys, before: seq<Tolerance.Fail<Error>>,
                fs: seq<Tolerance.Fail<Error>>)
    requires ClockRuns(o) && Tolerance.CounterFits(p) && p.window > 0
    requires fs == before + Report(o, s)
    requires Feeds(o, s, s') && Follows(o, p, s, before) && Follows(o, p, s', fs)
    requires Report(o, s) != [] && s'.status.Finished?
    ensures JustifiedGiveUp(p, s', fs)
  {
    assert fs[..|fs| - 1] == before;
    Tolerance.GivingUpIsJustified(p, fs);
  }

  /** When a supervisor with a positive window gives up, it is justified. */
  lemma GivingUpIsJustified(o: Oracle, cfg: Config, specs: seq<ChildSpec>, n: nat)
    requires ClockRuns(o) && Tolerance.CounterFits(cfg.policy) && cfg.policy.window > 0
    requires Report(o, Run(o, cfg, specs, n)) != [] && Run(o, cfg, specs, n + 1).status.Finished?
    ensures JustifiedGiveUp(cfg.policy, Run(o, cfg, specs, n + 1), Fed(o, cfg, specs, n + 1))
  {
    var state := (k: nat) => Run(o, cfg, specs, k);
    var fed := (k: nat) => Fed(o, cfg, specs, k);
    var s, s', before, fs := state(n), state(n + 1), fed(n), fed(n + 1);
    ManagerFollows(o, cfg, specs, n);
    ManagerFollows(o, cfg, specs, n + 1);
    RunFeeds(o, cfg, specs, n);
    Justify(o, cfg.policy, s, s', before, fs);
  }
}
