/** The nil children map.  A failed start of all children returns nil for the map (internal/s/monitor.go), a
    one-for-all restart hands that on, and a backoff wait that is cut short carries it back to the monitor
    loop, where a spawn writes into it (internal/s/dyn_supervisor.go). */
module NilMap {
  import opened Types
  import opened Ordering
  import opened Engine
  import Tolerance
  import Backoff
  import Stepping

  /** A nil map is empty, and once the supervisor has started only one-for-all restarts produce it. */
  ghost predicate Sane(cfg: Config, s: Sys) {
    s.mapNil ==> s.children == map[] && (cfg.strategy.OneForAll? || s.status.StartAborted?)
  }

  // ----- Where the map is nil -----------------------------------------------------------------------------

  lemma {:induction false} FailedStartReturnsNil(o: Oracle, w: World, order: Order, specs: seq<ChildSpec>,
                                                 todo: seq<ChildSpec>, acc: map<string, Child>)
    requires StartChildNodes(o, w, order, specs, todo, acc).err.Some?
    ensures StartChildNodes(o, w, order, specs, todo, acc).children == map[]
    decreases |todo|
  {
    if todo != [] {
      var s := StartChildNode(o, w, todo[0]);
      if s.err.None? {
        FailedStartReturnsNil(o, s.w, order, specs, todo[1..], acc[todo[0].name := s.child]);
      }
    }
  }

  /** The state in which an iteration of the restart loop enters its backoff wait, if it is admitted. */
  function Admitted(o: Oracle, s: Sys, prev: Option<Error>): Option<Sys> {
    if prev.None? then Some(s)
    else
      var a := Tolerance.Admit(s.mgr, prev.value, o(s.w.tick).clock);
      if a.ok then Some(s.(w := Interfere(o, s.w), mgr := a.mgr)) else None
  }

  /** The backoff wait from `s` is left because the context is done. */
  predicate Interrupted(o: Oracle, cfg: Config, s: Sys) {
    Backoff.Duration(cfg.backoff, s.mgr.count) > 0 && Interfere(o, s.w).done && o(s.w.tick).giveWay
  }

  /** The iteration of the restart loop that starts in `s` is cut short. */
  predicate CutShort(o: Oracle, cfg: Config, s: Sys) {
    && s.status.Restarting?
    && var s1 := Admitted(o, s, s.status.prev);
       s1.Some? && Interrupted(o, cfg, s1.value)
  }

  lemma ExecNil(o: Oracle, cfg: Config, s: Sys, source: Child)
    requires Sane(cfg, s) && !s.status.StartAborted?
    ensures var s' := ExecRestart(o, cfg, s, source);
            && Sane(cfg, s') && (s'.status.Looping? || s'.status.Restarting?)
            && s'.mapNil == (cfg.strategy.OneForAll? && s'.status.Restarting?)
  {
    if cfg.strategy.OneForAll? {
      var h := TerminateChildNodes(o, s.w, SortTermination(cfg.order, s.specs), s.children, Some(source.spec.name),
                                   map[]);
      var todo := SortStart(cfg.order, s.specs);
      if StartChildNodes(o, h.w, cfg.order, s.specs, todo, map[]).err.Some? {
        FailedStartReturnsNil(o, h.w, cfg.order, s.specs, todo, map[]);
      }
    }
  }

  lemma BackoffNil(o: Oracle, cfg: Config, s: Sys, source: Child)
    requires Sane(cfg, s) && !s.status.StartAborted?
    ensures var s' := BackoffAndRestart(o, cfg, s, source);
            && Sane(cfg, s') && (s'.status.Looping? || s'.status.Restarting?)
            && (Interrupted(o, cfg, s) ==> s'.status.Looping? && s'.mapNil == s.mapNil && s'.w.done)
            && (!Interrupted(o, cfg, s) ==> s'.mapNil == (cfg.strategy.OneForAll? && s'.status.Restarting?))
  {
    if Backoff.Duration(cfg.backoff, s.mgr.count) > 0 {
      if !Interrupted(o, cfg, s) { ExecNil(o, cfg, s.(w := Interfere(o, s.w)), source); }
    } else {
      ExecNil(o, cfg, s, source);
    }
  }

  /** What one iteration of the restart loop does to the map. */
  lemma IterationNil(o: Oracle, cfg: Config, s: Sys)
    requires Sane(cfg, s) && s.status.Restarting?
    ensures var s' := Step(o, cfg, s);
            && Sane(cfg, s') && (s'.status.Looping? || s'.status.Restarting? || s'.status.Finished?)
            && (s'.status.Restarting? ==> s'.mapNil == cfg.strategy.OneForAll?)
            && (s'.status.Looping? ==> s'.mapNil == (s.mapNil && CutShort(o, cfg, s)))
            && (CutShort(o, cfg, s) ==> s'.status.Looping?)
            && (s'.status.Finished? ==> s'.mapNil == s.mapNil)
  {
    var s1 := Admitted(o, s, s.status.prev);
    if s1.Some? { BackoffNil(o, cfg, s1.value, s.status.source); }
  }

  /** A turn of the loop and a drain leave the map as nil as it was; a nil map leads to no restart. */
  lemma TurnNil(o: Oracle, cfg: Config, s: Sys)
    requires Sane(cfg, s) && s.status.Looping?
    ensures var s' := LoopTurn(o, cfg, s);
            && Sane(cfg, s') && s'.mapNil == s.mapNil && !s'.status.StartAborted?
            && (s.mapNil ==> !s'.status.Restarting?)
  {
    var s1 := s.(w := Interfere(o, s.w));
    match o(s.w.tick).turn {
      case Shutdown =>
      case Notify(id) => if id < |s1.w.procs| && s1.w.procs[id].phase.Exiting? { NotificationNil(s1, id); }
      case Spawn(spec) =>
      case Stop(name) =>
    }
  }

  lemma NotificationNil(s: Sys, id: nat)
    requires id < |s.w.procs| && s.w.procs[id].phase.Exiting?
    ensures var s' := HandleNotification(s, id);
            && s'.mapNil == s.mapNil && !s'.status.StartAborted?
            && (s.children == map[] ==> s'.children == map[] && !s'.status.Restarting?)
  {
    var p := s.w.procs[id];
    var s1 := s.(w := Receive(s.w, id, !p.started));
    if p.spec.name in s.children {
      var source := s.children[p.spec.name];
      if p.phase.err.Some? { ErrorNil(s1, source, p.phase.err.value); } else { CompletionNil(s1, source); }
    }
  }

  lemma ErrorNil(s: Sys, source: Child, err: Error)
    ensures HandleError(s, source, err).mapNil == s.mapNil && !HandleError(s, source, err).status.StartAborted?
  {}

  lemma CompletionNil(s: Sys, source: Child)
    ensures HandleCompletion(s, source).mapNil == s.mapNil && !HandleCompletion(s, source).status.StartAborted?
  {}

  lemma StartNil(o: Oracle, cfg: Config, specs: seq<ChildSpec>)
    ensures var s := Start(o, cfg, specs); Sane(cfg, s) && (s.mapNil <==> s.status.StartAborted?)
  {
    var todo := SortStart(cfg.order, specs);
    if StartChildNodes(o, VOID, cfg.order, specs, todo, map[]).err.Some? {
      FailedStartReturnsNil(o, VOID, cfg.order, specs, todo, map[]);
    }
  }

  // ----- The write -----------------------------------------------------------------------------------------

  /** The loop takes a spawn whose child starts, while its map is nil. */
  predicate NilSpawn(o: Oracle, s: Sys) {
    s.status.Looping? && s.mapNil && o(s.w.tick).turn.Spawn? && o(s.w.tick + 1).startErr.None?
  }

  /** Exactly when a turn of the loop panics by writing into the nil map. */
  lemma NilWriteExactly(o: Oracle, cfg: Config, s: Sys)
    requires !s.status.Panicked?
    ensures (Step(o, cfg, s).status.Panicked? && Step(o, cfg, s).status.crash.NilMapWrite?) <==> NilSpawn(o, s)
  {
    match s.status {
      case Looping => TurnWrites(o, cfg, s);
      case Restarting(source, prev) => IterationNeverPanics(o, cfg, s, source, prev);
      case _ =>
    }
  }

  lemma TurnWrites(o: Oracle, cfg: Config, s: Sys)
    requires s.status.Looping?
    ensures var s' := LoopTurn(o, cfg, s); (s'.status.Panicked? && s'.status.crash.NilMapWrite?) <==> NilSpawn(o, s)
  {
    match o(s.w.tick).turn {
      case Shutdown =>
      case Notify(id) =>
        var s1 := s.(w := Interfere(o, s.w));
        if id < |s1.w.procs| && s1.w.procs[id].phase.Exiting? { NotificationWritesNothing(s1, id); }
      case Spawn(spec) =>
      case Stop(name) =>
    }
  }

  lemma NotificationWritesNothing(s: Sys, id: nat)
    requires id < |s.w.procs| && s.w.procs[id].phase.Exiting?
    ensures var s' := HandleNotification(s, id); s'.status.Panicked? ==> s'.status.crash.UnknownName?
  {
    var p := s.w.procs[id];
    var s1 := s.(w := Receive(s.w, id, !p.started));
    if p.spec.name in s.children {
      var source := s.children[p.spec.name];
      assert p.phase.err.Some? ==> !HandleError(s1, source, p.phase.err.value).status.Panicked?;
      assert !HandleCompletion(s1, source).status.Panicked?;
    }
  }

  lemma IterationNeverPanics(o: Oracle, cfg: Config, s: Sys, source: Child, prev: Option<Error>)
    ensures !RestartIteration(o, cfg, s, source, prev).status.Panicked?
  {}

  // ----- One step -------------------------------------------------------------------------------------------

  /** At the head of the monitor loop, or reading after a failed spawn. */
  predicate AtLoop(st: Status) { st.Looping? || st.Draining? }

  predicate NilCrash(st: Status) { st.Panicked? && st.crash.NilMapWrite? }

  /** All that is known of one step of the supervisor, as far as the nil map goes. */
  ghost predicate NilStep(o: Oracle, cfg: Config, s: Sys, s': Sys) {
    && (Sane(cfg, s) ==> Sane(cfg, s'))
    && (Sane(cfg, s) && AtLoop(s.status) ==> s'.mapNil == s.mapNil && (s.mapNil ==> !s'.status.Restarting?))
    && (Sane(cfg, s) && s.status.Restarting? ==>
          && !s'.status.Draining?
          && (s'.status.Restarting? ==> s'.mapNil == cfg.strategy.OneForAll?)
          && (s'.status.Looping? ==> s'.mapNil == (s.mapNil && CutShort(o, cfg, s)))
          && (CutShort(o, cfg, s) ==> s'.status.Looping?))
    && (!AtLoop(s.status) && !s.status.Restarting? ==> s' == s)
    && (!s.status.Panicked? ==> (NilCrash(s'.status) <==> NilSpawn(o, s)))
  }

  lemma NilStepHolds(o: Oracle, cfg: Config, s: Sys)
    ensures NilStep(o, cfg, s, Step(o, cfg, s))
  {
    if !s.status.Panicked? { NilWriteExactly(o, cfg, s); }
    if Sane(cfg, s) {
      match s.status {
        case Looping => TurnNil(o, cfg, s);
        case Restarting(_, _) => IterationNil(o, cfg, s);
        case Draining =>
        case _ =>
      }
    }
  }

  ghost predicate NilSteps(o: Oracle, cfg: Config, step: Sys -> Sys) { forall s :: NilStep(o, cfg, s, step(s)) }

  lemma StepperNil(o: Oracle, cfg: Config)
    ensures NilSteps(o, cfg, Stepper(o, cfg))
  {
    forall s ensures NilStep(o, cfg, s, Stepper(o, cfg)(s)) { NilStepHolds(o, cfg, s); }
  }

  // ----- Over whole runs --------------------------------------------------------------------------------

  /** A supervisor that has just been started, or could not be. */
  ghost predicate Begun(cfg: Config, s: Sys) {
    Sane(cfg, s) && (s.mapNil <==> s.status.StartAborted?) && (s.status.StartAborted? || s.status.Looping?)
  }

  /** Facts that hold along every run, over an arbitrary step function that does what the supervisor's does. */
  ghost predicate NilRun(o: Oracle, cfg: Config, step: Sys -> Sys, run: nat -> Sys) {
    Stepping.IsRun(step, run) && NilSteps(o, cfg, step) && Begun(cfg, run(0))
  }

  lemma SaneAlong(o: Oracle, cfg: Config, step: Sys -> Sys, run: nat -> Sys, n: nat)
    requires NilRun(o, cfg, step, run)
    ensures Sane(cfg, run(n)) && NilStep(o, cfg, run(n), run(n + 1))
  {
    var keeps := (s: Sys) => Sane(cfg, s);
    forall s | keeps(s) ensures keeps(step(s)) { assert NilStep(o, cfg, s, step(s)); }
    Stepping.Along(step, run, keeps, 0, n);
    assert NilStep(o, cfg, run(n), step(run(n)));
  }

  /** A nil map at the loop is never replaced: nothing restarts any more. */
  lemma StuckForEver(o: Oracle, cfg: Config, step: Sys -> Sys, run: nat -> Sys, k: nat, n: nat)
    requires NilRun(o, cfg, step, run) && k <= n && run(k).mapNil && !run(k).status.Restarting?
    ensures run(n).mapNil && !run(n).status.Restarting?
  {
    var keeps := (s: Sys) => Sane(cfg, s) && s.mapNil && !s.status.Restarting?;
    SaneAlong(o, cfg, step, run, k);
    forall s | keeps(s) ensures keeps(step(s)) { assert NilStep(o, cfg, s, step(s)); }
    Stepping.Along(step, run, keeps, k, n);
  }

  /** In the restart loop the map is nil exactly under one-for-all and after a failed attempt, that is when the state
      before was in the restart loop as well. */
  lemma NilWhileRestarting(o: Oracle, cfg: Config, step: Sys -> Sys, run: nat -> Sys, n: nat)
    requires NilRun(o, cfg, step, run) && run(n).status.Restarting?
    ensures n > 0 && (run(n).mapNil <==> cfg.strategy.OneForAll? && run(n - 1).status.Restarting?)
  {
    assert n > 0;
    SaneAlong(o, cfg, step, run, n - 1);
    assert NilStep(o, cfg, run(n - 1), run(n - 1 + 1));
  }

  /** Step `k` of the run is an iteration of the restart loop that comes after a failed attempt and is cut short. */
  predicate CutShortAfterFailure(o: Oracle, cfg: Config, run: nat -> Sys, k: nat) {
    k > 0 && run(k - 1).status.Restarting? && CutShort(o, cfg, run(k))
  }

  ghost predicate WasCutShort(o: Oracle, cfg: Config, run: nat -> Sys, n: nat) {
    exists k: nat :: k < n && CutShortAfterFailure(o, cfg, run, k)
  }

  /** At the loop the map is nil exactly when, under one-for-all, an iteration of the restart loop was cut short in
      its backoff wait right after an attempt that had failed. */
  lemma {:induction false} NilAtLoopExactly(o: Oracle, cfg: Config, step: Sys -> Sys, run: nat -> Sys, n: nat)
    requires NilRun(o, cfg, step, run) && AtLoop(run(n).status)
    ensures run(n).mapNil <==> cfg.strategy.OneForAll? && WasCutShort(o, cfg, run, n)
    decreases n
  {
    if n > 0 {
      SaneAlong(o, cfg, step, run, n - 1);
      assert NilStep(o, cfg, run(n - 1), run(n - 1 + 1));
      if AtLoop(run(n - 1).status) {
        NilAtLoopExactly(o, cfg, step, run, n - 1);
        OneLater(o, cfg, run, n);
      } else {
        NilWhileRestarting(o, cfg, step, run, n - 1);
        if cfg.strategy.OneForAll? { OnlyNow(o, cfg, step, run, n); }
      }
    }
  }

  lemma OneLater(o: Oracle, cfg: Config, run: nat -> Sys, n: nat)
    requires n > 0 && !run(n - 1).status.Restarting?
    ensures WasCutShort(o, cfg, run, n) <==> WasCutShort(o, cfg, run, n - 1)
  {
    if WasCutShort(o, cfg, run, n) {
      var k: nat :| k < n && CutShortAfterFailure(o, cfg, run, k);
      assert k < n - 1;
    }
    if WasCutShort(o, cfg, run, n - 1) {
      var k: nat :| k < n - 1 && CutShortAfterFailure(o, cfg, run, k);
      assert k < n;
    }
  }

  /** In the restart loop nothing has been cut short yet with a nil map. */
  lemma OnlyNow(o: Oracle, cfg: Config, step: Sys -> Sys, run: nat -> Sys, n: nat)
    requires NilRun(o, cfg, step, run) && cfg.strategy.OneForAll?
    requires n > 0 && run(n - 1).status.Restarting?
    ensures WasCutShort(o, cfg, run, n) <==> CutShortAfterFailure(o, cfg, run, n - 1)
  {
    if WasCutShort(o, cfg, run, n) {
      var k: nat :| k < n && CutShortAfterFailure(o, cfg, run, k);
      if k < n - 1 {
        NilWhileRestarting(o, cfg, step, run, k);
        SaneAlong(o, cfg, step, run, k);
        StuckForEver(o, cfg, step, run, k + 1, n - 1);
      }
    }
    if CutShortAfterFailure(o, cfg, run, n - 1) { assert n - 1 < n; }
  }

  ghost predicate SpawnedIntoNil(o: Oracle, run: nat -> Sys, n: nat) { exists k: nat :: k < n && NilSpawn(o, run(k)) }

  /** A run has crashed on its nil map exactly when a spawn that started was taken with a nil map. */
  lemma {:induction false} NilCrashExactly(o: Oracle, cfg: Config, step: Sys -> Sys, run: nat -> Sys, n: nat)
    requires NilRun(o, cfg, step, run)
    ensures NilCrash(run(n).status) <==> SpawnedIntoNil(o, run, n)
  {
    if n > 0 {
      NilCrashExactly(o, cfg, step, run, n - 1);
      SaneAlong(o, cfg, step, run, n - 1);
      assert NilStep(o, cfg, run(n - 1), run(n - 1 + 1));
      if SpawnedIntoNil(o, run, n) {
        var k: nat :| k < n && NilSpawn(o, run(k));
        if k < n - 1 { assert SpawnedIntoNil(o, run, n - 1); }
      }
      if SpawnedIntoNil(o, run, n - 1) {
        var k: nat :| k < n - 1 && NilSpawn(o, run(k));
        assert k < n;
      }
    }
  }

  // ----- The theorems --------------------------------------------------------------------------------------

  lemma {:induction false} RunIsNilRun(o: Oracle, cfg: Config, specs: seq<ChildSpec>)
    ensures NilRun(o, cfg, Stepper(o, cfg), States(o, cfg, specs))
  {
    StartNil(o, cfg, specs);
    StepperNil(o, cfg);
    StatesAreRun(o, cfg, specs);
    assert Run(o, cfg, specs, 0) == Start(o, cfg, specs);
  }

  lemma {:induction false} SaneAlways(o: Oracle, cfg: Config, specs: seq<ChildSpec>, n: nat)
    ensures Sane(cfg, Run(o, cfg, specs, n))
  {
    RunIsNilRun(o, cfg, specs);
    SaneAlong(o, cfg, Stepper(o, cfg), States(o, cfg, specs), n);
  }

  /** A one-for-one supervisor that has started never has a nil map, so its restarts may write into it. */
  lemma {:induction false} NeverNilUnderOneForOne(o: Oracle, cfg: Config, specs: seq<ChildSpec>, n: nat)
    requires cfg.strategy.OneForOne? && !Run(o, cfg, specs, n).status.StartAborted?
    ensures !Run(o, cfg, specs, n).mapNil
  {
    SaneAlways(o, cfg, specs, n);
  }

  /** At the loop of a run the map is nil exactly when, under one-for-all, a restart attempt failed and the backoff
      wait that followed was cut short by the context. */
  lemma {:induction false} NilAtLoopHead(o: Oracle, cfg: Config, specs: seq<ChildSpec>, n: nat)
    requires AtLoop(Run(o, cfg, specs, n).status)
    ensures Run(o, cfg, specs, n).mapNil <==> cfg.strategy.OneForAll? && WasCutShort(o, cfg, States(o, cfg, specs), n)
  {
    RunIsNilRun(o, cfg, specs);
    NilAtLoopExactly(o, cfg, Stepper(o, cfg), States(o, cfg, specs), n);
  }

  /** A run has crashed on a nil map exactly when it took a spawn that started while its map was nil. */
  lemma {:induction false} RunCrashesOnNilExactly(o: Oracle, cfg: Config, specs: seq<ChildSpec>, n: nat)
    ensures NilCrash(Run(o, cfg, specs, n).status) <==> SpawnedIntoNil(o, States(o, cfg, specs), n)
  {
    RunIsNilRun(o, cfg, specs);
    NilCrashExactly(o, cfg, Stepper(o, cfg), States(o, cfg, specs), n);
  }

  /** Without a backoff nothing can be cut short. */
  lemma {:induction false} NeverNilWithoutBackoff(o: Oracle, cfg: Config, specs: seq<ChildSpec>, n: nat)
    requires cfg.backoff.base == 0 && AtLoop(Run(o, cfg, specs, n).status)
    ensures !Run(o, cfg, specs, n).mapNil
  {
    NilAtLoopHead(o, cfg, specs, n);
    var run := States(o, cfg, specs);
    if k: nat :| k < n && CutShortAfterFailure(o, cfg, run, k) {
      NothingToWait(o, cfg, run(k));
      assert false;
    }
  }

  lemma NothingToWait(o: Oracle, cfg: Config, s: Sys)
    requires cfg.backoff.base == 0
    ensures !CutShort(o, cfg, s)
  {}
}
