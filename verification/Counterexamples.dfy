/** Concrete runs that show why the accidents matter: each is a behaviour of the code. */
module Counterexamples {
  import opened Types
  import opened Ordering
  import opened Engine
  import opened Ledger
  import Tolerance
  import Backoff
  import DynSlice
  import NilMap

  const BOOM := Failure(1)

  const QUIET := Choice([], false, Shutdown, None, None, false, false, 0, None, Tolerance.Once(0))

  function Scripted(script: seq<Choice>): Oracle {
    (t: nat) => if t < |script| then script[t] else QUIET
  }

  /** Goroutine `id` ends with `err` and the loop takes its notification. */
  function Ends(id: nat, err: Option<Error>): Choice { QUIET.(exits := [Exit(id, err)], turn := Notify(id)) }

  function Proc0(spec: ChildSpec): Proc { Proc(spec, Running, true, false, false) }

  /** A state, up to its trace. */
  ghost predicate Is(s: Sys, procs: seq<Proc>, tick: nat, specs: seq<ChildSpec>, children: map<string, Child>,
                     count: nat, status: Status) {
    && s.w.procs == procs && s.w.tick == tick && !s.w.done && s.specs == specs && s.children == children
    && s.mgr.policy == Tolerance.Policy(5, 0) && s.mgr.count == count && (count == 0 <==> s.mgr.begin.Zero?)
    && s.status == status
  }

  const PATIENT := Config(LeftToRight, OneForOne, Tolerance.Policy(5, 0), Backoff.Backoff(0, 0))

  lemma {:induction false} SettleOne(procs: seq<Proc>, x: Exit)
    requires x.id < |procs| && procs[x.id].phase.Running?
    ensures Settle(procs, [x]) == procs[x.id := procs[x.id].(phase := Exiting(x.err))]
  {
    assert [x][1..] == [];
  }

  // ----- One failed restart is enough to crash the supervisor ---------------------------------------

  const FLAKY := ChildSpec("a", Worker, Transient, Indefinitely)

  const FLAKY_RUN := Scripted([
    QUIET,                                  // 0: a starts as incarnation 0
    Ends(0, Some(BOOM)),                    // 1: it fails
    QUIET, QUIET.(startErr := Some(BOOM)),  // 2, 3: the restart fails and leaves goroutine 1 behind
    QUIET, QUIET,                           // 4, 5: the next restart gives incarnation 2
    Ends(1, Some(BOOM)),                    // 6: the leftover notification is taken for a failure of 2
    QUIET, QUIET,                           // 7, 8: incarnation 3 takes the place of 2, which is still alive
    Ends(3, None),                          // 9: 3 completes, so the transient a is forgotten
    Ends(2, None)])                         // 10: 2 completes, and nobody knows its name

  lemma TurnNotify(o: Oracle, cfg: Config, s: Sys, id: nat, err: Option<Error>)
    requires s.status.Looping? && o(s.w.tick) == Ends(id, err)
    requires id < |s.w.procs| && s.w.procs[id].phase.Running? && !s.w.procs[id].misread
    ensures var p := s.w.procs[id];
            var q := p.(phase := Gone(ViaNotify, err), misread := !p.started);
            var s' := Step(o, cfg, s);
            && s'.w.procs == s.w.procs[id := q] && s'.w.tick == s.w.tick + 1 && s'.w.done == s.w.done
            && s'.specs == s.specs && s'.mgr == s.mgr && s'.mapNil == s.mapNil
            && if p.spec.name !in s.children then s'.status == Panicked(UnknownName(p.spec.name))
               else
                 var source := s.children[p.spec.name];
                 if source.spec.restart.Permanent? || (source.spec.restart.Transient? && err.Some?)
                 then s'.status == Restarting(source, err) && s'.children == s.children
                 else s'.status == Looping && s'.children == s.children - {source.spec.name}
  {
    SettleOne(s.w.procs, Exit(id, err));
    var s1 := s.(w := Interfere(o, s.w));
    assert s1.w.procs == s.w.procs[id := s.w.procs[id].(phase := Exiting(err))];
    NotifiedTo(s1, id, err);
    assert Step(o, cfg, s) == HandleNotification(s1, id);
    var gone := s.w.procs[id].(phase := Gone(ViaNotify, err), misread := !s.w.procs[id].started);
    assert s1.w.procs[id := gone] == s.w.procs[id := gone];
  }

  lemma NotifiedTo(s: Sys, id: nat, err: Option<Error>)
    requires s.status.Looping? && id < |s.w.procs| && s.w.procs[id].phase == Exiting(err) && !s.w.procs[id].misread
    ensures var p := s.w.procs[id];
            var s' := HandleNotification(s, id);
            && s'.w.procs == s.w.procs[id := p.(phase := Gone(ViaNotify, err), misread := !p.started)]
            && s'.w.tick == s.w.tick && s'.w.done == s.w.done && s'.specs == s.specs && s'.mgr == s.mgr
            && s'.mapNil == s.mapNil
            && if p.spec.name !in s.children then s'.status == Panicked(UnknownName(p.spec.name))
               else
                 var source := s.children[p.spec.name];
                 if source.spec.restart.Permanent? || (source.spec.restart.Transient? && err.Some?)
                 then s'.status == Restarting(source, err) && s'.children == s.children
                 else s'.status == Looping && s'.children == s.children - {source.spec.name}
  {
    if err.Some? {} else {}
  }

  lemma TurnRestart(o: Oracle, cfg: Config, s: Sys, source: Child, err: Error)
    requires cfg == PATIENT && s.status == Restarting(source, Some(err))
    requires o(s.w.tick) == QUIET && o(s.w.tick + 1).exits == [] && !o(s.w.tick + 1).cancel
    requires s.mgr.policy == cfg.policy && s.mgr.count < 5 && (s.mgr.count == 0 <==> s.mgr.begin.Zero?)
    ensures var e := o(s.w.tick + 1).startErr;
            var s' := Step(o, cfg, s);
            && s'.w.procs == s.w.procs + [Proc(source.spec, Running, e.None?, false, false)]
            && s'.w.tick == s.w.tick + 2 && s'.w.done == s.w.done && s'.specs == s.specs
            && s'.mgr.policy == cfg.policy && s'.mgr.count == s.mgr.count + 1 && s'.mgr.begin.At?
            && (e.Some? ==> s'.status == Restarting(source, e) && s'.children == s.children)
            && (e.None? ==>
                  && s'.status == Looping
                  && s'.children == s.children[source.spec.name := Child(|s.w.procs|, source.spec)])
  {
    var a := Tolerance.Admit(s.mgr, err, o(s.w.tick).clock);
    assert Tolerance.Succ32(s.mgr.count) == s.mgr.count + 1;
    assert a.ok && a.mgr.count == s.mgr.count + 1 && a.mgr.policy == cfg.policy && a.mgr.begin.At?;
    var s1 := s.(w := Interfere(o, s.w), mgr := a.mgr);
    assert s1.w.procs == s.w.procs && s1.w.tick == s.w.tick + 1;
    assert Backoff.Duration(cfg.backoff, a.mgr.count) == 0;
    assert Step(o, cfg, s) == OneForOneRestart(o, s1, source);
    assert Interfere(o, s1.w).procs == s.w.procs;
  }

  lemma FlakyStart()
    ensures Is(Run(FLAKY_RUN, PATIENT, [FLAKY], 0), [Proc0(FLAKY)], 1, [FLAKY], map["a" := Child(0, FLAKY)], 0, Looping)
  {
    var o := FLAKY_RUN;
    assert [FLAKY][1..] == [];
    assert Settle([], []) == [];
    var s := StartChildNode(o, VOID, FLAKY);
    assert s.w.procs == [Proc0(FLAKY)];
    assert StartChildNodes(o, s.w, LeftToRight, [FLAKY], [], map["a" := s.child])
           == Launch(s.w, map["a" := s.child], None);
  }

  const LOST_0 := Proc(FLAKY, Gone(ViaNotify, Some(BOOM)), true, false, false)
  const LEFTOVER := Proc(FLAKY, Running, false, false, false)
  const LEFTOVER_READ := Proc(FLAKY, Gone(ViaNotify, Some(BOOM)), false, false, true)
  const COMPLETED_3 := Proc(FLAKY, Gone(ViaNotify, None), true, false, false)

  function FlakyAt(n: nat): Sys { Run(FLAKY_RUN, PATIENT, [FLAKY], n) }

  lemma RestartIs(o: Oracle, s: Sys, procs: seq<Proc>, children: map<string, Child>, count: nat, id: nat,
                  err: Option<Error>)
    requires count < 5 && o(s.w.tick) == QUIET && o(s.w.tick + 1) == QUIET.(startErr := err)
    requires Is(s, procs, s.w.tick, [FLAKY], children, count, Restarting(Child(id, FLAKY), Some(BOOM)))
    ensures Is(Step(o, PATIENT, s), procs + [Proc(FLAKY, Running, err.None?, false, false)], s.w.tick + 2, [FLAKY],
               if err.Some? then children else children["a" := Child(|procs|, FLAKY)], count + 1,
               if err.Some? then Restarting(Child(id, FLAKY), err) else Looping)
  {
    TurnRestart(o, PATIENT, s, Child(id, FLAKY), BOOM);
  }

  lemma Flaky1()
    ensures Is(FlakyAt(1), [LOST_0], 2, [FLAKY], map["a" := Child(0, FLAKY)], 0,
               Restarting(Child(0, FLAKY), Some(BOOM)))
  {
    FlakyStart();
    TurnNotify(FLAKY_RUN, PATIENT, FlakyAt(0), 0, Some(BOOM));
  }

  lemma Flaky2()
    ensures Is(FlakyAt(2), [LOST_0, LEFTOVER], 4, [FLAKY], map["a" := Child(0, FLAKY)], 1,
               Restarting(Child(0, FLAKY), Some(BOOM)))
  {
    Flaky1();
    RestartIs(FLAKY_RUN, FlakyAt(1), [LOST_0], map["a" := Child(0, FLAKY)], 0, 0, Some(BOOM));
    assert [LOST_0] + [LEFTOVER] == [LOST_0, LEFTOVER];
  }

  lemma Flaky3()
    ensures Is(FlakyAt(3), [LOST_0, LEFTOVER, Proc0(FLAKY)], 6, [FLAKY], map["a" := Child(2, FLAKY)], 2, Looping)
  {
    Flaky2();
    FlakyAtLast(FLAKY_RUN, FlakyAt(2));
  }

  lemma FlakyAtLast(o: Oracle, s: Sys)
    requires o(4) == QUIET && o(5) == QUIET
    requires Is(s, [LOST_0, LEFTOVER], 4, [FLAKY], map["a" := Child(0, FLAKY)], 1,
                Restarting(Child(0, FLAKY), Some(BOOM)))
    ensures Is(Step(o, PATIENT, s), [LOST_0, LEFTOVER, Proc0(FLAKY)], 6, [FLAKY], map["a" := Child(2, FLAKY)], 2,
               Looping)
  {
    RestartIs(o, s, [LOST_0, LEFTOVER], map["a" := Child(0, FLAKY)], 1, 0, None);
    assert [LOST_0, LEFTOVER] + [Proc0(FLAKY)] == [LOST_0, LEFTOVER, Proc0(FLAKY)];
    assert map["a" := Child(0, FLAKY)]["a" := Child(2, FLAKY)] == map["a" := Child(2, FLAKY)];
  }

  lemma Flaky4()
    ensures Is(FlakyAt(4), [LOST_0, LEFTOVER_READ, Proc0(FLAKY)], 7, [FLAKY], map["a" := Child(2, FLAKY)], 2,
               Restarting(Child(2, FLAKY), Some(BOOM)))
  {
    Flaky3();
    TurnNotify(FLAKY_RUN, PATIENT, FlakyAt(3), 1, Some(BOOM));
  }

  lemma Flaky5()
    ensures Is(FlakyAt(5), [LOST_0, LEFTOVER_READ, Proc0(FLAKY), Proc0(FLAKY)], 9, [FLAKY],
               map["a" := Child(3, FLAKY)], 3, Looping)
  {
    Flaky4();
    FlakyAgain(FLAKY_RUN, FlakyAt(4));
  }

  lemma FlakyAgain(o: Oracle, s: Sys)
    requires o(7) == QUIET && o(8) == QUIET
    requires Is(s, [LOST_0, LEFTOVER_READ, Proc0(FLAKY)], 7, [FLAKY], map["a" := Child(2, FLAKY)], 2,
                Restarting(Child(2, FLAKY), Some(BOOM)))
    ensures Is(Step(o, PATIENT, s), [LOST_0, LEFTOVER_READ, Proc0(FLAKY), Proc0(FLAKY)], 9, [FLAKY],
               map["a" := Child(3, FLAKY)], 3, Looping)
  {
    RestartIs(o, s, [LOST_0, LEFTOVER_READ, Proc0(FLAKY)], map["a" := Child(2, FLAKY)], 2, 2, None);
    assert [LOST_0, LEFTOVER_READ, Proc0(FLAKY)] + [Proc0(FLAKY)]
           == [LOST_0, LEFTOVER_READ, Proc0(FLAKY), Proc0(FLAKY)];
    assert map["a" := Child(2, FLAKY)]["a" := Child(3, FLAKY)] == map["a" := Child(3, FLAKY)];
  }

  lemma Flaky6()
    ensures Is(FlakyAt(6), [LOST_0, LEFTOVER_READ, Proc0(FLAKY), COMPLETED_3], 10, [FLAKY], map[], 3, Looping)
  {
    Flaky5();
    TurnNotify(FLAKY_RUN, PATIENT, FlakyAt(5), 3, None);
    assert map["a" := Child(3, FLAKY)] - {"a"} == map[];
  }

  /** A static supervisor with one transient worker and a generous tolerance: a single start that fails
      while restarting makes it lose a live child, and later panic on an unknown name. */
  lemma FailedRestartCrashes()
    ensures !NoOrphans(FlakyAt(5).w.procs, FlakyAt(5).children)
    ensures FlakyAt(7).status == Panicked(UnknownName("a"))
  {
    Flaky5();
    assert !Accounted(FlakyAt(5).w.procs, FlakyAt(5).children, 2);
    Flaky6();
    TurnNotify(FLAKY_RUN, PATIENT, FlakyAt(6), 2, None);
  }

  // ----- One shutdown timeout is enough to lose a child -----------------------------------------------

  const SLOW := ChildSpec("b", Worker, Permanent, Timed)

  const TOGETHER := Config(LeftToRight, OneForAll, Tolerance.Policy(5, 0), Backoff.Backoff(0, 0))

  /** A one-for-all restart in which the timer of a live sibling fires. */
  lemma TimeoutOrphans(o: Oracle, s: Sys)
    requires s.specs == [FLAKY, SLOW] && s.children == map["a" := Child(0, FLAKY), "b" := Child(1, SLOW)]
    requires s.w.procs == [LOST_0, Proc0(SLOW)]
    requires o(s.w.tick) == QUIET.(timer := true) && o(s.w.tick + 1) == QUIET && o(s.w.tick + 2) == QUIET
    ensures var s' := OneForAllRestart(o, TOGETHER, s, Child(0, FLAKY));
            s'.status.Looping? && !NoOrphans(s'.w.procs, s'.children)
  {
    var order, specs, children := LeftToRight, s.specs, s.children;
    assert SortTermination(order, specs) == [SLOW, FLAKY];
    assert [SLOW, FLAKY][1..] == [FLAKY] && [FLAKY][1..] == [];
    var late := Proc0(SLOW).(timedOut := true);
    var errs := map["b" := ShutdownTimeout];
    var h := TerminateChildNode(o, s.w, Child(1, SLOW));
    assert h.w.procs == [LOST_0, late] && h.w.tick == s.w.tick + 1 && h.err == Some(ShutdownTimeout);
    assert TerminateChildNodes(o, h.w, [FLAKY], children, Some("a"), errs) == Halts(h.w, errs);
    assert TerminateChildNodes(o, s.w, [SLOW, FLAKY], children, Some("a"), map[]) == Halts(h.w, errs);
    StartBoth(o, h.w);
    var l := StartChildNodes(o, h.w, order, specs, specs, map[]);
    assert l.w.procs[1] == late && l.children["b"] == Child(3, SLOW);
    assert !Accounted(l.w.procs, l.children, 1);
  }

  lemma {:induction false} StartBoth(o: Oracle, w: World)
    requires o(w.tick) == QUIET && o(w.tick + 1) == QUIET
    ensures var l := StartChildNodes(o, w, LeftToRight, [FLAKY, SLOW], [FLAKY, SLOW], map[]);
            && l.err.None? && l.w.procs == w.procs + [Proc0(FLAKY), Proc0(SLOW)] && l.w.tick == w.tick + 2
            && l.w.done == w.done
            && l.children == map["a" := Child(|w.procs|, FLAKY), "b" := Child(|w.procs| + 1, SLOW)]
  {
    var specs, base := [FLAKY, SLOW], |w.procs|;
    assert specs[1..] == [SLOW] && [SLOW][1..] == [];
    var r := StartChildNode(o, w, FLAKY);
    assert r.w.procs == w.procs + [Proc0(FLAKY)];
    var q := StartChildNode(o, r.w, SLOW);
    assert q.w.procs == w.procs + [Proc0(FLAKY), Proc0(SLOW)];
    var acc := map["a" := Child(base, FLAKY), "b" := Child(base + 1, SLOW)];
    assert StartChildNodes(o, q.w, LeftToRight, specs, [], acc) == Launch(q.w, acc, None);
    assert map["a" := Child(base, FLAKY)]["b" := Child(base + 1, SLOW)] == acc;
    assert StartChildNodes(o, r.w, LeftToRight, specs, [SLOW], map["a" := Child(base, FLAKY)])
           == Launch(q.w, acc, None);
  }

  /** An iteration that is admitted and does not wait comes down to one restart. */
  lemma IterationIs(o: Oracle, cfg: Config, s: Sys, source: Child, err: Error, a: Tolerance.Admission<Error>)
    requires s.status == Restarting(source, Some(err)) && a == Tolerance.Admit(s.mgr, err, o(s.w.tick).clock)
    requires a.ok && Backoff.Duration(cfg.backoff, a.mgr.count) == 0
    ensures Step(o, cfg, s) == ExecRestart(o, cfg, s.(w := Interfere(o, s.w), mgr := a.mgr), source)
  {}

  /** The first iteration of a restart loop with tolerance left and without backoff, under one-for-all. */
  lemma FirstIteration(o: Oracle, cfg: Config, s: Sys, source: Child, err: Error)
    requires cfg.strategy.OneForAll? && cfg.backoff.base == 0
    requires cfg.policy.max >= 1 && cfg.policy.window >= 0 && Tolerance.CounterFits(cfg.policy)
    requires s.status == Restarting(source, Some(err)) && s.mgr == Tolerance.Fresh(cfg.policy)
    requires Tolerance.Forward(o(s.w.tick).clock)
    ensures var s1 := s.(w := Interfere(o, s.w), mgr := Tolerance.Admit(s.mgr, err, o(s.w.tick).clock).mgr);
            Step(o, cfg, s) == OneForAllRestart(o, cfg, s1, source)
  {
    var a := Tolerance.Admit(s.mgr, err, o(s.w.tick).clock);
    Tolerance.AdmitMeans(s.mgr, err, o(s.w.tick).clock);
    IterationIs(o, cfg, s, source, err, a);
  }

  lemma TogetherStart(o: Oracle)
    requires o(0) == QUIET && o(1) == QUIET
    ensures var s := Start(o, TOGETHER, [FLAKY, SLOW]);
            && s.w.procs == [Proc0(FLAKY), Proc0(SLOW)] && s.w.tick == 2 && s.specs == [FLAKY, SLOW]
            && s.children == map["a" := Child(0, FLAKY), "b" := Child(1, SLOW)]
            && s.mgr == Tolerance.Fresh(TOGETHER.policy) && s.status == Looping
  {
    StartBoth(o, VOID);
    assert VOID.procs + [Proc0(FLAKY), Proc0(SLOW)] == [Proc0(FLAKY), Proc0(SLOW)];
  }

  /** A static supervisor of two workers under one-for-all: the first fails, and while the second is told to
      stop its timer fires.  The old incarnation of the second lives on beside the new one. */
  lemma TimeoutLosesChild(o: Oracle)
    requires o(0) == QUIET && o(1) == QUIET && o(2) == Ends(0, Some(BOOM)) && o(3) == QUIET
    requires o(4) == QUIET.(timer := true) && o(5) == QUIET && o(6) == QUIET
    ensures var s := Run(o, TOGETHER, [FLAKY, SLOW], 2); s.status.Looping? && !NoOrphans(s.w.procs, s.children)
  {
    TogetherStart(o);
    var s0 := Start(o, TOGETHER, [FLAKY, SLOW]);
    TogetherFails(o, s0);
    assert Run(o, TOGETHER, [FLAKY, SLOW], 0) == s0;
    assert Run(o, TOGETHER, [FLAKY, SLOW], 1) == Step(o, TOGETHER, s0);
  }

  lemma TogetherFails(o: Oracle, s0: Sys)
    requires s0.w.procs == [Proc0(FLAKY), Proc0(SLOW)] && s0.w.tick == 2 && s0.specs == [FLAKY, SLOW]
    requires s0.children == map["a" := Child(0, FLAKY), "b" := Child(1, SLOW)]
    requires s0.mgr == Tolerance.Fresh(TOGETHER.policy) && s0.status == Looping
    requires o(2) == Ends(0, Some(BOOM)) && o(3) == QUIET && o(4) == QUIET.(timer := true) && o(5) == QUIET
             && o(6) == QUIET
    ensures var s := Step(o, TOGETHER, Step(o, TOGETHER, s0)); s.status.Looping? && !NoOrphans(s.w.procs, s.children)
  {
    TurnNotify(o, TOGETHER, s0, 0, Some(BOOM));
    var s := Step(o, TOGETHER, s0);
    assert s.w.procs == [LOST_0, Proc0(SLOW)];
    FirstIteration(o, TOGETHER, s, Child(0, FLAKY), BOOM);
    TimeoutOrphans(o, s.(w := Interfere(o, s.w), mgr := Tolerance.Admit(s.mgr, BOOM, o(s.w.tick).clock).mgr));
  }

  // ----- Reusing the name of a finished child crashes a dynamic supervisor --------------------------------

  /** A turn that spawns. */
  lemma TurnSpawn(o: Oracle, cfg: Config, s: Sys, spec: ChildSpec)
    requires s.status.Looping? && !s.mapNil && o(s.w.tick) == QUIET.(turn := Spawn(spec)) && o(s.w.tick + 1) == QUIET
    ensures var s' := Step(o, cfg, s);
            && s'.w.procs == s.w.procs + [Proc0(spec)] && s'.w.tick == s.w.tick + 2 && s'.w.done == s.w.done
            && s'.specs == s.specs + [spec] && s'.children == s.children[spec.name := Child(|s.w.procs|, spec)]
            && !s'.mapNil && s'.mgr == s.mgr && s'.status == Looping
  {}

  lemma TurnStop(o: Oracle, cfg: Config, s: Sys, spec: ChildSpec)
    requires s.status.Looping? && o(s.w.tick) == QUIET.(turn := Stop(spec.name))
    requires s.specs == [spec, spec] && spec.name in s.children
    ensures Step(o, cfg, s).status == Panicked(SliceBounds)
  {
    DynSlice.ReusedNamePanics(spec, spec);
  }

  /** A temporary worker that ends leaves its spec in the list of a dynamic supervisor.  Once its name is spawned
      again, both specs carry the name, and the message that terminates the new child panics on the slice. */
  lemma {:induction false} ReusedNameCrashes(o: Oracle, cfg: Config, spec: ChildSpec, err: Option<Error>)
    requires spec.restart.Temporary?
    requires o(0) == QUIET.(turn := Spawn(spec)) && o(1) == QUIET && o(2) == Ends(0, err)
    requires o(3) == QUIET.(turn := Spawn(spec)) && o(4) == QUIET && o(5) == QUIET.(turn := Stop(spec.name))
    ensures Run(o, cfg, [], 4).status == Panicked(SliceBounds)
  {
    var s0 := Run(o, cfg, [], 0);
    var none: seq<ChildSpec> := [];
    assert SortStart(cfg.order, none) == none;
    TurnSpawn(o, cfg, s0, spec);
    var s1 := Run(o, cfg, [], 1);
    assert s1.w.procs == [Proc0(spec)] && s1.specs == [spec];
    TurnNotify(o, cfg, s1, 0, err);
    var s2 := Run(o, cfg, [], 2);
    TurnSpawn(o, cfg, s2, spec);
    var s3 := Run(o, cfg, [], 3);
    assert s3.specs == [spec, spec];
    TurnStop(o, cfg, s3, spec);
  }

  // ----- A nil map -------------------------------------------------------------------------------------------

  const KEPT := ChildSpec("a", Worker, Permanent, Indefinitely)
  const LATE := ChildSpec("b", Worker, Permanent, Indefinitely)

  const WAITING := Config(LeftToRight, OneForAll, Tolerance.Policy(5, 0), Backoff.Backoff(1, 1))

  /** A dynamic one-for-all supervisor of one worker which fails, whose restart fails to start, and whose context is
      done during the wait before the next attempt. */
  ghost predicate NilScript(o: Oracle) {
    && o(0) == QUIET.(turn := Spawn(KEPT)) && o(1) == QUIET && o(2) == Ends(0, Some(BOOM))
    && o(3) == QUIET && o(4) == QUIET && o(5) == QUIET.(startErr := Some(BOOM))
    && o(6) == QUIET && o(7) == QUIET.(cancel := true, giveWay := true)
    && o(8) == QUIET.(turn := Spawn(LATE)) && o(9) == QUIET
  }

  /** A tolerated failure, and a wait that is not cut short. */
  lemma WaitedIteration(o: Oracle, cfg: Config, s: Sys, s1: Sys)
    requires s.status.Restarting? && NilMap.Admitted(o, s, s.status.prev) == Some(s1)
    requires Backoff.Duration(cfg.backoff, s1.mgr.count) > 0 && !NilMap.Interrupted(o, cfg, s1)
    ensures Step(o, cfg, s) == ExecRestart(o, cfg, s1.(w := Interfere(o, s1.w)), s.status.source)
  {}

  lemma CutIteration(o: Oracle, cfg: Config, s: Sys, s1: Sys)
    requires s.status.Restarting? && NilMap.Admitted(o, s, s.status.prev) == Some(s1)
    requires NilMap.Interrupted(o, cfg, s1)
    ensures Step(o, cfg, s) == s1.(w := Interfere(o, s1.w), status := Looping)
  {}

  /** One failure more, while the counter is below the top. */
  lemma OneMoreAdmitted(o: Oracle, s: Sys, err: Error)
    requires s.mgr.policy == Tolerance.Policy(5, 0) && s.mgr.count < 5 && (s.mgr.count == 0 <==> s.mgr.begin.Zero?)
    ensures var r := NilMap.Admitted(o, s, Some(err));
            && r.Some? && r.value.mgr.policy == s.mgr.policy && r.value.mgr.count == s.mgr.count + 1
            && r.value.mgr.begin.At?
            && r.value == s.(w := Interfere(o, s.w), mgr := r.value.mgr)
  {
    assert Tolerance.Succ32(s.mgr.count) == s.mgr.count + 1;
  }

  lemma {:induction false} AloneFails(o: Oracle, s: Sys)
    requires s.specs == [KEPT] && o(s.w.tick).startErr.Some? && o(s.w.tick).exits == [] && !o(s.w.tick).cancel
    ensures var s' := OneForAllRestart(o, WAITING, s, Child(0, KEPT));
            && s'.w.procs == s.w.procs + [Proc(KEPT, Running, false, false, false)] && s'.w.tick == s.w.tick + 1
            && s'.w.done == s.w.done && s'.children == map[] && s'.mapNil && s'.specs == s.specs && s'.mgr == s.mgr
            && s'.status.Restarting? && s'.status.source == Child(0, KEPT) && s'.status.prev.Some?
  {
    var skip := Some(KEPT.name);
    assert SortTermination(LeftToRight, [KEPT]) == [KEPT] && SortStart(LeftToRight, [KEPT]) == [KEPT]
           && [KEPT][1..] == [];
    assert TerminateChildNodes(o, s.w, [], s.children, skip, map[]) == Halts(s.w, map[]);
    assert TerminateChildNodes(o, s.w, [KEPT], s.children, skip, map[]) == Halts(s.w, map[]);
    var r := StartChildNode(o, s.w, KEPT);
    assert r.w.procs == s.w.procs + [Proc(KEPT, Running, false, false, false)];
    assert TerminateChildNodes(o, r.w, [], map[], None, map[]) == Halts(r.w, map[]);
    assert TerminateChildNodes(o, r.w, [KEPT], map[], None, map[]) == Halts(r.w, map[]);
  }

  const DEAD_0 := Proc(KEPT, Gone(ViaNotify, Some(BOOM)), true, false, false)
  const FAILED_1 := Proc(KEPT, Running, false, false, false)

  /** A tolerated failure and a wait that runs out, up to the restart. */
  lemma AfterWait(o: Oracle, cfg: Config, s: Sys, err: Error) returns (s2: Sys)
    requires cfg.strategy.OneForAll? && s.status.Restarting? && s.status.prev == Some(err) && !s.w.done
    requires s.mgr.policy == Tolerance.Policy(5, 0) && s.mgr.count < 5 && (s.mgr.count == 0 <==> s.mgr.begin.Zero?)
    requires Backoff.Duration(cfg.backoff, s.mgr.count + 1) > 0
    requires Silent(o(s.w.tick)) && Silent(o(s.w.tick + 1))
    ensures s2.w == s.w.(tick := s.w.tick + 2) && s2.specs == s.specs
    ensures s2.mgr.policy == s.mgr.policy && s2.mgr.count == s.mgr.count + 1 && s2.mgr.begin.At?
    ensures Step(o, cfg, s) == OneForAllRestart(o, cfg, s2, s.status.source)
  {
    OneMoreAdmitted(o, s, err);
    var s1 := NilMap.Admitted(o, s, Some(err)).value;
    SilentTick(o, s.w);
    SilentTick(o, s1.w);
    WaitedIteration(o, cfg, s, s1);
    s2 := s1.(w := Interfere(o, s1.w));
  }

  predicate Silent(c: Choice) { c.exits == [] && !c.cancel }

  lemma SilentTick(o: Oracle, w: World)
    requires Silent(o(w.tick)) && !w.done
    ensures Interfere(o, w) == w.(tick := w.tick + 1)
  {}

  /** From the failure of the worker back to the restart loop, with a nil map. */
  lemma NilAfterFirst(o: Oracle, s: Sys)
    requires NilScript(o) && s.w.tick == 3 && !s.w.done && s.w.procs == [DEAD_0] && s.specs == [KEPT]
    requires s.status == Restarting(Child(0, KEPT), Some(BOOM)) && s.mgr == Tolerance.Fresh(WAITING.policy)
    ensures var t := Step(o, WAITING, s);
            && t.w.tick == 6 && t.w.procs == [DEAD_0, FAILED_1] && t.specs == [KEPT] && t.mapNil
            && t.status.Restarting? && t.status.prev.Some?
            && t.mgr.policy == WAITING.policy && t.mgr.count == 1 && t.mgr.begin.At?
  {
    WaitsOneTick(1);
    var s2 := AfterWait(o, WAITING, s, BOOM);
    AloneFails(o, s2);
    assert [DEAD_0] + [FAILED_1] == [DEAD_0, FAILED_1];
  }

  /** Every wait is cut to the cap of one nanosecond. */
  lemma WaitsOneTick(count: nat)
    requires 1 <= count <= 2
    ensures Backoff.Duration(WAITING.backoff, count) == 1
  {
    assert Backoff.Pow2(0) == 1 && Backoff.Pow2(1) == 2 * Backoff.Pow2(0);
    Backoff.DurationIsIntendedExactly(WAITING.backoff, count);
  }

  /** And on to the crash. */
  lemma NilToTheEnd(o: Oracle, s: Sys, t: Sys, u: Sys, v: Sys)
    requires NilScript(o) && s.w.tick == 3 && !s.w.done && s.w.procs == [DEAD_0] && s.specs == [KEPT]
    requires s.status == Restarting(Child(0, KEPT), Some(BOOM)) && s.mgr == Tolerance.Fresh(WAITING.policy)
    requires t == Step(o, WAITING, s) && u == Step(o, WAITING, t) && v == Step(o, WAITING, u)
    ensures v.status == Panicked(NilMapWrite(Child(2, LATE))) && v.specs == [KEPT]
            && v.w.procs == [DEAD_0, FAILED_1, Proc0(LATE)]
  {
    NilAfterFirst(o, s);
    NilAfterSecond(o, t);
    NilCrash(o, u);
    assert [DEAD_0, FAILED_1] + [Proc0(LATE)] == [DEAD_0, FAILED_1, Proc0(LATE)];
  }

  lemma NilAfterSecond(o: Oracle, t: Sys)
    requires NilScript(o) && t.w.tick == 6 && t.w.procs == [DEAD_0, FAILED_1] && t.specs == [KEPT] && t.mapNil
    requires t.status.Restarting? && t.status.prev.Some?
    requires t.mgr.policy == WAITING.policy && t.mgr.count == 1 && t.mgr.begin.At?
    ensures var s' := Step(o, WAITING, t);
            && s'.status == Looping && s'.mapNil && s'.w.tick == 8 && s'.w.procs == [DEAD_0, FAILED_1]
            && s'.specs == [KEPT]
  {
    OneMoreAdmitted(o, t, t.status.prev.value);
    var t1 := NilMap.Admitted(o, t, t.status.prev).value;
    WaitsOneTick(2);
    CutIteration(o, WAITING, t, t1);
  }

  lemma NilCrash(o: Oracle, s: Sys)
    requires NilScript(o) && s.status == Looping && s.mapNil && s.w.tick == 8
    ensures var s' := Step(o, WAITING, s);
            && s'.status == Panicked(NilMapWrite(Child(|s.w.procs|, LATE))) && s'.specs == s.specs
            && s'.w.procs == s.w.procs + [Proc0(LATE)]
  {}

  /** A run without accidents and with distinct names in which a spawn writes into the nil map and panics. */
  lemma {:induction false} NilMapCrashes(o: Oracle)
    requires NilScript(o)
    ensures var s := States(o, WAITING, [])(5);
            s.status == Panicked(NilMapWrite(Child(2, LATE))) && FaultFree(s.w.procs) && DynSlice.DistinctNames(s.specs)
  {
    NilBegins(o);
    var run := States(o, WAITING, []);
    RunSteps(o, WAITING, 2);
    RunSteps(o, WAITING, 3);
    RunSteps(o, WAITING, 4);
    NilToTheEnd(o, run(2), run(3), run(4), run(5));
  }

  lemma {:induction false} RunSteps(o: Oracle, cfg: Config, n: nat)
    ensures States(o, cfg, [])(n + 1) == Step(o, cfg, States(o, cfg, [])(n))
  {}

  lemma {:induction false} NilBegins(o: Oracle)
    requires NilScript(o)
    ensures var s := States(o, WAITING, [])(2);
            && s.w.tick == 3 && !s.w.done && s.w.procs == [DEAD_0] && s.specs == [KEPT]
            && s.status == Restarting(Child(0, KEPT), Some(BOOM)) && s.mgr == Tolerance.Fresh(WAITING.policy)
  {
    var none: seq<ChildSpec> := [];
    assert SortStart(LeftToRight, none) == none;
    var s0 := Run(o, WAITING, [], 0);
    TurnSpawn(o, WAITING, s0, KEPT);
    var s1 := Run(o, WAITING, [], 1);
    assert s1.w.procs == [Proc0(KEPT)] && s1.specs == [KEPT];
    TurnNotify(o, WAITING, s1, 0, Some(BOOM));
  }

  // ----- A failed spawn that drains somebody else's exit -------------------------------------------------------

  /** A dynamic supervisor of one permanent worker, which ends while a second one fails to start. */
  ghost predicate DrainScript(o: Oracle) {
    && o(0) == QUIET.(turn := Spawn(KEPT)) && o(1) == QUIET
    && o(2) == QUIET.(turn := Spawn(LATE)) && o(3) == QUIET.(startErr := Some(BOOM))
    && o(4) == QUIET.(exits := [Exit(0, Some(BOOM))], drain := 0) && o(5) == Ends(1, Some(BOOM))
  }

  lemma TurnFailedSpawn(o: Oracle, cfg: Config, s: Sys, spec: ChildSpec, err: Error)
    requires s.status.Looping? && o(s.w.tick) == QUIET.(turn := Spawn(spec))
             && o(s.w.tick + 1) == QUIET.(startErr := Some(err))
    ensures var s' := Step(o, cfg, s);
            && s'.w.procs == s.w.procs + [Proc(spec, Running, false, false, false)] && s'.w.tick == s.w.tick + 2
            && s'.w.done == s.w.done && s'.specs == s.specs && s'.children == s.children && s'.mapNil == s.mapNil
            && s'.mgr == s.mgr && s'.status == Draining
  {}

  lemma TurnDrain(o: Oracle, cfg: Config, s: Sys, id: nat, err: Option<Error>)
    requires s.status.Draining? && o(s.w.tick) == QUIET.(exits := [Exit(id, err)], drain := id)
    requires id < |s.w.procs| && s.w.procs[id].phase.Running? && !s.w.procs[id].misread
    ensures var p := s.w.procs[id];
            var s' := Step(o, cfg, s);
            && s'.w.procs == s.w.procs[id := p.(phase := Gone(ViaNotify, err), misread := p.started)]
            && s'.w.tick == s.w.tick + 1
            && s'.w.trace == s.w.trace && s'.specs == s.specs && s'.children == s.children && s'.status == Looping
  {
    SettleOne(s.w.procs, Exit(id, err));
  }

  /** The exit of the permanent worker is taken for the failed start: nobody restarts it, though it stays in the map.
      Then the leftover notification of the failed start, whose name is in no map, panics the supervisor. */
  lemma {:induction false} DrainLosesChild(o: Oracle, cfg: Config)
    requires DrainScript(o)
    ensures var s := Run(o, cfg, [], 3);
            && s.status == Looping && s.children == map["a" := Child(0, KEPT)] && !Live(s.w.procs, s.children, "a")
            && |s.w.procs| == 2 && s.w.procs[0].misread && Run(o, cfg, [], 4).status == Panicked(UnknownName("b"))
  {
    var none: seq<ChildSpec> := [];
    assert SortStart(cfg.order, none) == none;
    var s0 := Run(o, cfg, [], 0);
    TurnSpawn(o, cfg, s0, KEPT);
    var s1 := Run(o, cfg, [], 1);
    assert s1.w.procs == [Proc0(KEPT)];
    TurnFailedSpawn(o, cfg, s1, LATE, BOOM);
    var s2 := Run(o, cfg, [], 2);
    assert s2.w.procs == [Proc0(KEPT), Proc(LATE, Running, false, false, false)];
    TurnDrain(o, cfg, s2, 0, Some(BOOM));
    TurnNotify(o, cfg, Run(o, cfg, [], 3), 1, Some(BOOM));
  }
}
