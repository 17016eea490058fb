/** Safety over whole runs: in every reachable state each live child goroutine is the one recorded
    under its name, every worker's events alternate, nobody outlives the supervisor. */
module Runs {
  import opened Types
  import opened Ordering
  import opened Engine
  import opened Ledger
  import opened Operations
  import DynSlice
  import NilMap
  import Stepping
  import Tolerance

  // ----- Growth of a step -------------------------------------------------------------------------

  lemma InterfereContinues(o: Oracle, w: World)
    ensures Continues(w, Interfere(o, w)) && Silent(w, Interfere(o, w))
  {
    InterfereKeeps(o, w);
  }

  lemma TerminateSupervisorContinues(o: Oracle, cfg: Config, s: Sys, r: Option<GaveUp>)
    ensures var w' := TerminateSupervisor(o, cfg, s, r).w;
            && Continues(s.w, w') && w'.trace != [] && w'.trace[|w'.trace| - 1].kind.Cleanup?
            && |s.w.trace| < |w'.trace|
            && forall i :: |s.w.trace| <= i < |w'.trace| - 1 ==> !IsOwn(w'.trace[i])
  {
    var todo := SortTermination(cfg.order, s.specs);
    var h := TerminateChildNodes(o, s.w, todo, s.children, None, map[]);
    TerminateChildNodesGrows(o, s.w, todo, s.children, None, map[]);
    InterfereContinues(o, h.w);
    ContinuesTrans(s.w, h.w, Interfere(o, h.w));
    ContinuesTrans(s.w, Interfere(o, h.w), TerminateSupervisor(o, cfg, s, r).w);
  }

  lemma RestartContinues(o: Oracle, cfg: Config, s: Sys, source: Child)
    ensures var s' := ExecRestart(o, cfg, s, source); Continues(s.w, s'.w) && Silent(s.w, s'.w)
  {
    if cfg.strategy.OneForOne? {
      InterfereKeeps(o, s.w);
    } else {
      var todo := SortTermination(cfg.order, s.specs);
      var h := TerminateChildNodes(o, s.w, todo, s.children, Some(source.spec.name), map[]);
      TerminateChildNodesGrows(o, s.w, todo, s.children, Some(source.spec.name), map[]);
      StartChildNodesGrows(o, h.w, cfg.order, s.specs, SortStart(cfg.order, s.specs), map[]);
      ContinuesTrans(s.w, h.w, OneForAllRestart(o, cfg, s, source).w);
    }
  }

  lemma BackoffAndRestartContinues(o: Oracle, cfg: Config, s: Sys, source: Child)
    ensures var s' := BackoffAndRestart(o, cfg, s, source); Continues(s.w, s'.w) && Silent(s.w, s'.w)
  {
    RestartContinues(o, cfg, s, source);
    var s1 := s.(w := Interfere(o, s.w));
    InterfereContinues(o, s.w);
    RestartContinues(o, cfg, s1, source);
    ContinuesTrans(s.w, s1.w, ExecRestart(o, cfg, s1, source).w);
  }

  lemma RestartIterationContinues(o: Oracle, cfg: Config, s: Sys, source: Child, prev: Option<Error>)
    ensures var s' := RestartIteration(o, cfg, s, source, prev);
            Continues(s.w, s'.w) && (!s'.status.Finished? ==> Silent(s.w, s'.w))
  {
    if prev.None? {
      BackoffAndRestartContinues(o, cfg, s, source);
    } else {
      var a := Tolerance.Admit(s.mgr, prev.value, o(s.w.tick).clock);
      var s1 := s.(w := Interfere(o, s.w), mgr := a.mgr);
      InterfereContinues(o, s.w);
      if a.ok {
        BackoffAndRestartContinues(o, cfg, s1, source);
      } else {
        TerminateSupervisorContinues(o, cfg, s1,
          Some(GaveUp(source.spec.name, cfg.policy.max, cfg.policy.window, a.mgr.source, prev.value)));
      }
      ContinuesTrans(s.w, s1.w, RestartIteration(o, cfg, s, source, prev).w);
    }
  }

  lemma HandleNotificationContinues(s: Sys, id: nat)
    requires id < |s.w.procs| && s.w.procs[id].phase.Exiting?
    ensures var s' := HandleNotification(s, id); Continues(s.w, s'.w) && Silent(s.w, s'.w)
  {
    var p := s.w.procs[id];
    var s1 := s.(w := Receive(s.w, id, !p.started));
    ReceiveContinues(s.w, id, !p.started);
    if p.spec.name in s.children {
      var source := s.children[p.spec.name];
      if p.phase.err.Some? {
        ErrorContinues(s1, source, p.phase.err.value);
      } else {
        CompletionContinues(s1, source);
      }
      ContinuesTrans(s.w, s1.w, HandleNotification(s, id).w);
    }
  }

  lemma ReceiveContinues(w: World, id: nat, misread: bool)
    requires id < |w.procs| && w.procs[id].phase.Exiting?
    ensures Continues(w, Receive(w, id, misread)) && Silent(w, Receive(w, id, misread))
  {}

  lemma ErrorContinues(s: Sys, source: Child, err: Error)
    ensures var s' := HandleError(s, source, err); Continues(s.w, s'.w) && Silent(s.w, s'.w)
  {}

  lemma CompletionContinues(s: Sys, source: Child)
    ensures var s' := HandleCompletion(s, source); Continues(s.w, s'.w) && Silent(s.w, s'.w)
  {}

  lemma LoopTurnContinues(o: Oracle, cfg: Config, s: Sys)
    ensures var s' := LoopTurn(o, cfg, s); Continues(s.w, s'.w) && (!s'.status.Finished? ==> Silent(s.w, s'.w))
  {
    var s1 := s.(w := Interfere(o, s.w));
    InterfereContinues(o, s.w);
    match o(s.w.tick).turn {
      case Shutdown => TerminateSupervisorContinues(o, cfg, s1, None);
      case Notify(id) => if id < |s1.w.procs| && s1.w.procs[id].phase.Exiting? { HandleNotificationContinues(s1, id); }
      case Spawn(spec) => StartChildNodeGrows(o, s1.w, spec);
      case Stop(name) => if name in s1.children { TerminateChildNodeGrows(o, s1.w, s1.children[name]); }
    }
    ContinuesTrans(s.w, s1.w, LoopTurn(o, cfg, s).w);
  }

  /** No step forgets a goroutine, an accident, a delivered exit or an event; and none but the one that finishes the
      supervisor reports anything of the supervisor itself. */
  lemma StepContinues(o: Oracle, cfg: Config, s: Sys)
    ensures var s' := Step(o, cfg, s);
            Continues(s.w, s'.w) && (!s'.status.Finished? || s.status.Finished? ==> Silent(s.w, s'.w))
  {
    match s.status {
      case Looping => LoopTurnContinues(o, cfg, s);
      case Restarting(source, prev) => RestartIterationContinues(o, cfg, s, source, prev);
      case Draining => InterfereContinues(o, s.w);
      case _ =>
    }
  }

  // ----- The inductive invariant ------------------------------------------------------------------

  /** The children that have been handed to the supervisor: those of its map, and the one whose entry it could
      not write when it panicked. */
  function Owner(s: Sys): map<string, Child> {
    match s.status
    case Panicked(NilMapWrite(child)) => s.children[child.spec.name := child]
    case _ => s.children
  }

  ghost predicate Good(s: Sys) {
    && Balanced(s.w, Owner(s)) && Covered(s.specs, s.children)
    && match s.status
       case Looping => true
       case Draining => true
       case Restarting(source, _) => !Live(s.w.procs, s.children, source.spec.name) && Named(s.specs, source.spec.name)
       case StartAborted(_) => AllDelivered(s.w.procs)
       case Finished(_) => AllDelivered(s.w.procs)
       case Panicked(crash) => crash.NilMapWrite?
  }

  lemma TerminateSupervisorIsGood(o: Oracle, cfg: Config, s: Sys, r: Option<GaveUp>)
    requires Balanced(s.w, s.children) && Covered(s.specs, s.children) && DynSlice.DistinctNames(s.specs)
    requires FaultFree(TerminateSupervisor(o, cfg, s, r).w.procs)
    ensures Good(TerminateSupervisor(o, cfg, s, r))
  {
    var todo := SortTermination(cfg.order, s.specs);
    var h := TerminateChildNodes(o, s.w, todo, s.children, None, map[]);
    InterfereKeeps(o, h.w);
    FaultFreeBefore(h.w.procs, Interfere(o, h.w).procs);
    StopEverybody(o, s.w, cfg.order, s.specs, s.children, map[]);
    LedgerInterfere(o, h.w, s.children);
    LedgerSilent(Interfere(o, h.w), s.children, Event(Cleanup, Supervisor, SELF, 0, o(h.w.tick).cleanupErr));
  }

  lemma OneForOneIsGood(o: Oracle, s: Sys, source: Child)
    requires Balanced(s.w, s.children) && Covered(s.specs, s.children)
    requires !Live(s.w.procs, s.children, source.spec.name) && Named(s.specs, source.spec.name)
    ensures Good(OneForOneRestart(o, s, source))
  {
    LedgerDoStart(o, s.w, s.children, source.spec);
    if source.spec.name in s.children { assert Recorded(s.w.procs, s.children, source.spec.name); }
  }

  /** The stop half of a one-for-all restart: every sibling that was still live is stopped, in reverse
      start order, so that nobody at all is live when the first child starts. */
  lemma OneForAllStops(o: Oracle, cfg: Config, s: Sys, source: Child)
    requires Balanced(s.w, s.children) && Covered(s.specs, s.children) && DynSlice.DistinctNames(s.specs)
    requires !Live(s.w.procs, s.children, source.spec.name)
    requires FaultFree(OneForAllRestart(o, cfg, s, source).w.procs)
    ensures var skip, todo := Some(source.spec.name), SortTermination(cfg.order, s.specs);
            var h := TerminateChildNodes(o, s.w, todo, s.children, skip, map[]);
            && todo == Reverse(SortStart(cfg.order, s.specs))
            && Stopped(s.w, h, todo, s.children, skip, map[])
            && Balanced(h.w, map[]) && AllDelivered(h.w.procs)
  {
    var skip, todo := Some(source.spec.name), SortTermination(cfg.order, s.specs);
    var h := TerminateChildNodes(o, s.w, todo, s.children, skip, map[]);
    StartChildNodesGrows(o, h.w, cfg.order, s.specs, SortStart(cfg.order, s.specs), map[]);
    FaultFreeBefore(h.w.procs, OneForAllRestart(o, cfg, s, source).w.procs);
    SortedNames(cfg.order, s.specs);
    StopReversesStart(cfg.order, s.specs);
    StopAll(o, s.w, todo, s.children, skip, map[]);
    forall n | n in s.children ensures !Live(h.w.procs, s.children, n) {
      assert Named(s.specs, n);
      assert n != source.spec.name ==> Visits(todo, skip, n);
    }
    LedgerForget(h.w, s.children, map[]);
    forall id | 0 <= id < |h.w.procs| && h.w.procs[id].started ensures !Undelivered(h.w.procs[id]) {
      assert Accounted(h.w.procs, map[], id);
    }
  }

  lemma OneForAllStarts(o: Oracle, cfg: Config, s: Sys, source: Child)
    requires Balanced(s.w, s.children) && Covered(s.specs, s.children) && DynSlice.DistinctNames(s.specs)
    requires !Live(s.w.procs, s.children, source.spec.name)
    requires FaultFree(OneForAllRestart(o, cfg, s, source).w.procs)
    ensures var h := TerminateChildNodes(o, s.w, SortTermination(cfg.order, s.specs), s.children,
                                         Some(source.spec.name), map[]);
            var todo := SortStart(cfg.order, s.specs);
            && |h.w.procs| == |s.w.procs|
            && Launched(h.w, StartChildNodes(o, h.w, cfg.order, s.specs, todo, map[]), s.specs, todo, map[])
  {
    var h := TerminateChildNodes(o, s.w, SortTermination(cfg.order, s.specs), s.children, Some(source.spec.name),
                                 map[]);
    TerminateChildNodesGrows(o, s.w, SortTermination(cfg.order, s.specs), s.children, Some(source.spec.name), map[]);
    OneForAllStops(o, cfg, s, source);
    SortedNames(cfg.order, s.specs);
    var todo := SortStart(cfg.order, s.specs);
    forall spec | spec in todo ensures Named(s.specs, spec.name) {
      assert Named(todo, spec.name);
    }
    StartAll(o, h.w, cfg.order, s.specs, todo, map[]);
  }

  /** The outcome of a one-for-all restart.  On success the map holds exactly the spec names, all with
      incarnations newer than anything that existed before the restart, reported in start order; on
      failure whatever it started has been stopped again, so the empty map it leaves loses nobody. */
  lemma OneForAllOutcome(o: Oracle, cfg: Config, s: Sys, source: Child)
    requires Balanced(s.w, s.children) && Covered(s.specs, s.children) && DynSlice.DistinctNames(s.specs)
    requires !Live(s.w.procs, s.children, source.spec.name)
    requires FaultFree(OneForAllRestart(o, cfg, s, source).w.procs)
    ensures var h := TerminateChildNodes(o, s.w, SortTermination(cfg.order, s.specs), s.children,
                                         Some(source.spec.name), map[]);
            var s' := OneForAllRestart(o, cfg, s, source);
            && Balanced(s'.w, s'.children) && Covered(s.specs, s'.children)
            && (s'.status.Looping? ==>
                  && (forall name :: name in s'.children <==> Named(s.specs, name))
                  && FreshFrom(s'.children, s.specs, |s.w.procs|)
                  && s'.w.trace == h.w.trace + StartEvents(SortStart(cfg.order, s.specs), |s.w.procs|))
            && (!s'.status.Looping? ==> s'.status.Restarting? && s'.children == map[] && AllDelivered(s'.w.procs))
  {
    OneForAllStarts(o, cfg, s, source);
    var h := TerminateChildNodes(o, s.w, SortTermination(cfg.order, s.specs), s.children, Some(source.spec.name),
                                 map[]);
    var l := StartChildNodes(o, h.w, cfg.order, s.specs, SortStart(cfg.order, s.specs), map[]);
    if l.err.None? {
      LaunchedAll(l.children, cfg.order, s.specs, |h.w.procs|);
    }
  }

  lemma LaunchedAll(children: map<string, Child>, order: Order, specs: seq<ChildSpec>, base: nat)
    requires FreshFrom(children, SortStart(order, specs), base)
    requires forall name :: name in children ==> Named(SortStart(order, specs), name)
    ensures forall name :: name in children <==> Named(specs, name)
    ensures FreshFrom(children, specs, base)
  {
    SameElements(specs);
    assert forall spec :: spec in SortStart(order, specs) <==> spec in specs;
    forall name ensures name in children <==> Named(specs, name) {
      if name in children {
        var spec :| spec in SortStart(order, specs) && spec.name == name;
        assert spec in specs;
      }
      if Named(specs, name) {
        var spec :| spec in specs && spec.name == name;
        assert spec in SortStart(order, specs);
      }
    }
  }

  lemma BackoffAndRestartIsGood(o: Oracle, cfg: Config, s: Sys, source: Child)
    requires Balanced(s.w, s.children) && Covered(s.specs, s.children) && DynSlice.DistinctNames(s.specs)
    requires !Live(s.w.procs, s.children, source.spec.name) && Named(s.specs, source.spec.name)
    requires FaultFree(BackoffAndRestart(o, cfg, s, source).w.procs)
    ensures Good(BackoffAndRestart(o, cfg, s, source))
  {
    var s1 := s.(w := Interfere(o, s.w));
    LedgerInterfere(o, s.w, s.children);
    InterfereKeeps(o, s.w);
    if BackoffAndRestart(o, cfg, s, source) == ExecRestart(o, cfg, s, source) {
      if cfg.strategy.OneForOne? { OneForOneIsGood(o, s, source); } else { OneForAllOutcome(o, cfg, s, source); }
    } else if BackoffAndRestart(o, cfg, s, source) == ExecRestart(o, cfg, s1, source) {
      if cfg.strategy.OneForOne? { OneForOneIsGood(o, s1, source); } else { OneForAllOutcome(o, cfg, s1, source); }
    }
  }

  lemma RestartIterationIsGood(o: Oracle, cfg: Config, s: Sys)
    requires Good(s) && s.status.Restarting? && DynSlice.DistinctNames(s.specs)
    requires FaultFree(Step(o, cfg, s).w.procs)
    ensures Good(Step(o, cfg, s))
  {
    var source, prev := s.status.source, s.status.prev;
    if prev.None? {
      BackoffAndRestartIsGood(o, cfg, s, source);
    } else {
      var a := Tolerance.Admit(s.mgr, prev.value, o(s.w.tick).clock);
      var s1 := s.(w := Interfere(o, s.w), mgr := a.mgr);
      LedgerInterfere(o, s.w, s.children);
      InterfereKeeps(o, s.w);
      if a.ok {
        BackoffAndRestartIsGood(o, cfg, s1, source);
      } else {
        TerminateSupervisorIsGood(o, cfg, s1,
          Some(GaveUp(source.spec.name, cfg.policy.max, cfg.policy.window, a.mgr.source, prev.value)));
      }
    }
  }

  lemma HandleNotificationIsGood(s: Sys, id: nat)
    requires Balanced(s.w, s.children) && Covered(s.specs, s.children) && s.status.Looping?
    requires id < |s.w.procs| && s.w.procs[id].phase.Exiting?
    requires FaultFree(HandleNotification(s, id).w.procs)
    ensures Good(HandleNotification(s, id))
  {
    var p := s.w.procs[id];
    var name := p.spec.name;
    var w1 := Receive(s.w, id, !p.started);
    HandledProcs(s, id);
    assert Sound(w1.procs[id]);
    assert Accounted(s.w.procs, s.children, id);
    var source := s.children[name];
    assert Recorded(s.w.procs, s.children, name) && source.spec == p.spec;
    LedgerDeliver(s.w, s.children, name, w1.procs[id]);
    if p.phase.err.Some? {
      ErrorIsGood(s.(w := w1), source, p.phase.err.value);
    } else {
      CompletionIsGood(s.(w := w1), source);
    }
  }

  lemma HandledProcs(s: Sys, id: nat)
    requires id < |s.w.procs| && s.w.procs[id].phase.Exiting?
    ensures HandleNotification(s, id).w.procs == Receive(s.w, id, !s.w.procs[id].started).procs
  {}

  /** What handling a notification comes to, before any restart. */
  lemma HandlingMeans(s: Sys, id: nat)
    requires s.status.Looping? && id < |s.w.procs| && s.w.procs[id].phase.Exiting?
    ensures var p := s.w.procs[id];
            var name := p.spec.name;
            var s' := HandleNotification(s, id);
            && s'.w.procs == Receive(s.w, id, !p.started).procs && s'.w.done == s.w.done && s'.specs == s.specs
            && if name !in s.children then s'.status.Panicked? && s'.children == s.children
               else if s'.status.Looping? then s'.children == s.children - {s.children[name].spec.name}
               else s'.status.Restarting? && s'.status.source == s.children[name] && s'.children == s.children
  {}

  lemma ErrorIsGood(s: Sys, source: Child, err: Error)
    requires Balanced(Emit(s.w, Event(Failed, source.spec.tag, source.spec.name, source.id, Some(err))), s.children)
    requires Covered(s.specs, s.children) && source.spec.name in s.children
             && !Live(s.w.procs, s.children, source.spec.name)
    ensures Good(HandleError(s, source, err))
  {
    var w1 := Emit(s.w, Event(Failed, source.spec.tag, source.spec.name, source.id, Some(err)));
    LedgerForget(w1, s.children, s.children - {source.spec.name});
  }

  lemma CompletionIsGood(s: Sys, source: Child)
    requires source.spec.tag.Worker?
             ==> Balanced(Emit(s.w, Event(Completed, Worker, source.spec.name, source.id, None)), s.children)
    requires source.spec.tag.Supervisor? ==> Balanced(s.w, s.children)
    requires Covered(s.specs, s.children) && source.spec.name in s.children
             && !Live(s.w.procs, s.children, source.spec.name)
    ensures Good(HandleCompletion(s, source))
  {
    var w1 := if source.spec.tag.Worker? then Emit(s.w, Event(Completed, Worker, source.spec.name, source.id, None))
              else s.w;
    LedgerForget(w1, s.children, s.children - {source.spec.name});
  }

  lemma SpawnIsGood(o: Oracle, s: Sys, spec: ChildSpec)
    requires Balanced(s.w, s.children) && Covered(s.specs, s.children) && s.status.Looping?
    requires DynSlice.DistinctNames(SpawnChild(o, s, spec).specs) && (s.mapNil ==> s.children == map[])
    ensures Good(SpawnChild(o, s, spec))
  {
    var s' := SpawnChild(o, s, spec);
    if s'.status.Looping? {
      assert s'.specs == s.specs + [spec];
      assert forall i :: 0 <= i < |s.specs| ==> s'.specs[i] == s.specs[i];
      assert s'.specs[|s.specs|] == spec;
      assert !Named(s.specs, spec.name);
      forall name | Named(s.specs, name) || name == spec.name ensures Named(s'.specs, name) {
        assert spec in s'.specs;
        if Named(s.specs, name) { var x :| x in s.specs && x.name == name; assert x in s'.specs; }
      }
    }
    var r := StartChildNode(o, s.w, spec);
    if r.err.None? { assert spec.name !in s.children; }
    StartOne(o, s.w, s.children, spec);
  }

  lemma StopIsGood(o: Oracle, s: Sys, name: string)
    requires Balanced(s.w, s.children) && Covered(s.specs, s.children) && s.status.Looping?
    requires DynSlice.DistinctNames(s.specs)
    requires FaultFree(StopChild(o, s, name).w.procs)
    ensures Good(StopChild(o, s, name))
  {
    if name in s.children {
      DynSlice.DeleteWithDistinctNames(s.specs, name);
      StopOne(o, s.w, s.children, name);
      var s' := StopChild(o, s, name);
      assert Named(s.specs, name);
      LedgerForget(s'.w, s.children, s.children - {name});
      forall n | n in s'.children ensures Named(s'.specs, n) {
        var x :| x in s.specs && x.name == n;
        assert x in s'.specs;
      }
    }
  }

  lemma DrainIsGood(o: Oracle, s: Sys)
    requires Good(s) && s.status.Draining?
    requires FaultFree(Drain(o, s).w.procs)
    ensures Good(Drain(o, s))
  {
    LedgerInterfere(o, s.w, s.children);
    var w1 := Interfere(o, s.w);
    var s' := Drain(o, s);
    if s'.status.Looping? {
      var id := Offering(w1.procs, o(s.w.tick).drain).value;
      assert Sound(s'.w.procs[id]);
      assert !w1.procs[id].started;
      forall i | 0 <= i < |s'.w.procs| ensures Accounted(s'.w.procs, s.children, i) {
        assert Accounted(w1.procs, s.children, i);
      }
      forall n ensures ExpectedName(s'.w.procs, s.children, n) == ExpectedName(w1.procs, s.children, n) {
        if n in s.children { assert Recorded(w1.procs, s.children, n); }
      }
      forall n | n in s.children ensures Recorded(s'.w.procs, s.children, n) {
        assert Recorded(w1.procs, s.children, n);
      }
      forall i: nat ensures ExpectedId(s'.w.procs, i) == ExpectedId(w1.procs, i) {}
      forall i: nat ensures Told(s'.w.procs, Story(s'.w.trace, i), i) { assert Told(w1.procs, Story(w1.trace, i), i); }
    }
  }

  lemma LoopTurnIsGood(o: Oracle, cfg: Config, s: Sys)
    requires Good(s) && s.status.Looping? && DynSlice.DistinctNames(s.specs) && NilMap.Sane(cfg, s)
    requires DynSlice.DistinctNames(LoopTurn(o, cfg, s).specs)
    requires FaultFree(LoopTurn(o, cfg, s).w.procs)
    ensures Good(LoopTurn(o, cfg, s))
  {
    var s1 := s.(w := Interfere(o, s.w));
    LedgerInterfere(o, s.w, s.children);
    match o(s.w.tick).turn {
      case Shutdown => if s1.w.done { TerminateSupervisorIsGood(o, cfg, s1, None); }
      case Notify(id) => if id < |s1.w.procs| && s1.w.procs[id].phase.Exiting? { HandleNotificationIsGood(s1, id); }
      case Spawn(spec) => SpawnIsGood(o, s1, spec);
      case Stop(name) => StopIsGood(o, s1, name);
    }
  }

  lemma StepIsGood(o: Oracle, cfg: Config, s: Sys)
    requires Good(s) && NilMap.Sane(cfg, s)
    requires DynSlice.DistinctNames(s.specs) && DynSlice.DistinctNames(Step(o, cfg, s).specs)
    requires FaultFree(Step(o, cfg, s).w.procs)
    ensures Good(Step(o, cfg, s))
  {
    match s.status {
      case Looping => LoopTurnIsGood(o, cfg, s);
      case Restarting(_, _) => RestartIterationIsGood(o, cfg, s);
      case Draining => DrainIsGood(o, s);
      case _ =>
    }
  }

  lemma VoidIsBalanced()
    ensures Balanced(VOID, map[])
  {}

  lemma StartIsGood(o: Oracle, cfg: Config, specs: seq<ChildSpec>)
    requires DynSlice.DistinctNames(specs) && FaultFree(Start(o, cfg, specs).w.procs)
    ensures Good(Start(o, cfg, specs))
  {
    VoidIsBalanced();
    SortedNames(cfg.order, specs);
    var todo := SortStart(cfg.order, specs);
    forall spec | spec in todo ensures Named(specs, spec.name) {
      assert Named(todo, spec.name);
    }
    StartAll(o, VOID, cfg.order, specs, todo, map[]);
    var l := StartChildNodes(o, VOID, cfg.order, specs, todo, map[]);
    LedgerSilent(l.w, l.children, Event(Started, Supervisor, SELF, 0, None));
  }

  // ----- The theorems -------------------------------------------------------------------------------

  /** Names are distinct at every point of the run; for a static supervisor it is enough that they are
      distinct in its specification. */
  ghost predicate NamesStayDistinct(o: Oracle, cfg: Config, specs: seq<ChildSpec>, n: nat) {
    forall k :: 0 <= k <= n ==> DynSlice.DistinctNames(Run(o, cfg, specs, k).specs)
  }

  /** Later states of a run continue earlier ones. */
  lemma {:induction false} RunContinues(o: Oracle, cfg: Config, specs: seq<ChildSpec>, k: nat, n: nat)
    requires k <= n
    ensures Continues(Run(o, cfg, specs, k).w, Run(o, cfg, specs, n).w)
  {
    var step, later := Stepper(o, cfg), (a: Sys, b: Sys) => Continues(a.w, b.w);
    StatesAreRun(o, cfg, specs);
    forall s ensures later(s, s) && later(s, step(s)) { StepContinues(o, cfg, s); }
    forall a, b, c | later(a, b) && later(b, c) ensures later(a, c) { ContinuesTrans(a.w, b.w, c.w); }
    Stepping.AlongRelation(step, States(o, cfg, specs), later, k, n);
  }

  lemma {:induction false} StartCase(o: Oracle, cfg: Config, specs: seq<ChildSpec>)
    requires NamesStayDistinct(o, cfg, specs, 0) && FaultFree(Run(o, cfg, specs, 0).w.procs)
    ensures Good(Run(o, cfg, specs, 0))
  {
    assert DynSlice.DistinctNames(Run(o, cfg, specs, 0).specs);
    StartIsGood(o, cfg, specs);
  }

  /** States and steps between which the invariant is kept. */
  ghost predicate Unharmed(cfg: Config, s: Sys) {
    NilMap.Sane(cfg, s) && DynSlice.DistinctNames(s.specs) && FaultFree(s.w.procs)
  }

  ghost predicate KeepsGood(cfg: Config, step: Sys -> Sys) {
    forall s :: Good(s) && Unharmed(cfg, s) && Unharmed(cfg, step(s)) ==> Good(step(s))
  }

  lemma {:induction false} GoodAlong(cfg: Config, step: Sys -> Sys, run: nat -> Sys, n: nat)
    requires Stepping.IsRun(step, run) && KeepsGood(cfg, step) && Good(run(0))
    requires forall k: nat :: k <= n ==> Unharmed(cfg, run(k))
    ensures Good(run(n))
  {
    if n > 0 {
      GoodAlong(cfg, step, run, n - 1);
      assert run(n - 1 + 1) == step(run(n - 1));
      assert Unharmed(cfg, run(n - 1)) && Unharmed(cfg, run(n));
    }
  }

  lemma {:induction false} UnharmedBefore(o: Oracle, cfg: Config, specs: seq<ChildSpec>, k: nat, n: nat)
    requires k <= n && NamesStayDistinct(o, cfg, specs, n) && FaultFree(Run(o, cfg, specs, n).w.procs)
    ensures Unharmed(cfg, Run(o, cfg, specs, k))
  {
    RunContinues(o, cfg, specs, k, n);
    FaultFreeBefore(Run(o, cfg, specs, k).w.procs, Run(o, cfg, specs, n).w.procs);
    NilMap.SaneAlways(o, cfg, specs, k);
    assert DynSlice.DistinctNames(Run(o, cfg, specs, k).specs);
  }

  /** A run without accidents is one along which the invariant is kept. */
  lemma {:induction false} GoodRun(o: Oracle, cfg: Config, specs: seq<ChildSpec>, n: nat)
    requires NamesStayDistinct(o, cfg, specs, n) && FaultFree(Run(o, cfg, specs, n).w.procs)
    ensures KeepsGood(cfg, Stepper(o, cfg)) && Good(States(o, cfg, specs)(0))
    ensures forall k: nat :: k <= n ==> Unharmed(cfg, States(o, cfg, specs)(k))
  {
    var step := Stepper(o, cfg);
    forall s | Good(s) && Unharmed(cfg, s) && Unharmed(cfg, step(s)) ensures Good(step(s)) { StepIsGood(o, cfg, s); }
    forall k: nat | k <= n ensures Unharmed(cfg, States(o, cfg, specs)(k)) { UnharmedBefore(o, cfg, specs, k, n); }
    UnharmedBefore(o, cfg, specs, 0, n);
    StartCase(o, cfg, specs);
  }

  lemma {:induction false} ReachableIsGood(o: Oracle, cfg: Config, specs: seq<ChildSpec>, n: nat)
    requires NamesStayDistinct(o, cfg, specs, n) && FaultFree(Run(o, cfg, specs, n).w.procs)
    ensures Good(Run(o, cfg, specs, n))
  {
    StatesAreRun(o, cfg, specs);
    GoodRun(o, cfg, specs, n);
    GoodAlong(cfg, Stepper(o, cfg), States(o, cfg, specs), n);
  }

  /** At most one live incarnation per name, and it is the one in the children map, or the one whose entry a nil map
      refused. */
  lemma {:induction false} LiveMeansRecorded(o: Oracle, cfg: Config, specs: seq<ChildSpec>, n: nat)
    requires NamesStayDistinct(o, cfg, specs, n) && FaultFree(Run(o, cfg, specs, n).w.procs)
    ensures var s := Run(o, cfg, specs, n);
            && NoOrphans(s.w.procs, Owner(s))
            && forall i, j :: 0 <= i < j < |s.w.procs|
                              && s.w.procs[i].started && s.w.procs[j].started
                              && s.w.procs[i].spec.name == s.w.procs[j].spec.name
                              ==> !(Undelivered(s.w.procs[i]) && Undelivered(s.w.procs[j]))
  {
    ReachableIsGood(o, cfg, specs, n);
    var s := Run(o, cfg, specs, n);
    forall i, j | 0 <= i < j < |s.w.procs| && s.w.procs[i].started && s.w.procs[j].started
                  && s.w.procs[i].spec.name == s.w.procs[j].spec.name
      ensures !(Undelivered(s.w.procs[i]) && Undelivered(s.w.procs[j]))
    {
      assert Accounted(s.w.procs, Owner(s), i) && Accounted(s.w.procs, Owner(s), j);
    }
  }

  /** Exactly when the supervisor goroutine panics: it took a spawn whose child started while its children map was
      nil.  An unknown name and a slice out of bounds never come up. */
  lemma {:induction false} PanicsExactly(o: Oracle, cfg: Config, specs: seq<ChildSpec>, n: nat)
    requires NamesStayDistinct(o, cfg, specs, n) && FaultFree(Run(o, cfg, specs, n).w.procs)
    ensures Run(o, cfg, specs, n).status.Panicked? <==> NilMap.SpawnedIntoNil(o, States(o, cfg, specs), n)
  {
    ReachableIsGood(o, cfg, specs, n);
    NilMap.RunCrashesOnNilExactly(o, cfg, specs, n);
  }

  ghost predicate NoSpawns(o: Oracle) { forall t: nat :: !o(t).turn.Spawn? }

  /** A supervisor never panics if nobody spawns, or it restarts one for one, or it has no backoff. */
  lemma {:induction false} NeverPanics(o: Oracle, cfg: Config, specs: seq<ChildSpec>, n: nat)
    requires NamesStayDistinct(o, cfg, specs, n) && FaultFree(Run(o, cfg, specs, n).w.procs)
    requires NoSpawns(o) || cfg.strategy.OneForOne? || cfg.backoff.base == 0
    ensures !Run(o, cfg, specs, n).status.Panicked?
  {
    PanicsExactly(o, cfg, specs, n);
    var run := States(o, cfg, specs);
    if k: nat :| k < n && NilMap.NilSpawn(o, run(k)) {
      if cfg.strategy.OneForOne? {
        NilMap.NeverNilUnderOneForOne(o, cfg, specs, k);
      } else if cfg.backoff.base == 0 {
        NilMap.NeverNilWithoutBackoff(o, cfg, specs, k);
      }
      assert false;
    }
  }

  /** Once the supervisor has returned, whether from a failed start, a shutdown or by giving up, no
      child that ever started is still alive and every worker's last event is an exit. */
  lemma {:induction false} NobodyOutlivesTheSupervisor(o: Oracle, cfg: Config, specs: seq<ChildSpec>, n: nat)
    requires NamesStayDistinct(o, cfg, specs, n) && FaultFree(Run(o, cfg, specs, n).w.procs)
    requires var st := Run(o, cfg, specs, n).status; st.Finished? || st.StartAborted?
    ensures var s := Run(o, cfg, specs, n);
            && AllDelivered(s.w.procs)
            && forall name :: NameLane(s.w.trace, name) == Idle
  {
    ReachableIsGood(o, cfg, specs, n);
    var s := Run(o, cfg, specs, n);
    forall name ensures !Live(s.w.procs, s.children, name) {
      if name in s.children { assert Recorded(s.w.procs, s.children, name); }
    }
  }

  /** In every run the trace tells exactly the story of each incarnation.  A worker's begins with its start.  Its exit
      is reported once, by how the goroutine ended and by who took its notification: Failed with its error, else
      Completed in front of the loop, and Terminated when it was stopped; a subtree's likewise, but for a completion in
      front of the loop.  A failed start is reported at most as such. */
  lemma {:induction false} StoriesAreTold(o: Oracle, cfg: Config, specs: seq<ChildSpec>, n: nat)
    requires NamesStayDistinct(o, cfg, specs, n) && FaultFree(Run(o, cfg, specs, n).w.procs)
    ensures var w := Run(o, cfg, specs, n).w;
            && (forall id :: 0 <= id < |w.procs| && w.procs[id].started ==>
                  Story(w.trace, id) == StartReport(w.procs[id], id) + ExitReport(w.procs[id], id))
            && (forall id :: 0 <= id < |w.procs| && !w.procs[id].started ==>
                  ToldFailedStart(w.procs[id], id, Story(w.trace, id)))
            && (forall id: nat :: id >= |w.procs| ==> Story(w.trace, id) == [])
  {
    ReachableIsGood(o, cfg, specs, n);
    StoriesOf(Run(o, cfg, specs, n).w);
  }

  lemma StoriesOf(w: World)
    requires Explained(w)
    ensures forall id :: 0 <= id < |w.procs| && w.procs[id].started ==>
              Story(w.trace, id) == StartReport(w.procs[id], id) + ExitReport(w.procs[id], id)
    ensures forall id :: 0 <= id < |w.procs| && !w.procs[id].started ==>
              ToldFailedStart(w.procs[id], id, Story(w.trace, id))
    ensures forall id: nat :: id >= |w.procs| ==> Story(w.trace, id) == []
  {
    forall id: nat ensures Told(w.procs, Story(w.trace, id), id) {}
  }

  /** In every run the events of each worker name alternate strictly between a start and one exit, and
      each worker incarnation has exactly one start and, once delivered, exactly one exit. */
  lemma {:induction false} WorkerEventsAlternate(o: Oracle, cfg: Config, specs: seq<ChildSpec>, n: nat)
    requires NamesStayDistinct(o, cfg, specs, n) && FaultFree(Run(o, cfg, specs, n).w.procs)
    ensures var s := Run(o, cfg, specs, n);
            && (forall name :: NameLane(s.w.trace, name)
                               == if Live(s.w.procs, Owner(s), name) && Owner(s)[name].spec.tag.Worker?
                                  then Up else Idle)
            && (forall id: nat :: IdLane(s.w.trace, id) == ExpectedId(s.w.procs, id))
  {
    ReachableIsGood(o, cfg, specs, n);
  }
}
