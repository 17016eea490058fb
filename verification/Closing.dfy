/** How a supervisor ends: the order in which it stops its children, the errors it collects, and
    what it returns (`terminateSupervisor`). */
module Closing {
  import opened Types
  import opened Ordering
  import opened Engine
  import opened Ledger
  import opened Operations
  import opened Outcomes
  import opened Runs
  import DynSlice
  import RestartLoop
  import Stepping
  import Tolerance

  /** Does `evs` report that the child `name` failed to stop? */
  ghost predicate FailedToStop(evs: seq<Event>, name: string) {
    exists k :: 0 <= k < |evs| && evs[k].name == name && evs[k].err.Some?
  }

  ghost predicate DistinctEvents(evs: seq<Event>) {
    forall i, j :: 0 <= i < j < |evs| ==> evs[i].name != evs[j].name
  }

  /** The error map that the stop loop fills: its keys are exactly the children that failed to stop, each
      with the error it reported. */
  lemma {:induction false} ErrorsExactly(evs: seq<Event>, errs: map<string, Error>)
    requires DistinctEvents(evs)
    ensures forall n :: n in ErrorsOf(evs, errs) <==> n in errs || FailedToStop(evs, n)
    ensures forall k :: 0 <= k < |evs| && evs[k].err.Some? ==>
              evs[k].name in ErrorsOf(evs, errs) && ErrorsOf(evs, errs)[evs[k].name] == evs[k].err.value
    ensures forall n ::
              n in errs && !FailedToStop(evs, n) ==> n in ErrorsOf(evs, errs) && ErrorsOf(evs, errs)[n] == errs[n]
    decreases |evs|
  {
    if evs != [] {
      var tail := evs[1..];
      var errs' := if evs[0].err.Some? then errs[evs[0].name := evs[0].err.value] else errs;
      forall i, j | 0 <= i < j < |tail| ensures tail[i].name != tail[j].name {
        assert tail[i] == evs[i + 1] && tail[j] == evs[j + 1];
      }
      ErrorsExactly(tail, errs');
      forall n ensures FailedToStop(evs, n) <==> (evs[0].name == n && evs[0].err.Some?) || FailedToStop(tail, n) {
        FailedTail(evs, n);
      }
      assert !FailedToStop(tail, evs[0].name) by {
        forall k | 0 <= k < |tail| ensures tail[k].name != evs[0].name { assert tail[k] == evs[k + 1]; }
      }
      forall k | 0 <= k < |evs| && evs[k].err.Some?
        ensures evs[k].name in ErrorsOf(evs, errs) && ErrorsOf(evs, errs)[evs[k].name] == evs[k].err.value
      {
        if k > 0 { assert evs[k] == tail[k - 1]; }
      }
    }
  }

  lemma FailedTail(evs: seq<Event>, n: string)
    requires evs != []
    ensures FailedToStop(evs, n) <==> (evs[0].name == n && evs[0].err.Some?) || FailedToStop(evs[1..], n)
  {
    var tail := evs[1..];
    if FailedToStop(evs, n) && !(evs[0].name == n && evs[0].err.Some?) {
      var k :| 0 <= k < |evs| && evs[k].name == n && evs[k].err.Some?;
      assert tail[k - 1] == evs[k];
    }
    if FailedToStop(tail, n) {
      var k :| 0 <= k < |tail| && tail[k].name == n && tail[k].err.Some?;
      assert evs[k + 1] == tail[k];
    }
  }

  lemma {:induction false} ChosenDistinct(todo: seq<ChildSpec>, skip: Option<string>, answered: set<string>)
    requires DynSlice.DistinctNames(todo)
    ensures var names := Chosen(todo, skip, answered);
            && (forall i, j :: 0 <= i < j < |names| ==> names[i] != names[j])
            && (forall name :: name in names ==> Named(todo, name))
  {
    if todo != [] {
      HeadIsAlone(todo);
      ChosenDistinct(todo[1..], skip, answered);
      forall name ensures Named(todo, name) <==> todo[0].name == name || Named(todo[1..], name) {
        NamedTail(todo, name);
      }
    }
  }

  /** The events of a stop are distinct because the names are. */
  lemma ReportDistinct(evs: seq<Event>, names: seq<string>, owner: map<string, Child>)
    requires StopReport(evs, names, owner) && forall i, j :: 0 <= i < j < |names| ==> names[i] != names[j]
    requires forall name :: name in owner ==> owner[name].spec.name == name
    ensures DistinctEvents(evs)
    ensures forall k :: 0 <= k < |evs| ==> evs[k].name == names[k]
  {
    forall k | 0 <= k < |evs| ensures evs[k].name == names[k] {
      assert IsStopEvent(evs[k], owner[names[k]], evs[k].err);
    }
  }

  /** The stop events of a shutdown that started in `s` and ended in `s'`. */
  function StopEvents(s: Sys, s': Sys): seq<Event>
    requires |s.w.trace| < |s'.w.trace|
  {
    s'.w.trace[|s.w.trace|..|s'.w.trace| - 1]
  }

  /** Does child `name`, which has answered, fail to stop: did its goroutine end with an error, or its timer fire? */
  predicate FailsToStop(s: Sys, s': Sys, answered: set<string>, name: string) {
    && name in answered && name in s.children && s.children[name].id < |s.w.procs| <= |s'.w.procs|
    && StopError(s.w.procs, s'.w.procs, s.children[name].id).Some?
  }

  /** What a shutdown returns of its children and of the cleanup. */
  function TerminationOf(r: Option<SupError>): TerminationError {
    match r
    case Some(TerminationFailed(t)) => t
    case Some(RestartFailed(_, Some(t))) => t
    case _ => TerminationError(map[], None)
  }

  ghost predicate ShutdownMeans(s: Sys, s': Sys, order: Order, restartErr: Option<GaveUp>, cleanupErr: Option<Error>,
                                answered: set<string>)
  {
    && s'.status.Finished? && |s.w.trace| < |s'.w.trace|
    && var evs := StopEvents(s, s');
       var result := s'.status.result;
       && StopReport(evs, Chosen(Reverse(SortStart(order, s.specs)), None, answered), s.children)
       && TellsStops(s.w.procs, s'.w.procs, s.children, evs)
       && (forall name :: name in answered ==> name in s.children)
       && (forall name ::
             name in s.children && Named(s.specs, name) ==> Answered(s.w, s'.w, s.children, name, name in answered))
       && ReturnsErrors(s, s', TerminationOf(result), cleanupErr, answered)
       && (result == None
           <==> restartErr == None && cleanupErr == None && forall n :: !FailsToStop(s, s', answered, n))
       && (restartErr.Some? ==> result.Some? && result.value.RestartFailed? && result.value.reason == restartErr.value)
  }

  /** The result names exactly the children that failed to stop, each with its error, and the error of the cleanup. */
  ghost predicate ReturnsErrors(s: Sys, s': Sys, t: TerminationError, cleanupErr: Option<Error>,
                                answered: set<string>) {
    && t.cleanup == cleanupErr
    && (forall n :: n in t.nodes <==> FailsToStop(s, s', answered, n))
    && (forall n :: n in t.nodes ==> Some(t.nodes[n]) == StopError(s.w.procs, s'.w.procs, s.children[n].id))
  }

  /** A shutdown, whoever asked for it and whatever its timers do: the children that answer, which are all that were
      live and otherwise only such on which a timer has fired, stop one by one in the exact reverse of the
      spec start order, each reported with the error with which its goroutine ended or the timeout; the resource
      cleanup runs once and after all of them; the result holds exactly these errors, that of the cleanup and the
      restart error; and it is nil exactly when there are none. */
  lemma ShutdownReport(o: Oracle, cfg: Config, s: Sys, restartErr: Option<GaveUp>) returns (answered: set<string>)
    requires AllRecorded(s.w.procs, s.children) && DynSlice.DistinctNames(s.specs)
    ensures var s' := TerminateSupervisor(o, cfg, s, restartErr);
            && s'.status.Finished? && |s.w.trace| < |s'.w.trace|
            && CleansUp(o, s')
            && ShutdownMeans(s, s', cfg.order, restartErr, s'.w.trace[|s'.w.trace| - 1].err, answered)
  {
    var todo := SortTermination(cfg.order, s.specs);
    var h := TerminateChildNodes(o, s.w, todo, s.children, None, map[]);
    SortedNames(cfg.order, s.specs);
    answered := StopReports(o, s.w, todo, s.children, None, map[]);
    TerminateChildNodesGrows(o, s.w, todo, s.children, None, map[]);
    var s' := TerminateSupervisor(o, cfg, s, restartErr);
    assert StopEvents(s, s') == h.w.trace[|s.w.trace|..];
    ReverseOrder(cfg.order, s.specs);
    AnsweredByThen(o, s, h, s', todo, answered);
    ToldByThen(o, s, h, s', StopEvents(s, s'));
    assert forall name :: name in answered ==> Visits(todo, None, name);
    MeansOf(s, s', cfg.order, restartErr, o(h.w.tick).cleanupErr, h, answered);
  }

  /** The last thing that a shutdown does is the cleanup, which may fail. */
  ghost predicate CleansUp(o: Oracle, s: Sys) {
    && s.w.trace != [] && s.w.tick > 0
    && s.w.trace[|s.w.trace| - 1] == Event(Cleanup, Supervisor, SELF, 0, o(s.w.tick - 1).cleanupErr)
  }

  lemma AnsweredByThen(o: Oracle, s: Sys, h: Halts, s': Sys, todo: seq<ChildSpec>, answered: set<string>)
    requires ReportsStops(s.w, h, todo, s.children, None, map[], answered) && s'.w.procs == Interfere(o, h.w).procs
    requires forall n :: Named(todo, n) == Named(s.specs, n)
    ensures forall name ::
              name in s.children && Named(s.specs, name) ==> Answered(s.w, s'.w, s.children, name, name in answered)
  {
    InterfereKeeps(o, h.w);
    forall name | name in s.children && Named(s.specs, name)
      ensures Answered(s.w, s'.w, s.children, name, name in answered)
    {
      assert Visits(todo, None, name);
      assert Answered(s.w, h.w, s.children, name, name in answered);
      var id := s.children[name].id;
      if id < |h.w.procs| { assert Grown(h.w.procs[id], s'.w.procs[id]); }
    }
  }

  /** What happens during the cleanup does not change what the stops have told. */
  lemma ToldByThen(o: Oracle, s: Sys, h: Halts, s': Sys, evs: seq<Event>)
    requires TellsStops(s.w.procs, h.w.procs, s.children, evs) && s'.w.procs == Interfere(o, h.w).procs
    ensures TellsStops(s.w.procs, s'.w.procs, s.children, evs)
  {
    InterfereKeeps(o, h.w);
    forall k | 0 <= k < |evs| ensures TellsStop(s.w.procs, s'.w.procs, s.children, evs[k].name, evs[k].err) {
      assert TellsStop(s.w.procs, h.w.procs, s.children, evs[k].name, evs[k].err);
      var id := s.children[evs[k].name].id;
      assert Grown(h.w.procs[id], s'.w.procs[id]);
    }
  }

  lemma ReverseOrder(order: Order, specs: seq<ChildSpec>)
    ensures SortTermination(order, specs) == Reverse(SortStart(order, specs))
  {
    StopReversesStart(order, specs);
  }

  lemma {:induction false} ChosenHas(todo: seq<ChildSpec>, answered: set<string>, name: string)
    requires Named(todo, name) && name in answered
    ensures name in Chosen(todo, None, answered)
  {
    NamedTail(todo, name);
    if todo[0].name != name { ChosenHas(todo[1..], answered, name); }
  }

  lemma {:induction false} ChosenAnswered(todo: seq<ChildSpec>, answered: set<string>)
    ensures forall name :: name in Chosen(todo, None, answered) ==> name in answered
  {
    if todo != [] { ChosenAnswered(todo[1..], answered); }
  }

  /** The failures in the trace are those of the goroutines and the timers. */
  lemma {:induction false} FailuresAreTold(s: Sys, s': Sys, evs: seq<Event>, todo: seq<ChildSpec>,
                                           answered: set<string>)
    requires TellsStops(s.w.procs, s'.w.procs, s.children, evs) && |evs| == |Chosen(todo, None, answered)|
    requires forall k :: 0 <= k < |evs| ==> evs[k].name == Chosen(todo, None, answered)[k]
    requires forall name :: name in answered ==> name in s.children && Named(todo, name)
    ensures forall n :: FailedToStop(evs, n) <==> FailsToStop(s, s', answered, n)
  {
    var names := Chosen(todo, None, answered);
    ChosenAnswered(todo, answered);
    forall n ensures FailedToStop(evs, n) <==> FailsToStop(s, s', answered, n) {
      if FailedToStop(evs, n) {
        var k :| 0 <= k < |evs| && evs[k].name == n && evs[k].err.Some?;
        assert TellsStop(s.w.procs, s'.w.procs, s.children, evs[k].name, evs[k].err) && names[k] in names;
      }
      if FailsToStop(s, s', answered, n) {
        ChosenHas(todo, answered, n);
        var k :| 0 <= k < |names| && names[k] == n;
        assert TellsStop(s.w.procs, s'.w.procs, s.children, evs[k].name, evs[k].err);
      }
    }
  }

  lemma {:induction false} ErrorsAreTold(s: Sys, s': Sys, evs: seq<Event>, errs: map<string, Error>)
    requires TellsStops(s.w.procs, s'.w.procs, s.children, evs) && DistinctEvents(evs) && errs == ErrorsOf(evs, map[])
    ensures forall n :: n in errs <==> FailedToStop(evs, n)
    ensures forall n :: n in errs ==>
              && n in s.children && s.children[n].id < |s.w.procs| <= |s'.w.procs|
              && Some(errs[n]) == StopError(s.w.procs, s'.w.procs, s.children[n].id)
  {
    ErrorsExactly(evs, map[]);
    forall n | n in errs
      ensures && n in s.children && s.children[n].id < |s.w.procs| <= |s'.w.procs|
              && Some(errs[n]) == StopError(s.w.procs, s'.w.procs, s.children[n].id)
    {
      assert FailedToStop(evs, n);
      var k :| 0 <= k < |evs| && evs[k].name == n && evs[k].err.Some?;
      assert TellsStop(s.w.procs, s'.w.procs, s.children, evs[k].name, evs[k].err);
    }
  }

  lemma {:induction false} MeansOf(s: Sys, s': Sys, order: Order, restartErr: Option<GaveUp>,
                                   cleanupErr: Option<Error>, h: Halts, answered: set<string>)
    requires |s.w.trace| < |s'.w.trace| && DynSlice.DistinctNames(s.specs)
    requires s'.status == Finished(Result(restartErr, h.errs, cleanupErr))
    requires AllRecorded(s.w.procs, s.children)
    requires var evs := StopEvents(s, s');
             && StopReport(evs, Chosen(SortTermination(order, s.specs), None, answered), s.children)
             && TellsStops(s.w.procs, s'.w.procs, s.children, evs)
             && h.errs == ErrorsOf(evs, map[])
    requires forall name :: name in answered ==> name in s.children && Named(SortTermination(order, s.specs), name)
    requires forall name ::
               name in s.children && Named(s.specs, name) ==> Answered(s.w, s'.w, s.children, name, name in answered)
    requires SortTermination(order, s.specs) == Reverse(SortStart(order, s.specs))
    ensures ShutdownMeans(s, s', order, restartErr, cleanupErr, answered)
  {
    var evs := StopEvents(s, s');
    var todo := SortTermination(order, s.specs);
    SortedNames(order, s.specs);
    ChosenDistinct(todo, None, answered);
    forall name | name in s.children ensures s.children[name].spec.name == name {
      assert Recorded(s.w.procs, s.children, name);
    }
    ReportDistinct(evs, Chosen(todo, None, answered), s.children);
    FailuresAreTold(s, s', evs, todo, answered);
    ErrorsAreTold(s, s', evs, h.errs);
    ResultMeans(restartErr, h.errs, cleanupErr);
  }

  lemma ResultMeans(restartErr: Option<GaveUp>, errs: map<string, Error>, cleanupErr: Option<Error>)
    ensures var result := Result(restartErr, errs, cleanupErr);
            && TerminationOf(result) == TerminationError(errs, cleanupErr)
            && (result == None <==> restartErr == None && cleanupErr == None && forall n :: n !in errs)
            && (restartErr.Some?
                ==> result.Some? && result.value.RestartFailed? && result.value.reason == restartErr.value)
  {
    assert |errs| == 0 <==> forall n :: n !in errs;
    assert (forall n :: n !in errs) ==> errs == map[];
  }

  /** Without accidents those that answer are exactly the survivors. */
  lemma {:induction false} SurvivorsAnswer(s: Sys, s': Sys, order: Order, restartErr: Option<GaveUp>,
                                           cleanupErr: Option<Error>, answered: set<string>)
    requires ShutdownMeans(s, s', order, restartErr, cleanupErr, answered) && FaultFree(s'.w.procs)
    ensures AnsweredAreSurvivors(s, order, answered)
  {
    var todo := Reverse(SortStart(order, s.specs));
    SameElements(SortStart(order, s.specs));
    StopReversesStart(order, s.specs);
    forall spec | spec in todo ensures spec.name in answered <==> Live(s.w.procs, s.children, spec.name) {
      assert spec in s.specs && Named(s.specs, spec.name);
      if spec.name in s.children {
        assert Answered(s.w, s'.w, s.children, spec.name, spec.name in answered);
        var id := s.children[spec.name].id;
        if id < |s'.w.procs| { assert Sound(s'.w.procs[id]); }
      }
    }
    ChosenAreSurvivors(s.w.procs, todo, s.children, None, answered);
  }

  // ----- Entries are started children, in every run -------------------------------------------------------

  lemma RecordedInterfere(o: Oracle, s: Sys)
    requires AllRecorded(s.w.procs, s.children)
    ensures AllRecorded(Interfere(o, s.w).procs, s.children)
  {
    InterfereKeeps(o, s.w);
    RecordedGrows(s.w.procs, Interfere(o, s.w).procs, s.children);
  }

  lemma RecordedStart(o: Oracle, w: World, owner: map<string, Child>, spec: ChildSpec)
    requires AllRecorded(w.procs, owner)
    ensures var r := DoStart(o, w, spec);
            AllRecorded(r.w.procs, owner) && (r.err.None? ==> AllRecorded(r.w.procs, owner[spec.name := r.child]))
  {
    InterfereKeeps(o, w);
    var r := DoStart(o, w, spec);
    assert Grows(w.procs, r.w.procs);
    RecordedGrows(w.procs, r.w.procs, owner);
  }

  lemma {:induction false} RecordedStartAll(o: Oracle, w: World, order: Order, specs: seq<ChildSpec>,
                                            todo: seq<ChildSpec>, acc: map<string, Child>)
    requires AllRecorded(w.procs, acc)
    ensures var l := StartChildNodes(o, w, order, specs, todo, acc); AllRecorded(l.w.procs, l.children)
    decreases |todo|
  {
    if todo != [] {
      var s := StartChildNode(o, w, todo[0]);
      RecordedStart(o, w, acc, todo[0]);
      if s.err.None? { RecordedStartAll(o, s.w, order, specs, todo[1..], acc[todo[0].name := s.child]); }
    }
  }

  lemma RecordedExec(o: Oracle, cfg: Config, s: Sys, source: Child)
    requires AllRecorded(s.w.procs, s.children)
    ensures var s' := ExecRestart(o, cfg, s, source); AllRecorded(s'.w.procs, s'.children)
  {
    if cfg.strategy.OneForOne? {
      RecordedStart(o, s.w, s.children, source.spec);
    } else {
      var h := TerminateChildNodes(o, s.w, SortTermination(cfg.order, s.specs), s.children, Some(source.spec.name),
                                   map[]);
      RecordedStartAll(o, h.w, cfg.order, s.specs, SortStart(cfg.order, s.specs), map[]);
    }
  }

  lemma RecordedBackoff(o: Oracle, cfg: Config, s: Sys, source: Child)
    requires AllRecorded(s.w.procs, s.children)
    ensures var s' := BackoffAndRestart(o, cfg, s, source); AllRecorded(s'.w.procs, s'.children)
  {
    RecordedInterfere(o, s);
    RecordedExec(o, cfg, s, source);
    RecordedExec(o, cfg, s.(w := Interfere(o, s.w)), source);
  }

  /** A step that only takes entries away. */
  lemma RecordedShrinks(a: World, b: World, owner: map<string, Child>, owner': map<string, Child>)
    requires AllRecorded(a.procs, owner) && Continues(a, b)
    requires forall name :: name in owner' ==> name in owner && owner'[name] == owner[name]
    ensures AllRecorded(b.procs, owner')
  {
    RecordedGrows(a.procs, b.procs, owner);
    forall name | name in owner' ensures Recorded(b.procs, owner', name) { assert Recorded(b.procs, owner, name); }
  }

  /** Only a spawn adds an entry in front of the loop. */
  lemma EntriesShrink(o: Oracle, cfg: Config, s: Sys)
    requires s.status.Looping? && !o(s.w.tick).turn.Spawn?
    ensures var s' := LoopTurn(o, cfg, s);
            forall name :: name in s'.children ==> name in s.children && s'.children[name] == s.children[name]
  {
    var s1 := s.(w := Interfere(o, s.w));
    match o(s.w.tick).turn {
      case Notify(id) => if id < |s1.w.procs| && s1.w.procs[id].phase.Exiting? { HandlingMeans(s1, id); }
      case _ =>
    }
  }

  lemma RecordedSpawn(o: Oracle, s: Sys, spec: ChildSpec)
    requires AllRecorded(s.w.procs, s.children)
    ensures var s' := SpawnChild(o, s, spec); AllRecorded(s'.w.procs, s'.children)
  {
    RecordedStart(o, s.w, s.children, spec);
  }

  lemma RecordedTurn(o: Oracle, cfg: Config, s: Sys)
    requires AllRecorded(s.w.procs, s.children) && s.status.Looping?
    ensures var s' := LoopTurn(o, cfg, s); AllRecorded(s'.w.procs, s'.children)
  {
    var s' := LoopTurn(o, cfg, s);
    if o(s.w.tick).turn.Spawn? {
      RecordedInterfere(o, s);
      RecordedSpawn(o, s.(w := Interfere(o, s.w)), o(s.w.tick).turn.spec);
    } else {
      LoopTurnContinues(o, cfg, s);
      EntriesShrink(o, cfg, s);
      RecordedShrinks(s.w, s'.w, s.children, s'.children);
    }
  }

  lemma RecordedStep(o: Oracle, cfg: Config, s: Sys)
    requires AllRecorded(s.w.procs, s.children)
    ensures var s' := Step(o, cfg, s); AllRecorded(s'.w.procs, s'.children)
  {
    match s.status {
      case Looping => RecordedTurn(o, cfg, s);
      case Restarting(source, prev) => RecordedIteration(o, cfg, s, source, prev);
      case Draining =>
        StepContinues(o, cfg, s);
        RecordedShrinks(s.w, Step(o, cfg, s).w, s.children, s.children);
      case _ =>
    }
  }

  lemma RecordedIteration(o: Oracle, cfg: Config, s: Sys, source: Child, prev: Option<Error>)
    requires AllRecorded(s.w.procs, s.children)
    ensures var s' := RestartIteration(o, cfg, s, source, prev); AllRecorded(s'.w.procs, s'.children)
  {
    if prev.None? {
      RecordedBackoff(o, cfg, s, source);
    } else {
      var a := Tolerance.Admit(s.mgr, prev.value, o(s.w.tick).clock);
      var s1 := s.(w := Interfere(o, s.w), mgr := a.mgr);
      RecordedInterfere(o, s);
      if a.ok {
        RecordedBackoff(o, cfg, s1, source);
      } else {
        var r := Some(GaveUp(source.spec.name, cfg.policy.max, cfg.policy.window, a.mgr.source, prev.value));
        TerminateSupervisorContinues(o, cfg, s1, r);
        RecordedShrinks(s1.w, TerminateSupervisor(o, cfg, s1, r).w, s.children, s.children);
      }
    }
  }

  lemma {:induction false} RecordedAlways(o: Oracle, cfg: Config, specs: seq<ChildSpec>, n: nat)
    ensures AllRecorded(Run(o, cfg, specs, n).w.procs, Run(o, cfg, specs, n).children)
  {
    var step, run, keeps := Stepper(o, cfg), States(o, cfg, specs), (s: Sys) => AllRecorded(s.w.procs, s.children);
    StatesAreRun(o, cfg, specs);
    RecordedStartAll(o, VOID, cfg.order, specs, SortStart(cfg.order, specs), map[]);
    assert Run(o, cfg, specs, 0) == Start(o, cfg, specs);
    forall s | keeps(s) ensures keeps(step(s)) { RecordedStep(o, cfg, s); }
    Stepping.Along(step, run, keeps, 0, n);
  }

  // ----- Over whole runs --------------------------------------------------------------------------------------

  /** Why the result says that the supervisor gave up, if it does. */
  function RestartErrOf(st: Status): Option<GaveUp> {
    match st
    case Finished(Some(RestartFailed(reason, _))) => Some(reason)
    case _ => None
  }

  /** The same for a run with distinct names, whatever accidents have happened before and happen now, and whether the
      loop of the reachable state was told that the context is done or its restart loop gave up. */
  lemma {:induction false} RunShutsDownInOrder(o: Oracle, cfg: Config, specs: seq<ChildSpec>, n: nat)
      returns (answered: set<string>)
    requires NamesStayDistinct(o, cfg, specs, n) && Finishes(o, cfg, Run(o, cfg, specs, n))
    ensures EndsInOrder(o, cfg, Run(o, cfg, specs, n), Step(o, cfg, Run(o, cfg, specs, n)), answered)
    ensures FaultFree(Step(o, cfg, Run(o, cfg, specs, n)).w.procs) ==>
              AnsweredAreSurvivors(Run(o, cfg, specs, n), cfg.order, answered)
  {
    RecordedAlways(o, cfg, specs, n);
    NamesNow(o, cfg, specs, n);
    answered := StepShutsDownInOrder(o, cfg, Run(o, cfg, specs, n));
  }

  ghost predicate AnsweredAreSurvivors(s: Sys, order: Order, answered: set<string>) {
    var todo := Reverse(SortStart(order, s.specs));
    Chosen(todo, None, answered) == Survivors(s.w.procs, s.children, todo, None)
  }

  ghost predicate Finishes(o: Oracle, cfg: Config, s: Sys) {
    (s.status.Looping? || s.status.Restarting?) && Step(o, cfg, s).status.Finished?
  }

  /** Exactly when a turn of the loop finishes the supervisor: it takes the shutdown case, and its context is done by
      then, whatever children it has or has not. */
  lemma TurnFinishesExactly(o: Oracle, cfg: Config, s: Sys)
    requires s.status.Looping?
    ensures Step(o, cfg, s).status.Finished? <==> o(s.w.tick).turn.Shutdown? && (s.w.done || o(s.w.tick).cancel)
    ensures Step(o, cfg, s).status.Finished? ==> RestartErrOf(Step(o, cfg, s).status) == None
  {
    TickOutcome(o, s.w);
    var s1 := s.(w := Interfere(o, s.w));
    match o(s.w.tick).turn {
      case Notify(id) => if id < |s1.w.procs| && s1.w.procs[id].phase.Exiting? { HandlingMeans(s1, id); }
      case _ =>
    }
  }

  /** In every run: a supervisor at its loop whose context is done and whose select takes the shutdown case is finished
      at the next step, with no restart error; and no other turn finishes it. */
  lemma {:induction false} DoneContextFinishes(o: Oracle, cfg: Config, specs: seq<ChildSpec>, n: nat)
    requires Run(o, cfg, specs, n).status.Looping?
    ensures var s, s' := Run(o, cfg, specs, n), Run(o, cfg, specs, n + 1);
            && (s'.status.Finished? <==> o(s.w.tick).turn.Shutdown? && (s.w.done || o(s.w.tick).cancel))
            && (s'.status.Finished? ==> RestartErrOf(s'.status) == None)
  {
    var run := States(o, cfg, specs);
    TurnFinishesExactly(o, cfg, run(n));
    StatesAreRun(o, cfg, specs);
    assert run(n + 1) == Stepper(o, cfg)(run(n));
  }

  /** The restart error names the child, the tolerance and the failure that it did not tolerate. */
  predicate GaveUpOn(cfg: Config, s: Sys, r: Option<GaveUp>)
    requires s.status.Restarting?
  {
    && r.Some? && r.value.child == s.status.source.spec.name && Some(r.value.last) == s.status.prev
    && r.value.count == cfg.policy.max && r.value.window == cfg.policy.window
  }

  ghost predicate EndsInOrder(o: Oracle, cfg: Config, s: Sys, s': Sys, answered: set<string>) {
    && CleansUp(o, s')
    && (s.status.Looping? <==> RestartErrOf(s'.status).None?)
    && (s.status.Restarting? ==> GaveUpOn(cfg, s, RestartErrOf(s'.status)))
    && ShutdownMeans(s, s', cfg.order, RestartErrOf(s'.status), s'.w.trace[|s'.w.trace| - 1].err, answered)
  }

  lemma {:induction false} NamesNow(o: Oracle, cfg: Config, specs: seq<ChildSpec>, n: nat)
    requires NamesStayDistinct(o, cfg, specs, n)
    ensures DynSlice.DistinctNames(Run(o, cfg, specs, n).specs)
  {}

  lemma StepShutsDownInOrder(o: Oracle, cfg: Config, s: Sys) returns (answered: set<string>)
    requires AllRecorded(s.w.procs, s.children) && DynSlice.DistinctNames(s.specs) && Finishes(o, cfg, s)
    ensures EndsInOrder(o, cfg, s, Step(o, cfg, s), answered)
    ensures FaultFree(Step(o, cfg, s).w.procs) ==> AnsweredAreSurvivors(s, cfg.order, answered)
  {
    var s1, restartErr := FinishingStep(o, cfg, s);
    RecordedInterfere(o, s);
    answered := ShutdownReport(o, cfg, s1, restartErr);
    var s' := Step(o, cfg, s);
    ShutdownGrows(o, cfg, s1, restartErr);
    SameMeaning(o, s, s1, s', cfg.order, restartErr, answered);
    if FaultFree(s'.w.procs) {
      SurvivorsAnswer(s, s', cfg.order, restartErr, s'.w.trace[|s'.w.trace| - 1].err, answered);
    }
  }

  lemma ShutdownGrows(o: Oracle, cfg: Config, s: Sys, restartErr: Option<GaveUp>)
    ensures |s.w.procs| <= |TerminateSupervisor(o, cfg, s, restartErr).w.procs|
  {
    TerminateSupervisorContinues(o, cfg, s, restartErr);
  }

  /** What others do just before the shutdown does not change its meaning. */
  lemma SameMeaning(o: Oracle, s: Sys, s1: Sys, s': Sys, order: Order, restartErr: Option<GaveUp>,
                    answered: set<string>)
    requires s1.w == Interfere(o, s.w) && s1.specs == s.specs && s1.children == s.children
             && |s1.w.trace| < |s'.w.trace| && |s1.w.procs| <= |s'.w.procs|
    requires ShutdownMeans(s1, s', order, restartErr, s'.w.trace[|s'.w.trace| - 1].err, answered)
    ensures ShutdownMeans(s, s', order, restartErr, s'.w.trace[|s'.w.trace| - 1].err, answered)
  {
    InterfereKeeps(o, s.w);
    forall name | name in s.children && Named(s.specs, name)
      ensures Answered(s.w, s'.w, s.children, name, name in answered)
    {
      assert Answered(s1.w, s'.w, s.children, name, name in answered);
    }
    var evs := StopEvents(s, s');
    assert evs == StopEvents(s1, s');
    forall k | 0 <= k < |evs| ensures TellsStop(s.w.procs, s'.w.procs, s.children, evs[k].name, evs[k].err) {
      assert TellsStop(s1.w.procs, s'.w.procs, s1.children, evs[k].name, evs[k].err);
    }
    forall n
      ensures FailsToStop(s, s', answered, n) <==> FailsToStop(s1, s', answered, n)
      ensures FailsToStop(s, s', answered, n) ==>
                StopError(s.w.procs, s'.w.procs, s.children[n].id)
                == StopError(s1.w.procs, s'.w.procs, s.children[n].id)
    {}
  }

  /** Both ways to finish come down to one shutdown. */
  lemma FinishingStep(o: Oracle, cfg: Config, s: Sys) returns (s1: Sys, restartErr: Option<GaveUp>)
    requires (s.status.Looping? || s.status.Restarting?) && Step(o, cfg, s).status.Finished?
    ensures s1.w == Interfere(o, s.w) && s1.specs == s.specs && s1.children == s.children
    ensures Step(o, cfg, s) == TerminateSupervisor(o, cfg, s1, restartErr)
    ensures restartErr == RestartErrOf(Step(o, cfg, s).status) && (s.status.Looping? <==> restartErr.None?)
    ensures s.status.Restarting? ==> GaveUpOn(cfg, s, restartErr)
  {
    s1, restartErr := s.(w := Interfere(o, s.w)), None;
    if s.status.Restarting? {
      var source := s.status.source;
      if s.status.prev.None? {
        RestartLoop.ExecKeepsCount(o, cfg, s, source);
        assert false;
      }
      var a := Tolerance.Admit(s.mgr, s.status.prev.value, o(s.w.tick).clock);
      s1 := s1.(mgr := a.mgr);
      if a.ok {
        RestartLoop.ExecKeepsCount(o, cfg, s1, source);
        assert false;
      }
      restartErr := Some(GaveUp(source.spec.name, cfg.policy.max, cfg.policy.window, a.mgr.source,
                                s.status.prev.value));
    }
  }
}
