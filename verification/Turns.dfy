/** What single turns come to, by what the oracle says at their ticks: starting a group of children, a notification, a
    control message, a restart attempt; and what a supervisor reports of itself over a whole run (internal/s/monitor.go,
    one_for_one.go, dyn_supervisor.go). */
module Turns {
  import opened Types
  import opened Ordering
  import opened Engine
  import opened Ledger
  import opened Operations
  import opened Outcomes
  import opened Runs
  import opened Retirement
  import Backoff
  import Closing
  import DynSlice
  import RestartLoop
  import Stepping
  import Tolerance

  // ----- Starting a group -------------------------------------------------------------------------------------

  /** None of `n` starts in turn, the first one at tick `t`, fails. */
  ghost predicate AllStart(o: Oracle, t: nat, n: nat) { forall tick :: t <= tick < t + n ==> o(tick).startErr.None? }

  /** The entries once `done` has started in turn, with incarnations numbered from `base`. */
  function Entries(acc: map<string, Child>, done: seq<ChildSpec>, base: nat): map<string, Child>
    decreases |done|
  {
    if done == [] then acc else Entries(acc[done[0].name := Child(base, done[0])], done[1..], base + 1)
  }

  /** Each child has one entry, with its own incarnation, and the earlier entries of other names stay. */
  lemma {:induction false} EntriesExactly(acc: map<string, Child>, done: seq<ChildSpec>, base: nat)
    requires DynSlice.DistinctNames(done)
    ensures var children := Entries(acc, done, base);
            && (forall name :: name in children <==> name in acc || Named(done, name))
            && (forall i :: 0 <= i < |done| ==>
                  done[i].name in children && children[done[i].name] == Child(base + i, done[i]))
            && (forall name :: name in acc && !Named(done, name) ==> children[name] == acc[name])
    decreases |done|
  {
    if done != [] {
      var head, rest := done[0], done[1..];
      var acc' := acc[head.name := Child(base, head)];
      var children := Entries(acc, done, base);
      EntriesExactly(acc', rest, base + 1);
      assert !Named(rest, head.name);
      forall name ensures Named(done, name) <==> name == head.name || Named(rest, name) { NamedTail(done, name); }
      forall i | 0 <= i < |done|
        ensures done[i].name in children && children[done[i].name] == Child(base + i, done[i])
      {
        if i > 0 { assert rest[i - 1] == done[i]; }
      }
    }
  }

  ghost predicate Up(w: World, l: Launch, todo: seq<ChildSpec>, acc: map<string, Child>) {
    && l.children == Entries(acc, todo, |w.procs|)
    && l.w.trace == w.trace + StartEvents(todo, |w.procs|)
    && |l.w.procs| == |w.procs| + |todo| && l.w.tick == w.tick + |todo|
  }

  /** A group starts if and only if no start of it fails; then each child has its own incarnation, in start order, and
      its entry, and reports its start, and nothing else happens. */
  lemma {:induction false} LaunchSucceedsExactly(o: Oracle, w: World, order: Order, specs: seq<ChildSpec>,
                                                 todo: seq<ChildSpec>, acc: map<string, Child>)
    ensures var l := StartChildNodes(o, w, order, specs, todo, acc);
            && (l.err.None? <==> AllStart(o, w.tick, |todo|))
            && (l.err.None? ==> Up(w, l, todo, acc))
    decreases |todo|
  {
    var l := StartChildNodes(o, w, order, specs, todo, acc);
    if todo == [] {
      assert w.trace + [] == w.trace;
    } else {
      var s := StartChildNode(o, w, todo[0]);
      StartReports(o, w, todo[0]);
      if s.err.None? {
        LaunchSucceedsExactly(o, s.w, order, specs, todo[1..], acc[todo[0].name := s.child]);
        if l.err.None? { UpCons(w, s, l, todo, acc); }
      }
    }
  }

  lemma {:induction false} OneStartEvent(spec: ChildSpec, id: nat)
    ensures StartEvents([spec], id) == if spec.tag.Worker? then [Event(Started, Worker, spec.name, id, None)] else []
  {
    assert StartEvents([spec][1..], id + 1) == [];
  }

  /** One start, as it is reported. */
  lemma StartReports(o: Oracle, w: World, spec: ChildSpec)
    ensures var s := StartChildNode(o, w, spec);
            && s.err == o(w.tick).startErr && s.child == Child(|w.procs|, spec)
            && |s.w.procs| == |w.procs| + 1 && s.w.tick == w.tick + 1
            && s.w.trace == w.trace + if s.err.Some?
                                      then [Event(StartFailed, spec.tag, spec.name, |w.procs|, s.err)]
                                      else StartEvents([spec], |w.procs|)
  {
    StartOutcome(o, w, spec);
    OneStartEvent(spec, |w.procs|);
    assert w.trace + [] == w.trace;
  }

  lemma UpCons(w: World, s: Spawned, l: Launch, todo: seq<ChildSpec>, acc: map<string, Child>)
    requires todo != [] && s.child == Child(|w.procs|, todo[0])
    requires |s.w.procs| == |w.procs| + 1 && s.w.tick == w.tick + 1
    requires s.w.trace == w.trace + StartEvents([todo[0]], |w.procs|)
    requires Up(s.w, l, todo[1..], acc[todo[0].name := s.child])
    ensures Up(w, l, todo, acc)
  {
    StartEventsSplit(todo, |w.procs|);
  }

  /** What the trace says up to the failing start of the `k`-th child of a group. */
  function UpToFailure(todo: seq<ChildSpec>, k: nat, base: nat, cause: Option<Error>): seq<Event>
    requires k < |todo|
  {
    StartEvents(todo[..k], base) + [Event(StartFailed, todo[k].tag, todo[k].name, base + k, cause)]
  }

  lemma {:induction false} UpToFailureCons(todo: seq<ChildSpec>, k: nat, base: nat, cause: Option<Error>)
    requires k + 1 < |todo|
    ensures UpToFailure(todo, k + 1, base, cause)
            == StartEvents([todo[0]], base) + UpToFailure(todo[1..], k, base + 1, cause)
  {
    assert todo[..k + 1][1..] == todo[1..][..k];
    StartEventsSplit(todo[..k + 1], base);
  }

  /** A group of children that broke off at its `k`-th, of which `up` had started by `mid`. */
  ghost predicate BrokenOff(o: Oracle, w: World, l: Launch, todo: seq<ChildSpec>, acc: map<string, Child>,
                            k: nat, mid: World, up: map<string, Child>) {
    && k < |todo| && AllStart(o, w.tick, k) && o(w.tick + k).startErr.Some?
    && up == Entries(acc, todo[..k], |w.procs|)
    && mid.trace == w.trace + UpToFailure(todo, k, |w.procs|, o(w.tick + k).startErr)
    && |mid.procs| == |w.procs| + k + 1 && mid.tick == w.tick + k + 1
    && l.children == map[] && l.err.Some? && l.err.value.StartError?
    && l.err.value.node == todo[k].name && Some(l.err.value.cause) == o(w.tick + k).startErr
  }

  /** A group that does not start breaks off at its first failing child.  The error names that child, with its cause and
      with the errors of the rollback, which stops those that had started, in the stopping order. */
  lemma {:induction false} LaunchBreaksOff(o: Oracle, w: World, order: Order, specs: seq<ChildSpec>,
                                           todo: seq<ChildSpec>, acc: map<string, Child>)
    returns (k: nat, mid: World, up: map<string, Child>, answered: set<string>)
    requires AllRecorded(w.procs, acc) && DynSlice.DistinctNames(specs)
    requires StartChildNodes(o, w, order, specs, todo, acc).err.Some?
    ensures var l := StartChildNodes(o, w, order, specs, todo, acc);
            && BrokenOff(o, w, l, todo, acc, k, mid, up)
            && ReportsStops(mid, Halts(l.w, l.err.value.stuck), SortTermination(order, specs), up, None, map[],
                            answered)
    decreases |todo|
  {
    var s := StartChildNode(o, w, todo[0]);
    var l := StartChildNodes(o, w, order, specs, todo, acc);
    StartReports(o, w, todo[0]);
    Closing.RecordedStart(o, w, acc, todo[0]);
    if s.err.Some? {
      k, mid, up := 0, s.w, acc;
      SortedNames(order, specs);
      answered := StopReports(o, s.w, SortTermination(order, specs), acc, None, map[]);
      BreaksOffNow(o, w, s, l, todo, acc);
    } else {
      k, mid, up, answered := LaunchBreaksOff(o, s.w, order, specs, todo[1..], acc[todo[0].name := s.child]);
      BrokenOffCons(o, w, s, l, todo, acc, k, mid, up);
      k := k + 1;
    }
  }

  lemma BreaksOffNow(o: Oracle, w: World, s: Spawned, l: Launch, todo: seq<ChildSpec>, acc: map<string, Child>)
    requires todo != [] && s == StartChildNode(o, w, todo[0]) && s.err.Some? && s.err == o(w.tick).startErr
    requires |s.w.procs| == |w.procs| + 1
    requires l.children == map[] && l.err.Some? && l.err.value.StartError?
    requires l.err.value.node == todo[0].name && l.err.value.cause == s.err.value
    ensures BrokenOff(o, w, l, todo, acc, 0, s.w, acc)
  {
    assert todo[..0] == [] && StartEvents(todo[..0], |w.procs|) == [];
    assert UpToFailure(todo, 0, |w.procs|, s.err)
        == [Event(StartFailed, todo[0].tag, todo[0].name, |w.procs|, s.err)];
  }

  lemma StartedPrefix(o: Oracle, t: nat, k: nat)
    requires o(t).startErr.None? && AllStart(o, t + 1, k) && o(t + 1 + k).startErr.Some?
    ensures AllStart(o, t, k + 1) && o(t + (k + 1)).startErr.Some?
  {
    assert t + 1 + k == t + (k + 1);
  }

  lemma BrokenOffCons(o: Oracle, w: World, s: Spawned, l: Launch, todo: seq<ChildSpec>, acc: map<string, Child>,
                      k: nat, mid: World, up: map<string, Child>)
    requires todo != [] && s.child == Child(|w.procs|, todo[0]) && o(w.tick).startErr.None?
    requires |s.w.procs| == |w.procs| + 1 && s.w.tick == w.tick + 1
    requires s.w.trace == w.trace + StartEvents([todo[0]], |w.procs|)
    requires BrokenOff(o, s.w, l, todo[1..], acc[todo[0].name := s.child], k, mid, up)
    ensures BrokenOff(o, w, l, todo, acc, k + 1, mid, up)
  {
    assert todo[..k + 1][1..] == todo[1..][..k];
    StartedPrefix(o, w.tick, k);
    UpToFailureCons(todo, k, |w.procs|, o(w.tick + (k + 1)).startErr);
  }

  /** A supervisor starts if and only if no child of it fails to; it then reports its own start, once all children have
      reported theirs. */
  lemma StartsExactly(o: Oracle, cfg: Config, specs: seq<ChildSpec>)
    ensures var s, todo := Start(o, cfg, specs), SortStart(cfg.order, specs);
            && s.specs == specs && (s.status.Looping? || s.status.StartAborted?)
            && (s.status.Looping? <==> AllStart(o, 0, |specs|))
            && (s.status.Looping? ==>
                  && !s.mapNil && s.children == Entries(map[], todo, 0)
                  && s.w.trace == StartEvents(todo, 0) + [Event(Started, Supervisor, SELF, 0, None)])
  {
    var todo := SortStart(cfg.order, specs);
    LaunchSucceedsExactly(o, VOID, cfg.order, specs, todo, map[]);
    assert VOID.trace + StartEvents(todo, 0) == StartEvents(todo, 0);
  }

  // ----- What a supervisor reports of itself --------------------------------------------------------------------

  function OwnEvents(trace: seq<Event>): seq<Event> {
    if trace == [] then []
    else
      var n := |trace| - 1;
      OwnEvents(trace[..n]) + if IsOwn(trace[n]) then [trace[n]] else []
  }

  lemma {:induction false} OwnSilent(a: World, b: World)
    requires a.trace <= b.trace && Silent(a, b)
    ensures OwnEvents(b.trace) == OwnEvents(a.trace)
    decreases |b.trace|
  {
    if |a.trace| < |b.trace| {
      var n := |b.trace| - 1;
      var before := b.(trace := b.trace[..n]);
      OwnSilent(a, before);
    } else {
      assert b.trace == a.trace;
    }
  }

  /** Its start if it has started, and its cleanup once it has finished. */
  ghost predicate OwnStory(s: Sys) {
    && OwnEvents(s.w.trace)
    == (if s.status.StartAborted? then [] else [Event(Started, Supervisor, SELF, 0, None)])
       + (if s.status.Finished? && s.w.trace != [] then [s.w.trace[|s.w.trace| - 1]] else [])
    && (s.status.Finished? ==> s.w.trace != [] && s.w.trace[|s.w.trace| - 1].kind.Cleanup?)
  }

  lemma OwnStoryStarts(o: Oracle, cfg: Config, specs: seq<ChildSpec>)
    ensures OwnStory(Start(o, cfg, specs))
  {
    var l := StartChildNodes(o, VOID, cfg.order, specs, SortStart(cfg.order, specs), map[]);
    StartChildNodesGrows(o, VOID, cfg.order, specs, SortStart(cfg.order, specs), map[]);
    OwnSilent(VOID, l.w);
    var own := Event(Started, Supervisor, SELF, 0, None);
    assert Emit(l.w, own).trace[..|l.w.trace|] == l.w.trace;
  }

  /** What one step does to what a supervisor reports of itself. */
  ghost predicate Proceeds(s: Sys, s': Sys) {
    && s.w.trace <= s'.w.trace && (s'.status.StartAborted? <==> s.status.StartAborted?)
    && if s'.status.Finished? && !s.status.Finished? then
         && !s.status.StartAborted? && |s.w.trace| < |s'.w.trace| && s'.w.trace[|s'.w.trace| - 1].kind.Cleanup?
         && forall i :: |s.w.trace| <= i < |s'.w.trace| - 1 ==> !IsOwn(s'.w.trace[i])
       else (s'.status.Finished? <==> s.status.Finished?) && (s.status.Finished? ==> s' == s) && Silent(s.w, s'.w)
  }

  lemma StepProceeds(o: Oracle, cfg: Config, s: Sys)
    ensures Proceeds(s, Step(o, cfg, s))
  {
    StepContinues(o, cfg, s);
    if Step(o, cfg, s).status.Finished? && !s.status.Finished? { StepFinishes(o, cfg, s); }
    StartedForGood(o, cfg, s);
  }

  lemma OwnStoryGoesOn(s: Sys, s': Sys)
    requires OwnStory(s) && Proceeds(s, s')
    ensures OwnStory(s')
  {
    if s'.status.Finished? && !s.status.Finished? {
      OwnSilent(s.w, s'.w.(trace := s'.w.trace[..|s'.w.trace| - 1]));
    } else {
      OwnSilent(s.w, s'.w);
    }
  }

  /** The step that finishes a supervisor reports, last of all, its cleanup. */
  lemma StepFinishes(o: Oracle, cfg: Config, s: Sys)
    requires Step(o, cfg, s).status.Finished? && !s.status.Finished?
    ensures var w' := Step(o, cfg, s).w;
            && !s.status.StartAborted? && s.w.trace <= w'.trace && |s.w.trace| < |w'.trace|
            && w'.trace[|w'.trace| - 1].kind.Cleanup?
            && forall i :: |s.w.trace| <= i < |w'.trace| - 1 ==> !IsOwn(w'.trace[i])
  {
    StepContinues(o, cfg, s);
    var s1, restartErr := Closing.FinishingStep(o, cfg, s);
    TerminateSupervisorContinues(o, cfg, s1, restartErr);
  }

  lemma StartedForGood(o: Oracle, cfg: Config, s: Sys)
    ensures Step(o, cfg, s).status.StartAborted? <==> s.status.StartAborted?
  {
    match s.status {
      case Looping => TurnNeverAborts(o, cfg, s);
      case Restarting(source, prev) => RestartLoop.ExecKeepsCount(o, cfg, AdmittedAt(o, s, prev), source);
      case _ =>
    }
  }

  lemma TurnNeverAborts(o: Oracle, cfg: Config, s: Sys)
    requires s.status.Looping?
    ensures !LoopTurn(o, cfg, s).status.StartAborted?
  {
    var s1 := s.(w := Interfere(o, s.w));
    match o(s.w.tick).turn {
      case Notify(id) => if id < |s1.w.procs| && s1.w.procs[id].phase.Exiting? { HandlingMeans(s1, id); }
      case _ =>
    }
  }

  /** The state after the verdict of the tolerance manager, if one is asked for. */
  function AdmittedAt(o: Oracle, s: Sys, prev: Option<Error>): Sys {
    if prev.None? then s
    else s.(w := Interfere(o, s.w), mgr := Tolerance.Admit(s.mgr, prev.value, o(s.w.tick).clock).mgr)
  }

  /** In every run, whatever accidents happen: a supervisor that has started has reported its own start exactly once,
      one whose start was rolled back never does, and its cleanup is run exactly once, when it finishes, as its last
      act. */
  lemma {:induction false} OwnEventsOnce(o: Oracle, cfg: Config, specs: seq<ChildSpec>, n: nat)
    ensures var s := Run(o, cfg, specs, n);
            && (s.status.StartAborted? <==> !AllStart(o, 0, |specs|))
            && OwnStory(s)
  {
    var step, run := Stepper(o, cfg), States(o, cfg, specs);
    var aborted := Start(o, cfg, specs).status.StartAborted?;
    var keeps := (s: Sys) => OwnStory(s) && s.status.StartAborted? == aborted;
    StatesAreRun(o, cfg, specs);
    StartsExactly(o, cfg, specs);
    OwnStoryStarts(o, cfg, specs);
    forall s | keeps(s) ensures keeps(step(s)) {
      StepProceeds(o, cfg, s);
      OwnStoryGoesOn(s, step(s));
    }
    assert run(0) == Start(o, cfg, specs);
    Stepping.Along(step, run, keeps, 0, n);
  }

  // ----- Turns of the monitor loop --------------------------------------------------------------------------------

  /** Nothing happened but what the others did in one tick. */
  ghost predicate OnlyTime(o: Oracle, s: Sys, s': Sys) { s' == s.(w := Interfere(o, s.w)) }

  /** How the exit of the child in the map is reported when the loop has read `err`. */
  function NoticeReport(source: Child, err: Option<Error>): seq<Event> {
    ExitReport(Proc(source.spec, Gone(ViaNotify, err), true, false, false), source.id)
  }

  /** A notification that the loop takes: what it carries is the error of the goroutine that offers it, and the child
      recorded under that name is reported and restarted, or given up, by its own policy and that error. */
  lemma NotificationsAreHandled(o: Oracle, cfg: Config, s: Sys, id: nat)
    requires s.status.Looping? && o(s.w.tick).turn == Notify(id)
    ensures var s' := Step(o, cfg, s);
            if id < |s.w.procs| && PhaseAt(o, s.w, id).Exiting? then
              var err, name := PhaseAt(o, s.w, id).err, s.w.procs[id].spec.name;
              && |s'.w.procs| == |s.w.procs| && s'.w.procs[id].phase == Gone(ViaNotify, err)
              && (forall i :: 0 <= i < |s.w.procs| && i != id ==> s'.w.procs[i].phase == PhaseAt(o, s.w, i))
              && (s'.specs, s'.mgr, s'.mapNil) == (s.specs, s.mgr, s.mapNil)
              && if name !in s.children then
                   s'.status == Panicked(UnknownName(name)) && s'.w.trace == s.w.trace && s'.children == s.children
                 else
                   var source := s.children[name];
                   && s'.w.trace == s.w.trace + NoticeReport(source, err)
                   && if EndsForGood(source.spec.restart, err)
                      then s'.status == Looping && s'.children == s.children - {source.spec.name}
                      else s'.status == Restarting(source, err) && s'.children == s.children
            else OnlyTime(o, s, s')
  {
    TickOutcome(o, s.w);
    var s1 := s.(w := Interfere(o, s.w));
    if id < |s.w.procs| && PhaseAt(o, s.w, id).Exiting? {
      HandlingReports(s1, id);
    }
  }

  lemma HandlingReports(s: Sys, id: nat)
    requires s.status.Looping? && id < |s.w.procs| && s.w.procs[id].phase.Exiting?
    ensures var p := s.w.procs[id];
            var err, name := p.phase.err, p.spec.name;
            var s' := HandleNotification(s, id);
            && s'.w.procs == Receive(s.w, id, !p.started).procs
            && (s'.specs, s'.mgr, s'.mapNil) == (s.specs, s.mgr, s.mapNil)
            && if name !in s.children then
                 s'.status == Panicked(UnknownName(name)) && s'.w.trace == s.w.trace && s'.children == s.children
               else
                 var source := s.children[name];
                 && s'.w.trace == s.w.trace + NoticeReport(source, err)
                 && if EndsForGood(source.spec.restart, err)
                    then s'.status == Looping && s'.children == s.children - {source.spec.name}
                    else s'.status == Restarting(source, err) && s'.children == s.children
  {
    var p := s.w.procs[id];
    if p.spec.name in s.children {
      var source, s1 := s.children[p.spec.name], s.(w := Receive(s.w, id, !p.started));
      if p.phase.err.Some? {
        ErrorReports(s1, source, p.phase.err.value);
      } else {
        CompletionReports(s1, source);
      }
    }
  }

  /** The state after a child has been reported: on to its restart, or back to the loop without it. */
  ghost predicate Sentenced(s: Sys, s': Sys, source: Child, err: Option<Error>) {
    && s'.w == s.w.(trace := s.w.trace + NoticeReport(source, err))
    && (s'.specs, s'.mgr, s'.mapNil) == (s.specs, s.mgr, s.mapNil)
    && if EndsForGood(source.spec.restart, err)
       then s'.status == Looping && s'.children == s.children - {source.spec.name}
       else s'.status == Restarting(source, err) && s'.children == s.children
  }

  lemma ErrorReports(s: Sys, source: Child, err: Error)
    ensures Sentenced(s, HandleError(s, source, err), source, Some(err))
  {}

  lemma CompletionReports(s: Sys, source: Child)
    ensures Sentenced(s, HandleCompletion(s, source), source, None)
  {
    assert s.w.trace + [] == s.w.trace;
  }

  /** A spawn that the loop takes: the child is started at once; if that fails the spec list and the map stay and the
      loop waits for a notification, otherwise the child is appended and recorded, unless the map is nil. */
  lemma SpawnsAreHandled(o: Oracle, cfg: Config, s: Sys, spec: ChildSpec)
    requires s.status.Looping? && o(s.w.tick).turn == Spawn(spec)
    ensures var s', id, err := Step(o, cfg, s), |s.w.procs|, o(s.w.tick + 1).startErr;
            && |s'.w.procs| == id + 1 && s'.w.procs[id] == Proc(spec, Running, err.None?, false, false)
            && (s'.mgr, s'.mapNil) == (s.mgr, s.mapNil)
            && s'.w.trace == s.w.trace + (if err.Some? then [Event(StartFailed, spec.tag, spec.name, id, err)]
                                          else StartEvents([spec], id))
            && if err.None? && !s.mapNil then
                 s'.status == Looping && s'.specs == s.specs + [spec]
                   && s'.children == s.children[spec.name := Child(id, spec)]
               else
                 && s'.specs == s.specs && s'.children == s.children
                 && s'.status == if err.Some? then Draining else Panicked(NilMapWrite(Child(id, spec)))
  {
    TickOutcome(o, s.w);
    StartOutcome(o, Interfere(o, s.w), spec);
    OneStartEvent(spec, |s.w.procs|);
  }

  /** A termination that the loop takes: an unknown name changes nothing; otherwise that child alone is stopped, and
      with distinct names its spec and its entry are removed. */
  lemma StopsAreHandled(o: Oracle, cfg: Config, s: Sys, name: string) returns (err: Option<Error>, answers: bool)
    requires s.status.Looping? && o(s.w.tick).turn == Stop(name)
    requires AllRecorded(s.w.procs, s.children) && DynSlice.DistinctNames(s.specs)
    ensures var s' := Step(o, cfg, s);
            if name in s.children then
              && OneStop(Interfere(o, s.w), Halt(s'.w, err), s.children, name, answers)
              && (s'.status, s'.mgr, s'.mapNil) == (Looping, s.mgr, s.mapNil)
              && s'.specs == DynSlice.Without(s.specs, name)
              && s'.children == if Named(s.specs, name) then s.children - {name} else s.children
            else OnlyTime(o, s, s')
  {
    var s1 := s.(w := Interfere(o, s.w));
    err, answers := None, false;
    if name in s.children {
      InterfereKeeps(o, s.w);
      RecordedGrows(s.w.procs, s1.w.procs, s.children);
      var h := TerminateChildNode(o, s1.w, s.children[name]);
      err := h.err;
      answers := StopAnswers(o, s1.w, s.children, name);
      StopRemoves(o, s1, name, h);
    }
  }

  lemma {:induction false} StopRemoves(o: Oracle, s: Sys, name: string, h: Halt)
    requires name in s.children && h == TerminateChildNode(o, s.w, s.children[name]) && DynSlice.DistinctNames(s.specs)
    ensures StopChild(o, s, name)
            == s.(w := h.w, specs := DynSlice.Without(s.specs, name),
                  children := if Named(s.specs, name) then s.children - {name} else s.children)
  {
    DynSlice.DeleteWithDistinctNames(s.specs, name);
    assert (exists x :: x in s.specs && x.name == name) <==> Named(s.specs, name);
  }

  // ----- Restart attempts -----------------------------------------------------------------------------------------

  /** One iteration of the restart loop, by the ticks of its parts: the verdict at its first tick if it was entered with
      an error, then the wait, then the attempt. */
  datatype Attempt = Attempt(admitted: bool, mgr: Tolerance.Manager<Error>, waits: bool, wait: nat, restart: nat)

  function AttemptOf(o: Oracle, cfg: Config, s: Sys, prev: Option<Error>): Attempt {
    var verdict := if prev.None? then Tolerance.Admission(s.mgr, true)
                   else Tolerance.Admit(s.mgr, prev.value, o(s.w.tick).clock);
    var waits := Backoff.Duration(cfg.backoff, verdict.mgr.count) > 0;
    var wait := s.w.tick + if prev.None? then 0 else 1;
    Attempt(verdict.ok, verdict.mgr, waits, wait, if waits then wait + 1 else wait)
  }

  /** A done context cuts the wait short. */
  predicate CutShort(o: Oracle, s: Sys, a: Attempt) {
    && a.waits && o(a.wait).giveWay
    && (s.w.done || o(a.wait).cancel || (a.wait == s.w.tick + 1 && o(s.w.tick).cancel))
  }

  /** What every iteration has in common. */
  ghost predicate Attempted(cfg: Config, s: Sys, s': Sys, a: Attempt, cut: bool) {
    && s'.mgr == a.mgr && s'.specs == s.specs
    && (s'.status.Finished? <==> !a.admitted)
    && (a.admitted && cut ==>
          && s'.status == Looping && s'.children == s.children && s'.mapNil == s.mapNil
          && |s'.w.procs| == |s.w.procs| && s'.w.trace == s.w.trace)
  }

  /** One iteration under one-for-one: it gives up, or is cut short and goes back to the loop with nobody restarted, or
      starts one incarnation of that child; if that start fails the next iteration is about its error. */
  lemma OneForOneAttempt(o: Oracle, cfg: Config, s: Sys)
    requires s.status.Restarting? && cfg.strategy.OneForOne?
    ensures var s', a, source := Step(o, cfg, s), AttemptOf(o, cfg, s, s.status.prev), s.status.source;
            && Attempted(cfg, s, s', a, CutShort(o, s, a))
            && (a.admitted && !CutShort(o, s, a) ==>
                  var id, err := |s.w.procs|, o(a.restart).startErr;
                  && |s'.w.procs| == id + 1 && s'.w.procs[id] == Proc(source.spec, Running, err.None?, false, false)
                  && s'.w.trace == s.w.trace + (if err.None? then StartEvents([source.spec], id) else [])
                  && s'.status == (if err.Some? then Restarting(source, err) else Looping)
                  && s'.mapNil == s.mapNil
                  && s'.children == if err.None? then s.children[source.spec.name := Child(id, source.spec)]
                                    else s.children)
  {
    var a, source := AttemptOf(o, cfg, s, s.status.prev), s.status.source;
    var s1 := AtAttempt(o, cfg, s);
    if a.admitted && !CutShort(o, s, a) {
      StartOutcome(o, s1.w, source.spec);
      OneStartEvent(source.spec, |s.w.procs|);
      assert s.w.trace + [] == s.w.trace;
    }
  }

  /** The state in which the attempt itself begins, if the iteration comes to it. */
  lemma AtAttempt(o: Oracle, cfg: Config, s: Sys) returns (s1: Sys)
    requires s.status.Restarting?
    ensures var s', a := Step(o, cfg, s), AttemptOf(o, cfg, s, s.status.prev);
            && Attempted(cfg, s, s', a, CutShort(o, s, a))
            && (a.admitted && !CutShort(o, s, a) ==>
                  && s1.w.tick == a.restart && s1.mgr == a.mgr && s1.w.trace == s.w.trace && Continues(s.w, s1.w)
                  && |s1.w.procs| == |s.w.procs|
                  && (s1.specs, s1.children, s1.mapNil) == (s.specs, s.children, s.mapNil)
                  && s' == ExecRestart(o, cfg, s1, s.status.source))
  {
    var a, source := AttemptOf(o, cfg, s, s.status.prev), s.status.source;
    var s0 := AdmittedAt(o, s, s.status.prev);
    InterfereContinues(o, s.w);
    InterfereContinues(o, s0.w);
    InterfereKeeps(o, s.w);
    InterfereKeeps(o, s0.w);
    ContinuesTrans(s.w, s0.w, Interfere(o, s0.w));
    s1 := if a.waits then s0.(w := Interfere(o, s0.w)) else s0;
    if a.admitted {
      BackoffOutcome(o, cfg, s0, source);
      RestartLoop.ExecKeepsCount(o, cfg, s0, source);
    }
  }

  lemma BackoffOutcome(o: Oracle, cfg: Config, s: Sys, source: Child)
    ensures var waits := Backoff.Duration(cfg.backoff, s.mgr.count) > 0;
            var s1 := s.(w := Interfere(o, s.w));
            BackoffAndRestart(o, cfg, s, source)
            == if waits && o(s.w.tick).giveWay && (s.w.done || o(s.w.tick).cancel) then s1.(status := Looping)
               else ExecRestart(o, cfg, if waits then s1 else s, source)
  {}

  /** One iteration under one-for-all that comes to the attempt: the siblings that are live are stopped, and reported as
      in any group stop, and then all are started.  If that fails the map is nil, and the next iteration is about an
      error that names the failing child and its cause. */
  lemma OneForAllAttempt(o: Oracle, cfg: Config, s: Sys)
    returns (mid: World, h: Halts, answered: set<string>, k: nat)
    requires s.status.Restarting? && cfg.strategy.OneForAll?
    requires AllRecorded(s.w.procs, s.children) && DynSlice.DistinctNames(s.specs)
    ensures var s', a, source := Step(o, cfg, s), AttemptOf(o, cfg, s, s.status.prev), s.status.source;
            var skip, todo := Some(source.spec.name), SortStart(cfg.order, s.specs);
            && Attempted(cfg, s, s', a, CutShort(o, s, a))
            && (a.admitted && !CutShort(o, s, a) ==>
                  && mid.tick == a.restart && mid.trace == s.w.trace && |mid.procs| == |s.w.procs| == |h.w.procs|
                  && ReportsStops(mid, h, Reverse(todo), s.children, skip, map[], answered)
                  && Relaunched(o, h.w, s', source, todo, k))
  {
    var a, source := AttemptOf(o, cfg, s, s.status.prev), s.status.source;
    var s1 := AtAttempt(o, cfg, s);
    mid, h, answered, k := s1.w, Halts(s1.w, map[]), {}, 0;
    if a.admitted && !CutShort(o, s, a) {
      var skip, todo := Some(source.spec.name), SortTermination(cfg.order, s.specs);
      RecordedGrows(s.w.procs, s1.w.procs, s.children);
      SortedNames(cfg.order, s.specs);
      StopReversesStart(cfg.order, s.specs);
      h := TerminateChildNodes(o, s1.w, todo, s.children, skip, map[]);
      TerminateChildNodesGrows(o, s1.w, todo, s.children, skip, map[]);
      answered := StopReports(o, s1.w, todo, s.children, skip, map[]);
      k := Relaunch(o, cfg, s1, source, h.w);
    }
  }

  /** All children of `todo` were started from `w` on, and that succeeded, or not. */
  ghost predicate Relaunched(o: Oracle, w: World, s': Sys, source: Child, todo: seq<ChildSpec>, k: nat) {
    && s'.mapNil == !s'.status.Looping?
    && (s'.status.Looping? <==> AllStart(o, w.tick, |todo|))
    && if s'.status.Looping? then
         s'.children == Entries(map[], todo, |w.procs|) && s'.w.trace == w.trace + StartEvents(todo, |w.procs|)
       else
         && FailedToRestart(o, s', source, todo, w.tick, k)
         && w.trace + UpToFailure(todo, k, |w.procs|, o(w.tick + k).startErr) <= s'.w.trace
  }

  /** The error with which the next iteration is entered. */
  ghost predicate FailedToRestart(o: Oracle, s': Sys, source: Child, todo: seq<ChildSpec>, t: nat, k: nat) {
    && k < |todo| && AllStart(o, t, k) && o(t + k).startErr.Some?
    && s'.children == map[] && s'.status.Restarting? && s'.status.source == source
    && s'.status.prev.Some? && s'.status.prev.value.StartError?
    && s'.status.prev.value.node == todo[k].name && Some(s'.status.prev.value.cause) == o(t + k).startErr
  }

  lemma Relaunch(o: Oracle, cfg: Config, s: Sys, source: Child, w: World) returns (k: nat)
    requires cfg.strategy.OneForAll? && DynSlice.DistinctNames(s.specs)
    requires w == TerminateChildNodes(o, s.w, SortTermination(cfg.order, s.specs), s.children, Some(source.spec.name),
                                      map[]).w
    ensures Relaunched(o, w, ExecRestart(o, cfg, s, source), source, SortStart(cfg.order, s.specs), k)
  {
    var todo, s' := SortStart(cfg.order, s.specs), ExecRestart(o, cfg, s, source);
    var l := StartChildNodes(o, w, cfg.order, s.specs, todo, map[]);
    assert s' == s.(w := l.w, children := l.children, mapNil := l.err.Some?,
                    status := if l.err.Some? then Restarting(source, l.err) else Looping);
    LaunchSucceedsExactly(o, w, cfg.order, s.specs, todo, map[]);
    k := 0;
    if l.err.Some? {
      var mid, up, answered;
      k, mid, up, answered := LaunchBreaksOff(o, w, cfg.order, s.specs, todo, map[]);
    }
  }
}
