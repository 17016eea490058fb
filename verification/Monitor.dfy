/** The supervisor goroutine as imperative code: the loops of internal/s/monitor.go and the restart
    strategies, updating the children map, the trace and the tolerance manager in place.  Each
    method is proved against the function of `Engine` that specifies it. */
module Monitor {
  import opened Types
  import opened Ordering
  import opened Engine
  import Tolerance
  import Backoff
  import DynSlice
  import RestartLoop
  import Stepping

  datatype LoopEnd = BackToLoop | GivingUp(reason: GaveUp) | Again(prev: Option<Error>)

  /** One step and then `k` more. */
  lemma StepsFirst(o: Oracle, cfg: Config, s: Sys, s': Sys, k: nat)
    requires s' == RestartLoop.Steps(o, cfg, s, 1)
    ensures RestartLoop.Steps(o, cfg, s', k) == RestartLoop.Steps(o, cfg, s, 1 + k)
  {
    RestartLoop.FirstStep(o, cfg, s);
    RestartLoop.StepsShift(o, cfg, s, k);
  }

  /** The status is only an outcome of the wait and the restart. */
  lemma StatusIsSet(o: Oracle, cfg: Config, s: Sys, status: Status, source: Child)
    ensures BackoffAndRestart(o, cfg, s.(status := status), source) == BackoffAndRestart(o, cfg, s, source)
  {
    ExecSetsStatus(o, cfg, s, status, source);
    ExecSetsStatus(o, cfg, s.(w := Interfere(o, s.w)), status, source);
  }

  lemma ExecSetsStatus(o: Oracle, cfg: Config, s: Sys, status: Status, source: Child)
    ensures ExecRestart(o, cfg, s.(status := status), source) == ExecRestart(o, cfg, s, source)
  {}

  /** One iteration of the restart loop, from the state that `RestartOnce` works on. */
  lemma IterationUnfolds(o: Oracle, cfg: Config, s: Sys, source: Child, prev: Option<Error>)
    ensures var s' := Step(o, cfg, s.(status := Restarting(source, prev)));
            if prev.None? then s' == BackoffAndRestart(o, cfg, s, source)
            else
              var a := Tolerance.Admit(s.mgr, prev.value, o(s.w.tick).clock);
              var s1 := s.(w := Interfere(o, s.w), mgr := a.mgr);
              s' == if a.ok then BackoffAndRestart(o, cfg, s1, source)
                    else TerminateSupervisor(o, cfg, s1,
                           Some(GaveUp(source.spec.name, cfg.policy.max, cfg.policy.window, a.mgr.source, prev.value)))
  {
    StatusIsSet(o, cfg, s, Restarting(source, prev), source);
    if prev.Some? {
      var a := Tolerance.Admit(s.mgr, prev.value, o(s.w.tick).clock);
      StatusIsSet(o, cfg, s.(w := Interfere(o, s.w), mgr := a.mgr), Restarting(source, prev), source);
    }
  }

  class Supervisor {
    const o: Oracle
    const cfg: Config
    const tolerance: Tolerance.RestartToleranceManager<Error>
    var procs: seq<Proc>
    var tick: nat
    var done: bool
    var trace: seq<Event>
    var specs: seq<ChildSpec>
    var children: map<string, Child>
    var mapNil: bool

    function W(): World
      reads this
    {
      World(procs, tick, done, trace)
    }

    function S(status: Status): Sys
      reads this, tolerance
    {
      Sys(W(), specs, children, mapNil, tolerance.State(), status)
    }

    constructor (o: Oracle, cfg: Config, specs: seq<ChildSpec>)
      ensures this.o == o && this.cfg == cfg && fresh(tolerance)
      ensures W() == VOID && this.specs == specs && children == map[] && !mapNil
              && tolerance.State() == Tolerance.Fresh(cfg.policy)
    {
      this.o, this.cfg, this.specs := o, cfg, specs;
      procs, tick, done, trace, children, mapNil := [], 0, false, [], map[], false;
      tolerance := new Tolerance.RestartToleranceManager<Error>(cfg.policy);
    }

    /** The environment moves: goroutines end, the context may be cancelled. */
    method Wait() returns (c: Choice)
      modifies this`procs, this`tick, this`done
      ensures W() == Interfere(o, old(W())) && c == o(old(tick))
    {
      c := o(tick);
      procs, done, tick := Settle(procs, c.exits), done || c.cancel, tick + 1;
    }

    method Notify(ev: Event)
      modifies this`trace
      ensures W() == Emit(old(W()), ev)
    {
      trace := trace + [ev];
    }

    method DoStart(spec: ChildSpec) returns (ch: Child, err: Option<Error>)
      modifies this`procs, this`tick, this`done
      ensures Spawned(W(), ch, err) == Engine.DoStart(o, old(W()), spec)
    {
      var c := Wait();
      ch, err := Child(|procs|, spec), c.startErr;
      procs := procs + [Proc(spec, Running, err.None?, false, false)];
    }

    method Terminate(ch: Child) returns (first: bool, err: Option<Error>)
      modifies this`procs, this`tick, this`done
      ensures Answer(W(), first, err) == Engine.Terminate(o, old(W()), ch)
    {
      var c := Wait();
      first, err := false, None;
      if ch.id < |procs| {
        var p := procs[ch.id];
        if ch.spec.shutdown.Timed? && c.timer {
          procs := procs[ch.id := p.(timedOut := true)];
          first, err := true, Some(ShutdownTimeout);
        } else if !p.phase.Gone? {
          first, err := true, if p.phase.Exiting? then p.phase.err else c.exitErr;
          procs := procs[ch.id := p.(phase := Gone(ViaTerminate, err))];
        }
      }
    }

    method StartChildNode(spec: ChildSpec) returns (ch: Child, err: Option<Error>)
      modifies this`procs, this`tick, this`done, this`trace
      ensures Spawned(W(), ch, err) == Engine.StartChildNode(o, old(W()), spec)
    {
      ch, err := DoStart(spec);
      if err.Some? {
        Notify(Event(StartFailed, spec.tag, spec.name, ch.id, err));
      } else if spec.tag.Worker? {
        Notify(Event(Started, Worker, spec.name, ch.id, None));
      }
    }

    method TerminateChildNode(ch: Child) returns (err: Option<Error>)
      modifies this`procs, this`tick, this`done, this`trace
      ensures Halt(W(), err) == Engine.TerminateChildNode(o, old(W()), ch)
    {
      var first, terminationErr := Terminate(ch);
      if !first {
        return None;
      }
      if terminationErr.Some? {
        Notify(Event(Failed, ch.spec.tag, ch.spec.name, ch.id, terminationErr));
        return terminationErr;
      }
      Notify(Event(Terminated, ch.spec.tag, ch.spec.name, ch.id, None));
      return None;
    }

    method TerminateChildNodes(from: map<string, Child>, skip: Option<string>) returns (errs: map<string, Error>)
      modifies this`procs, this`tick, this`done, this`trace
      ensures Halts(W(), errs)
              == Engine.TerminateChildNodes(o, old(W()), SortTermination(cfg.order, specs), from, skip, map[])
    {
      var todo := SortTerminationCopy(cfg.order, specs);
      errs := map[];
      for i := 0 to |todo|
        invariant Engine.TerminateChildNodes(o, W(), todo[i..], from, skip, errs)
                  == Engine.TerminateChildNodes(o, old(W()), todo, from, skip, map[])
      {
        assert todo[i..][1..] == todo[i + 1..];
        if Some(todo[i].name) == skip {
          continue;
        }
        if todo[i].name in from {
          var err := TerminateChildNode(from[todo[i].name]);
          if err.Some? {
            errs := errs[todo[i].name := err.value];
          }
        }
      }
      assert todo[|todo|..] == [];
    }

    method StartChildNodes() returns (started: map<string, Child>, err: Option<Error>)
      modifies this`procs, this`tick, this`done, this`trace
      ensures Launch(W(), started, err)
              == Engine.StartChildNodes(o, old(W()), cfg.order, specs, SortStart(cfg.order, specs), map[])
    {
      var todo := SortStartCopy(cfg.order, specs);
      started := map[];
      for i := 0 to |todo|
        invariant Engine.StartChildNodes(o, W(), cfg.order, specs, todo[i..], started)
                  == Engine.StartChildNodes(o, old(W()), cfg.order, specs, todo, map[])
      {
        assert todo[i..][1..] == todo[i + 1..];
        var ch, startErr := StartChildNode(todo[i]);
        if startErr.Some? {
          var stuck := TerminateChildNodes(started, None);
          return map[], Some(StartError(todo[i].name, startErr.value, stuck));
        }
        started := started[todo[i].name := ch];
      }
      assert todo[|todo|..] == [];
      err := None;
    }

    method OneForOneRestart(source: Child) returns (err: Option<Error>)
      modifies this`procs, this`tick, this`done, this`trace, this`children
      ensures S(if err.Some? then Restarting(source, err) else Looping)
              == Engine.OneForOneRestart(o, old(S(Looping)), source)
    {
      var ch;
      ch, err := DoStart(source.spec);
      if err.Some? {
        return;
      }
      children := children[source.spec.name := ch];
      if source.spec.tag.Worker? {
        Notify(Event(Started, Worker, source.spec.name, ch.id, None));
      }
    }

    method OneForAllRestart(source: Child) returns (err: Option<Error>)
      modifies this`procs, this`tick, this`done, this`trace, this`children, this`mapNil
      ensures S(if err.Some? then Restarting(source, err) else Looping)
              == Engine.OneForAllRestart(o, cfg, old(S(Looping)), source)
    {
      var _ := TerminateChildNodes(children, Some(source.spec.name));
      children, err := StartChildNodes();
      mapNil := err.Some?;
    }

    /** The backoff wait and the restart itself; `again` is the error that sends the loop round once more. */
    method WaitAndRestart(source: Child) returns (again: Option<Error>)
      modifies this`procs, this`tick, this`done, this`trace, this`children, this`mapNil
      ensures S(if again.Some? then Restarting(source, again) else Looping)
              == BackoffAndRestart(o, cfg, old(S(Looping)), source)
    {
      var wait := Backoff.Duration(cfg.backoff, tolerance.restartCount);
      if wait > 0 {
        var c := Wait();
        if done && c.giveWay {
          return None;
        }
      }
      if cfg.strategy.OneForOne? {
        again := OneForOneRestart(source);
      } else {
        again := OneForAllRestart(source);
      }
    }

    /** One iteration of `execRestartLoop`. */
    method RestartOnce(source: Child, prev: Option<Error>) returns (end: LoopEnd)
      modifies this, tolerance
      ensures specs == old(specs)
      ensures EndMeans(end, source, Step(o, cfg, old(S(Restarting(source, prev)))))
    {
      IterationUnfolds(o, cfg, S(Looping), source, prev);
      if prev.Some? {
        var c := Wait();
        var ok := tolerance.CheckToleranceExceeded(prev.value, c.clock);
        if !ok {
          return GivingUp(GaveUp(source.spec.name, cfg.policy.max, cfg.policy.window, tolerance.sourceErr, prev.value));
        }
      }
      var again := WaitAndRestart(source);
      end := if again.Some? then Again(again) else BackToLoop;
    }

    /** How the end of a restart loop shows in the state machine. */
    ghost predicate EndMeans(end: LoopEnd, source: Child, s: Sys)
      reads this, tolerance
    {
      match end
      case BackToLoop => S(Looping) == s
      case GivingUp(reason) => TerminateSupervisor(o, cfg, S(Looping), Some(reason)) == s
      case Again(prev) => S(Restarting(source, prev)) == s
    }

    /** `execRestartLoop`.  The loop of the source may run for ever; this one stops after `fuel` iterations. */
    method ExecRestartLoop(source: Child, sourceErr: Option<Error>, fuel: nat) returns (end: LoopEnd, k: nat)
      modifies this, tolerance
      ensures specs == old(specs) && k <= fuel && (end.Again? ==> k == fuel)
      ensures EndMeans(end, source, RestartLoop.Steps(o, cfg, old(S(Restarting(source, sourceErr))), k))
    {
      var prev := sourceErr;
      k := 0;
      while k < fuel
        invariant k <= fuel && specs == old(specs)
        invariant S(Restarting(source, prev)) == RestartLoop.Steps(o, cfg, old(S(Restarting(source, sourceErr))), k)
      {
        end := RestartOnce(source, prev);
        k := k + 1;
        if !end.Again? {
          return;
        }
        prev := end.prev;
      }
      end := Again(prev);
    }

    // ----- Handling one turn ----------------------------------------------------------------------

    /** `terminateSupervisor`. */
    method TerminateAll(restartErr: Option<GaveUp>) returns (result: Option<SupError>)
      modifies this`procs, this`tick, this`done, this`trace
      ensures S(Finished(result)) == TerminateSupervisor(o, cfg, old(S(Looping)), restartErr)
    {
      var errs := TerminateChildNodes(children, None);
      var c := Wait();
      Notify(Event(Cleanup, Types.Tag.Supervisor, SELF, 0, c.cleanupErr));
      result := Result(restartErr, errs, c.cleanupErr);
    }

    /** `handleChildNodeNotification` for the notification that goroutine `id` offers, up to the restart loop. */
    method HandleNotificationOf(id: nat) returns (status: Status)
      requires id < |procs| && procs[id].phase.Exiting?
      modifies this`procs, this`trace, this`children
      ensures S(status) == HandleNotification(old(S(Looping)), id)
    {
      var p := procs[id];
      procs := procs[id := p.(phase := Gone(ViaNotify, p.phase.err), misread := p.misread || !p.started)];
      if p.spec.name !in children {
        return Panicked(UnknownName(p.spec.name));
      }
      var source := children[p.spec.name];
      var spec := source.spec;
      if p.phase.err.Some? {
        Notify(Event(Failed, spec.tag, spec.name, source.id, p.phase.err));
        if !spec.restart.Temporary? {
          return Restarting(source, p.phase.err);
        }
      } else {
        if spec.tag.Worker? {
          Notify(Event(Completed, Worker, spec.name, source.id, None));
        }
        if spec.restart.Permanent? {
          return Restarting(source, None);
        }
      }
      children := children - {spec.name};
      status := Looping;
    }

    /** `startChildMsg.processMsg`. */
    method StartChildMsg(spec: ChildSpec) returns (status: Status)
      modifies this`procs, this`tick, this`done, this`trace, this`children, this`specs
      ensures S(status) == SpawnChild(o, old(S(Looping)), spec)
    {
      var ch, err := StartChildNode(spec);
      if err.Some? {
        return Draining;
      }
      if mapNil {
        return Panicked(NilMapWrite(ch));
      }
      specs := specs + [spec];
      children := children[spec.name := ch];
      status := Looping;
    }

    /** `terminateChildMsg.processMsg`, with the loop that deletes from the slice it ranges over. */
    method TerminateChildMsg(name: string) returns (status: Status)
      modifies this`procs, this`tick, this`done, this`trace, this`children, this`specs
      ensures S(status) == StopChild(o, old(S(Looping)), name)
    {
      if name !in children {
        return Looping;
      }
      var _ := TerminateChildNode(children[name]);
      var backing := new ChildSpec[|specs|](i requires 0 <= i < |specs| reads this => specs[i]);
      assert backing[..] == specs;
      var len, panicked := DynSlice.DeleteWhileRanging(backing, name);
      if panicked {
        return Panicked(SliceBounds);
      }
      var matched := exists x :: x in specs && x.name == name;
      if matched {
        children := children - {name};
      }
      specs := backing[..len];
      status := Looping;
    }

    /** The initialization of `runMonitorLoop`. */
    method FreshStart() returns (status: Status)
      requires W() == VOID && children == map[] && tolerance.State() == Tolerance.Fresh(cfg.policy)
      modifies this
      ensures S(status) == Start(o, cfg, old(specs))
    {
      var startErr;
      children, startErr := StartChildNodes();
      mapNil := startErr.Some?;
      if startErr.Some? {
        return StartAborted(startErr.value);
      }
      Notify(Event(Started, Types.Tag.Supervisor, SELF, 0, None));
      status := Looping;
    }

    /** One turn of the monitor loop, up to the restart loop. */
    method Turn() returns (status: Status)
      modifies this
      ensures S(status) == Step(o, cfg, old(S(Looping)))
    {
      status := Looping;
      var c := Wait();
      match c.turn {
        case Shutdown =>
          if done {
            var result := TerminateAll(None);
            status := Finished(result);
          }
        case Notify(id) =>
          if id < |procs| && procs[id].phase.Exiting? {
            status := HandleNotificationOf(id);
          }
        case Spawn(spec) => status := StartChildMsg(spec);
        case Stop(name) => status := TerminateChildMsg(name);
      }
    }

    /** The read that follows a failed spawn. */
    method DrainOne() returns (status: Status)
      modifies this`procs, this`tick, this`done
      ensures S(status) == Step(o, cfg, old(S(Draining)))
    {
      var c := Wait();
      var offer := Offering(procs, c.drain);
      if offer.Some? {
        var p := procs[offer.value];
        procs := procs[offer.value := p.(phase := Gone(ViaNotify, p.phase.err), misread := p.misread || p.started)];
        return Looping;
      }
      status := Draining;
    }

    /** The restart loop that a turn may enter, and the shutdown when it gives up. */
    method FinishTurn(st: Status, fuel: nat) returns (status: Status, k: nat)
      requires st.Restarting?
      modifies this, tolerance
      ensures S(status) == RestartLoop.Steps(o, cfg, old(S(st)), k)
    {
      var source := st.source;
      var end;
      end, k := ExecRestartLoop(source, st.prev, fuel);
      match end {
        case BackToLoop => status := Looping;
        case Again(prev) => status := Restarting(source, prev);
        case GivingUp(reason) =>
          var result := TerminateAll(Some(reason));
          status := Finished(result);
      }
    }

    /** One turn with the restart loop it may enter, of at most `fuel` iterations. */
    method Round(st: Status, fuel: nat) returns (status: Status, k: nat)
      requires st.Looping? || st.Draining?
      modifies this, tolerance
      ensures S(status) == RestartLoop.Steps(o, cfg, old(S(st)), k)
    {
      ghost var s0 := S(st);
      RestartLoop.FirstStep(o, cfg, s0);
      if st.Looping? {
        status := Turn();
      } else {
        status := DrainOne();
      }
      k := 1;
      if status.Restarting? {
        ghost var s1 := S(status);
        status, k := FinishTurn(status, fuel);
        StepsFirst(o, cfg, s0, s1, k);
        k := 1 + k;
      }
    }

    /** A round, as part of a run. */
    method RoundOf(ghost run: nat -> Sys, ghost n: nat, st: Status, fuel: nat) returns (status: Status, k: nat)
      requires Stepping.IsRun(Stepper(o, cfg), run) && S(st) == run(n) && (st.Looping? || st.Draining?)
      modifies this, tolerance
      ensures S(status) == run(n + k)
    {
      status, k := Round(st, fuel);
      Stepping.IterateOnRun(Stepper(o, cfg), run, n, k);
    }

    /** The loop of `runMonitorLoop`, for at most `turns` turns and `fuel` iterations of each restart loop. */
    method MonitorLoop(ghost run: nat -> Sys, st: Status, turns: nat, fuel: nat) returns (status: Status, n: nat)
      requires Stepping.IsRun(Stepper(o, cfg), run) && S(st) == run(0)
      modifies this, tolerance
      ensures S(status) == run(n)
    {
      status, n := st, 0;
      var t := 0;
      while t < turns && (status.Looping? || status.Draining?)
        invariant S(status) == run(n)
      {
        var k;
        status, k := RoundOf(run, n, status, fuel);
        n, t := n + k, t + 1;
      }
    }

    /** `runMonitorLoop` from a fresh supervisor.  Whatever it does is a run of the state machine. */
    method RunMonitorLoop(turns: nat, fuel: nat) returns (status: Status, n: nat)
      requires W() == VOID && children == map[] && tolerance.State() == Tolerance.Fresh(cfg.policy)
      modifies this, tolerance
      ensures S(status) == Run(o, cfg, old(specs), n)
    {
      ghost var specs0 := specs;
      ghost var run := States(o, cfg, specs0);
      StatesAreRun(o, cfg, specs0);
      status := FreshStart();
      status, n := MonitorLoop(run, status, turns, fuel);
    }
  }
}
