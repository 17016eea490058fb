/** The supervision engine as a state machine (internal/s/monitor.go, one_for_one.go,
    one_for_all.go, dyn_supervisor.go).

    Everything the supervisor does not decide is read from an oracle: before each operation on a
    child, and before each turn of the loop, any goroutines may end by themselves and the context
    may be cancelled; the oracle also settles start results, exit errors, timers, the clock and
    which ready case a `select` takes.  A statement about every oracle is a statement about
    every interleaving. */
module Engine {
  import opened Types
  import opened Ordering
  import Tolerance
  import Backoff
  import DynSlice
  import Stepping

  /** A goroutine ever spawned, at the index that is its incarnation number.  `started` tells
      whether its `DoStart` succeeded; `timedOut` and `misread` record the two kinds of accident:
      a shutdown timer fired on it, or its notification was taken for somebody else's. */
  datatype Proc = Proc(spec: ChildSpec, phase: Phase, started: bool, timedOut: bool, misread: bool)

  datatype Child = Child(id: nat, spec: ChildSpec)

  /** Goroutine `id` ends with `err` and starts offering its notification. */
  datatype Exit = Exit(id: nat, err: Option<Error>)

  datatype Turn =
    | Shutdown               // the context is done
    | Notify(id: nat)        // a notification from goroutine `id`
    | Spawn(spec: ChildSpec) // control message: start a child
    | Stop(name: string)     // control message: terminate a child

  datatype Choice = Choice(
    exits: seq<Exit>,            // goroutines that end before the operation
    cancel: bool,                // is the context cancelled before the operation?
    turn: Turn,                  // which case the monitor loop takes
    startErr: Option<Error>,     // result of a start
    exitErr: Option<Error>,      // how a running child ends when told to stop
    timer: bool,                 // does the shutdown timer fire first?
    giveWay: bool,               // during a backoff wait, is a done context seen first?
    drain: nat,                  // whose notification a failed spawn drains, if that is on offer
    cleanupErr: Option<Error>,
    clock: Tolerance.Clock)

  type Oracle = nat -> Choice

  datatype World = World(procs: seq<Proc>, tick: nat, done: bool, trace: seq<Event>)

  datatype Config = Config(order: Order, strategy: Strategy, policy: Tolerance.Policy, backoff: Backoff.Backoff)

  // ----- Goroutines ---------------------------------------------------------------------------

  function Undelivered(p: Proc): bool { !p.phase.Gone? }

  function Settle(procs: seq<Proc>, exits: seq<Exit>): seq<Proc>
    decreases |exits|
  {
    if exits == [] then procs
    else
      var x := exits[0];
      Settle(if x.id < |procs| && procs[x.id].phase.Running?
             then procs[x.id := procs[x.id].(phase := Exiting(x.err))] else procs,
             exits[1..])
  }

  function Interfere(o: Oracle, w: World): World {
    w.(procs := Settle(w.procs, o(w.tick).exits), done := w.done || o(w.tick).cancel, tick := w.tick + 1)
  }

  function Emit(w: World, ev: Event): World { w.(trace := w.trace + [ev]) }

  function SetPhase(w: World, id: nat, phase: Phase): World
    requires id < |w.procs|
  {
    w.(procs := w.procs[id := w.procs[id].(phase := phase)])
  }

  datatype Spawned = Spawned(w: World, child: Child, err: Option<Error>)

  /** `DoStart`: a failed start still leaves a goroutine behind, but hands out no child. */
  function DoStart(o: Oracle, w: World, spec: ChildSpec): Spawned {
    var err := o(w.tick).startErr;
    var w1 := Interfere(o, w);
    Spawned(w1.(procs := w1.procs + [Proc(spec, Running, err.None?, false, false)]), Child(|w1.procs|, spec), err)
  }

  datatype Answer = Answer(w: World, first: bool, err: Option<Error>)

  /** `Child.Terminate`: cancel, then wait for the notification, the close or the timer. */
  function Terminate(o: Oracle, w: World, ch: Child): Answer {
    var c := o(w.tick);
    var w1 := Interfere(o, w);
    if ch.id >= |w1.procs| then Answer(w1, false, None)
    else
      var p := w1.procs[ch.id];
      if ch.spec.shutdown.Timed? && c.timer then
        Answer(w1.(procs := w1.procs[ch.id := p.(timedOut := true)]), true, Some(ShutdownTimeout))
      else
        match p.phase
        case Gone(_, _) => Answer(w1, false, None)
        case Exiting(e) => Answer(SetPhase(w1, ch.id, Gone(ViaTerminate, e)), true, e)
        case Running => Answer(SetPhase(w1, ch.id, Gone(ViaTerminate, c.exitErr)), true, c.exitErr)
  }

  // ----- Starting and stopping children ---------------------------------------------------------

  function StartChildNode(o: Oracle, w: World, spec: ChildSpec): Spawned {
    var s := DoStart(o, w, spec);
    if s.err.Some? then s.(w := Emit(s.w, Event(StartFailed, spec.tag, spec.name, s.child.id, s.err)))
    else if spec.tag.Worker? then s.(w := Emit(s.w, Event(Started, Worker, spec.name, s.child.id, None)))
    else s
  }

  datatype Halt = Halt(w: World, err: Option<Error>)

  function TerminateChildNode(o: Oracle, w: World, ch: Child): Halt {
    var a := Terminate(o, w, ch);
    if !a.first then Halt(a.w, None)
    else if a.err.Some? then Halt(Emit(a.w, Event(Failed, ch.spec.tag, ch.spec.name, ch.id, a.err)), a.err)
    else Halt(Emit(a.w, Event(Terminated, ch.spec.tag, ch.spec.name, ch.id, None)), None)
  }

  datatype Halts = Halts(w: World, errs: map<string, Error>)

  /** The loop of `terminateChildNodes` over the specs still to visit. */
  function TerminateChildNodes(o: Oracle, w: World, todo: seq<ChildSpec>, children: map<string, Child>,
                               skip: Option<string>, errs: map<string, Error>): Halts
    decreases |todo|
  {
    if todo == [] then Halts(w, errs)
    else
      var name := todo[0].name;
      if Some(name) == skip || name !in children then TerminateChildNodes(o, w, todo[1..], children, skip, errs)
      else
        var h := TerminateChildNode(o, w, children[name]);
        TerminateChildNodes(o, h.w, todo[1..], children, skip,
                            if h.err.Some? then errs[name := h.err.value] else errs)
  }

  datatype Launch = Launch(w: World, children: map<string, Child>, err: Option<Error>)

  /** The loop of `startChildNodes` over the specs still to start, with the rollback. */
  function StartChildNodes(o: Oracle, w: World, order: Order, specs: seq<ChildSpec>,
                           todo: seq<ChildSpec>, acc: map<string, Child>): Launch
    decreases |todo|
  {
    if todo == [] then Launch(w, acc, None)
    else
      var s := StartChildNode(o, w, todo[0]);
      if s.err.Some? then
        var h := TerminateChildNodes(o, s.w, SortTermination(order, specs), acc, None, map[]);
        Launch(h.w, map[], Some(StartError(todo[0].name, s.err.value, h.errs)))
      else StartChildNodes(o, s.w, order, specs, todo[1..], acc[todo[0].name := s.child])
  }

  // ----- The supervisor ---------------------------------------------------------------------------

  datatype GaveUp = GaveUp(child: string, count: uint32, window: int64, source: Option<Error>, last: Error)

  datatype TerminationError = TerminationError(nodes: map<string, Error>, cleanup: Option<Error>)

  datatype SupError =
    | TerminationFailed(termination: TerminationError)
    | RestartFailed(reason: GaveUp, also: Option<TerminationError>)

  /** How the supervisor goroutine can panic.  The last case keeps the child that had just been started. */
  datatype Crash = UnknownName(name: string) | SliceBounds | NilMapWrite(child: Child)

  datatype Status =
    | Looping                                            // at the head of the monitor loop
    | Restarting(source: Child, prev: Option<Error>)     // at the head of the restart loop
    | Draining                                           // reading one notification after a failed spawn
    | StartAborted(startErr: Error)
    | Finished(result: Option<SupError>)
    | Panicked(crash: Crash)

  /** `mapNil` tells that the children map is nil: it then reads as empty and cannot be written. */
  datatype Sys = Sys(w: World, specs: seq<ChildSpec>, children: map<string, Child>, mapNil: bool,
                     mgr: Tolerance.Manager<Error>, status: Status)

  const SELF := ""

  function Result(restartErr: Option<GaveUp>, errs: map<string, Error>, cleanupErr: Option<Error>): Option<SupError> {
    var terminateErr := if |errs| > 0 || cleanupErr.Some? then Some(TerminationError(errs, cleanupErr)) else None;
    if restartErr.Some? && terminateErr.Some? then Some(RestartFailed(restartErr.value, terminateErr))
    else if restartErr.Some? then Some(RestartFailed(restartErr.value, None))
    else if terminateErr.Some? then Some(TerminationFailed(terminateErr.value))
    else None
  }

  function TerminateSupervisor(o: Oracle, cfg: Config, s: Sys, restartErr: Option<GaveUp>): Sys {
    var h := TerminateChildNodes(o, s.w, SortTermination(cfg.order, s.specs), s.children, None, map[]);
    var cleanupErr := o(h.w.tick).cleanupErr;
    var w1 := Emit(Interfere(o, h.w), Event(Cleanup, Supervisor, SELF, 0, cleanupErr));
    s.(w := w1, status := Finished(Result(restartErr, h.errs, cleanupErr)))
  }

  /** `handleChildNodeError`, up to the restart loop. */
  function HandleError(s: Sys, source: Child, err: Error): Sys {
    var s1 := s.(w := Emit(s.w, Event(Failed, source.spec.tag, source.spec.name, source.id, Some(err))));
    match source.spec.restart
    case Permanent => s1.(status := Restarting(source, Some(err)))
    case Transient => s1.(status := Restarting(source, Some(err)))
    case Temporary => s1.(children := s1.children - {source.spec.name}, status := Looping)
  }

  /** `handleChildNodeCompletion`, up to the restart loop. */
  function HandleCompletion(s: Sys, source: Child): Sys {
    var s1 := if source.spec.tag.Worker?
              then s.(w := Emit(s.w, Event(Completed, Worker, source.spec.name, source.id, None))) else s;
    match source.spec.restart
    case Permanent => s1.(status := Restarting(source, None))
    case Transient => s1.(children := s1.children - {source.spec.name}, status := Looping)
    case Temporary => s1.(children := s1.children - {source.spec.name}, status := Looping)
  }

  /** The loop takes the notification that goroutine `id` offers; it only learns its name. */
  function Receive(w: World, id: nat, misread: bool): World
    requires id < |w.procs| && w.procs[id].phase.Exiting?
  {
    var p := w.procs[id];
    w.(procs := w.procs[id := p.(phase := Gone(ViaNotify, p.phase.err), misread := p.misread || misread)])
  }

  function HandleNotification(s: Sys, id: nat): Sys
    requires id < |s.w.procs| && s.w.procs[id].phase.Exiting?
  {
    var p := s.w.procs[id];
    var s1 := s.(w := Receive(s.w, id, !p.started));
    if p.spec.name !in s.children then s1.(status := Panicked(UnknownName(p.spec.name)))
    else
      var source := s.children[p.spec.name];
      if p.phase.err.Some? then HandleError(s1, source, p.phase.err.value) else HandleCompletion(s1, source)
  }

  /** The children map is written here as well; `NilMap.NeverNilUnderOneForOne` shows that it is never nil. */
  function OneForOneRestart(o: Oracle, s: Sys, source: Child): Sys {
    var r := DoStart(o, s.w, source.spec);
    if r.err.Some? then s.(w := r.w, status := Restarting(source, r.err))
    else
      var w1 := if source.spec.tag.Worker?
                then Emit(r.w, Event(Started, Worker, source.spec.name, r.child.id, None)) else r.w;
      s.(w := w1, children := s.children[source.spec.name := r.child], status := Looping)
  }

  function OneForAllRestart(o: Oracle, cfg: Config, s: Sys, source: Child): Sys {
    var h := TerminateChildNodes(o, s.w, SortTermination(cfg.order, s.specs), s.children, Some(source.spec.name),
                                 map[]);
    var l := StartChildNodes(o, h.w, cfg.order, s.specs, SortStart(cfg.order, s.specs), map[]);
    s.(w := l.w, children := l.children, mapNil := l.err.Some?,
       status := if l.err.Some? then Restarting(source, l.err) else Looping)
  }

  function ExecRestart(o: Oracle, cfg: Config, s: Sys, source: Child): Sys {
    if cfg.strategy.OneForOne? then OneForOneRestart(o, s, source) else OneForAllRestart(o, cfg, s, source)
  }

  /** The backoff wait, which a done context may interrupt, and the restart. */
  function BackoffAndRestart(o: Oracle, cfg: Config, s: Sys, source: Child): Sys {
    if Backoff.Duration(cfg.backoff, s.mgr.count) > 0 then
      var s1 := s.(w := Interfere(o, s.w));
      if s1.w.done && o(s.w.tick).giveWay then s1.(status := Looping) else ExecRestart(o, cfg, s1, source)
    else ExecRestart(o, cfg, s, source)
  }

  /** One iteration of `execRestartLoop`. */
  function RestartIteration(o: Oracle, cfg: Config, s: Sys, source: Child, prev: Option<Error>): Sys {
    if prev.None? then BackoffAndRestart(o, cfg, s, source)
    else
      var a := Tolerance.Admit(s.mgr, prev.value, o(s.w.tick).clock);
      var s1 := s.(w := Interfere(o, s.w), mgr := a.mgr);
      if a.ok then BackoffAndRestart(o, cfg, s1, source)
      else TerminateSupervisor(o, cfg, s1,
                               Some(GaveUp(source.spec.name, cfg.policy.max, cfg.policy.window, a.mgr.source,
                                           prev.value)))
  }

  /** `startChildMsg.processMsg`.  A child that has started is written into the children map. */
  function SpawnChild(o: Oracle, s: Sys, spec: ChildSpec): Sys {
    var r := StartChildNode(o, s.w, spec);
    if r.err.Some? then s.(w := r.w, status := Draining)
    else if s.mapNil then s.(w := r.w, status := Panicked(NilMapWrite(r.child)))
    else s.(w := r.w, specs := s.specs + [spec], children := s.children[spec.name := r.child])
  }

  /** `terminateChildMsg.processMsg`. */
  function StopChild(o: Oracle, s: Sys, name: string): Sys {
    if name !in s.children then s
    else
      var h := TerminateChildNode(o, s.w, s.children[name]);
      match DynSlice.Delete(s.specs, name)
      case None => s.(w := h.w, status := Panicked(SliceBounds))
      case Some(specs) =>
        s.(w := h.w, specs := specs,
           children := if exists x :: x in s.specs && x.name == name then s.children - {name} else s.children)
  }

  function FirstOffering(procs: seq<Proc>): (r: Option<nat>)
    ensures r.Some? ==> r.value < |procs| && procs[r.value].phase.Exiting?
    ensures r.None? ==> forall id :: 0 <= id < |procs| ==> !procs[id].phase.Exiting?
  {
    if procs == [] then None
    else
      var n := |procs| - 1;
      var r := FirstOffering(procs[..n]);
      if r.Some? then r else if procs[n].phase.Exiting? then Some(n) else None
  }

  /** Whose notification a receive takes: any goroutine that offers one, at the oracle's choice. */
  function Offering(procs: seq<Proc>, choice: nat): (r: Option<nat>)
    ensures r.Some? ==> r.value < |procs| && procs[r.value].phase.Exiting?
    ensures r.None? ==> forall id :: 0 <= id < |procs| ==> !procs[id].phase.Exiting?
  {
    if choice < |procs| && procs[choice].phase.Exiting? then Some(choice) else FirstOffering(procs)
  }

  /** The read that follows a failed spawn: it waits until anybody offers. */
  function Drain(o: Oracle, s: Sys): Sys {
    var w1 := Interfere(o, s.w);
    match Offering(w1.procs, o(s.w.tick).drain)
    case None => s.(w := w1)
    case Some(id) => s.(w := Receive(w1, id, w1.procs[id].started), status := Looping)
  }

  /** One turn of the monitor loop; a case that is not ready leaves the loop waiting. */
  function LoopTurn(o: Oracle, cfg: Config, s: Sys): Sys {
    var s1 := s.(w := Interfere(o, s.w));
    match o(s.w.tick).turn
    case Shutdown => if s1.w.done then TerminateSupervisor(o, cfg, s1, None) else s1
    case Notify(id) => if id < |s1.w.procs| && s1.w.procs[id].phase.Exiting? then HandleNotification(s1, id) else s1
    case Spawn(spec) => SpawnChild(o, s1, spec)
    case Stop(name) => StopChild(o, s1, name)
  }

  function Step(o: Oracle, cfg: Config, s: Sys): Sys {
    match s.status
    case Looping => LoopTurn(o, cfg, s)
    case Restarting(source, prev) => RestartIteration(o, cfg, s, source, prev)
    case Draining => Drain(o, s)
    case _ => s
  }

  const VOID := World([], 0, false, [])

  function Start(o: Oracle, cfg: Config, specs: seq<ChildSpec>): Sys {
    var l := StartChildNodes(o, VOID, cfg.order, specs, SortStart(cfg.order, specs), map[]);
    var mgr := Tolerance.Fresh(cfg.policy);
    if l.err.Some? then Sys(l.w, specs, l.children, true, mgr, StartAborted(l.err.value))
    else Sys(Emit(l.w, Event(Started, Supervisor, SELF, 0, None)), specs, l.children, false, mgr, Looping)
  }

  /** The supervisor after `n` steps. */
  function Run(o: Oracle, cfg: Config, specs: seq<ChildSpec>, n: nat): Sys {
    if n == 0 then Start(o, cfg, specs) else Step(o, cfg, Run(o, cfg, specs, n - 1))
  }

  function Stepper(o: Oracle, cfg: Config): Sys -> Sys { (s: Sys) => Step(o, cfg, s) }

  /** The states of a run, by their number. */
  function States(o: Oracle, cfg: Config, specs: seq<ChildSpec>): nat -> Sys { (n: nat) => Run(o, cfg, specs, n) }

  lemma {:induction false} StatesAreRun(o: Oracle, cfg: Config, specs: seq<ChildSpec>)
    ensures Stepping.IsRun(Stepper(o, cfg), States(o, cfg, specs))
  {}
}
