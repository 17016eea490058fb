/** What single operations come to, by what the goroutines, the timers and the context do
    (internal/c/start.go, internal/s/monitor.go). */
module Outcomes {
  import opened Types
  import opened Engine
  import opened Ledger

  // ----- One tick ---------------------------------------------------------------------------------------------

  /** The error of the first of `exits` that is about goroutine `id`: a goroutine ends once. */
  function FirstExit(exits: seq<Exit>, id: nat): Option<Option<Error>> {
    if exits == [] then None else if exits[0].id == id then Some(exits[0].err) else FirstExit(exits[1..], id)
  }

  /** The phase of goroutine `id` once the others have moved. */
  function PhaseAt(o: Oracle, w: World, id: nat): Phase
    requires id < |w.procs|
  {
    match w.procs[id].phase
    case Running => (match FirstExit(o(w.tick).exits, id) case Some(e) => Exiting(e) case None => Running)
    case ended => ended
  }

  lemma {:induction false} SettleTakesFirst(procs: seq<Proc>, exits: seq<Exit>, id: nat)
    requires id < |procs|
    ensures |Settle(procs, exits)| == |procs|
    ensures Settle(procs, exits)[id]
            == if procs[id].phase.Running? && FirstExit(exits, id).Some?
               then procs[id].(phase := Exiting(FirstExit(exits, id).value)) else procs[id]
    decreases |exits|
  {
    if exits != [] {
      var x := exits[0];
      SettleTakesFirst(if x.id < |procs| && procs[x.id].phase.Running?
                       then procs[x.id := procs[x.id].(phase := Exiting(x.err))] else procs,
                       exits[1..], id);
    }
  }

  /** In a tick goroutines only end, by the first exit that is about them, and the context is done from the tick on in
      which it is cancelled. */
  lemma TickOutcome(o: Oracle, w: World)
    ensures var w' := Interfere(o, w);
            && |w'.procs| == |w.procs| && w'.trace == w.trace && w'.tick == w.tick + 1
            && (w'.done <==> w.done || o(w.tick).cancel)
            && forall id :: 0 <= id < |w.procs| ==> w'.procs[id] == w.procs[id].(phase := PhaseAt(o, w, id))
  {
    SettleDrifts(w.procs, o(w.tick).exits);
    var w' := Interfere(o, w);
    forall id | 0 <= id < |w.procs| ensures w'.procs[id] == w.procs[id].(phase := PhaseAt(o, w, id)) {
      SettleTakesFirst(w.procs, o(w.tick).exits, id);
    }
  }

  // ----- Stopping ---------------------------------------------------------------------------------------------

  predicate TimerWins(o: Oracle, w: World, ch: Child) { ch.spec.shutdown.Timed? && o(w.tick).timer }

  /** The error with which goroutine `id` ends if it is told to stop: the one that it already offers, or the one with
      which it ends by itself just before, or that of its own reaction. */
  function ExitError(o: Oracle, w: World, id: nat): Option<Error>
    requires id < |w.procs| && Undelivered(w.procs[id])
  {
    match PhaseAt(o, w, id) case Exiting(e) => e case _ => o(w.tick).exitErr
  }

  /** Stopping a child whose exit nobody has taken.  If the timer fires first the child stays as it is and the error is
      the timeout; otherwise the call takes the exit, and its error is the one with which the goroutine ended. */
  lemma StopOutcome(o: Oracle, w: World, ch: Child)
    requires ch.id < |w.procs| && Undelivered(w.procs[ch.id])
    ensures var a, p := Terminate(o, w, ch), w.procs[ch.id];
            && a.first && |a.w.procs| == |w.procs|
            && (TimerWins(o, w, ch) ==>
                  a.err == Some(ShutdownTimeout)
                  && a.w.procs[ch.id] == p.(phase := PhaseAt(o, w, ch.id), timedOut := true))
            && (!TimerWins(o, w, ch) ==>
                  a.err == ExitError(o, w, ch.id) && a.w.procs[ch.id] == p.(phase := Gone(ViaTerminate, a.err)))
            && forall id :: 0 <= id < |w.procs| && id != ch.id ==>
                 a.w.procs[id] == w.procs[id].(phase := PhaseAt(o, w, id))
  {
    TickOutcome(o, w);
  }

  /** Stopping a child whose exit has been taken: it answers (false, nil), or with the timeout if the timer fires
      first. */
  lemma StopAgainOutcome(o: Oracle, w: World, ch: Child)
    requires ch.id < |w.procs| && !Undelivered(w.procs[ch.id])
    ensures var a := Terminate(o, w, ch);
            && (a.first <==> TimerWins(o, w, ch))
            && a.err == (if TimerWins(o, w, ch) then Some(ShutdownTimeout) else None)
            && |a.w.procs| == |w.procs| && a.w.procs[ch.id].phase == w.procs[ch.id].phase
  {
    TickOutcome(o, w);
  }

  /** The error that a stop between `before` and `after` has reported of goroutine `id`. */
  function StopError(before: seq<Proc>, after: seq<Proc>, id: nat): Option<Error>
    requires id < |before| <= |after|
  {
    if Undelivered(before[id]) && after[id].phase.Gone? then after[id].phase.err else Some(ShutdownTimeout)
  }

  /** One stop as the supervisor reports it. */
  lemma ReportedStop(o: Oracle, w: World, ch: Child)
    requires ch.id < |w.procs|
    ensures var a, h := Terminate(o, w, ch), TerminateChildNode(o, w, ch);
            && h.w.procs == a.w.procs && |h.w.procs| == |w.procs| && h.err == (if a.first then a.err else None)
            && (a.first <==> Undelivered(w.procs[ch.id]) || TimerWins(o, w, ch))
            && (a.first ==> h.err == StopError(w.procs, h.w.procs, ch.id))
            && (Undelivered(w.procs[ch.id]) && h.w.procs[ch.id].phase.Gone? ==>
                  h.w.procs[ch.id].phase.route.ViaTerminate?)
  {
    if Undelivered(w.procs[ch.id]) {
      StopOutcome(o, w, ch);
    } else {
      StopAgainOutcome(o, w, ch);
    }
  }

  // ----- Starting ---------------------------------------------------------------------------------------------

  /** A start spawns one goroutine more, whose start fails with the error that its user code reports, if any. */
  lemma StartOutcome(o: Oracle, w: World, spec: ChildSpec)
    ensures var s := DoStart(o, w, spec);
            && s.err == o(w.tick).startErr && s.child == Child(|w.procs|, spec)
            && |s.w.procs| == |w.procs| + 1 && s.w.trace == w.trace
            && s.w.procs[|w.procs|] == Proc(spec, Running, s.err.None?, false, false)
            && forall id :: 0 <= id < |w.procs| ==> s.w.procs[id] == w.procs[id].(phase := PhaseAt(o, w, id))
  {
    TickOutcome(o, w);
  }
}
