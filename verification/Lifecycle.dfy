/** One child incarnation: the goroutine that `DoStart` spawns, the caller of `DoStart`, and the
    supervisor that later learns of the exit, as interleaved atomic steps
    (internal/c/start.go, internal/c/core.go). */
module Lifecycle {
  import opened Types

  /** Where the child goroutine is. */
  datatype Code =
    | InUser                               // inside the user's start function
    | Announcing(start: Option<Error>)     // in the notify-start callback, offering on startCh
    | PanicAnnouncing(panic: Error)        // in the recovery handler, offering on startCh
    | Sending(err: Option<Error>)          // offering on supNotifyChan and on terminateCh
    | Sent                                 // the notification was taken; deferred calls pending
    | Closed                               // terminateCh is closed

  /** Where the caller of `DoStart` is; `startedCh` is closed exactly once it has returned. */
  datatype Caller = Awaiting | Got(got: Option<Error>) | Returned(result: Option<Error>)

  /** Is the supervisor inside `Terminate`? */
  datatype Stopper = Free | Waiting

  datatype Delivery = Delivery(route: Route, err: Option<Error>)

  /** What one call of `Terminate` returned, and whether it was the timer that ended it. */
  datatype Answer = Answer(first: bool, err: Option<Error>, timer: bool)

  datatype State = State(code: Code, caller: Caller, stopper: Stopper, cancelled: bool,
                         deliveries: seq<Delivery>, answers: seq<Answer>)

  const SPAWNED := State(InUser, Awaiting, Free, false, [], [])

  datatype Action =
    | Announce(start: Option<Error>)   // user code calls the notify-start callback
    | Return(err: Option<Error>)       // user code returns
    | Panic(panic: Error)              // user code panics and the panic is captured
    | HandOver                         // startCh: callback or handler meets the caller
    | SkipAnnounce                     // startedCh already closed: callback or handler moves on
    | CallerReturns
    | NotifyRecv                       // the monitor loop receives on supNotifyChan
    | TerminateCall                    // cancel, then start waiting
    | TerminateRecv                    // the wait receives the notification
    | TerminateClosed                  // the wait finds terminateCh closed
    | TerminateTimer                   // the shutdown timer fires first
    | Close                            // the deferred close of terminateCh runs

  function Step(sh: Shutdown, s: State, a: Action): Option<State> {
    match a
    case Announce(e) => if s.code.InUser? then Some(s.(code := Announcing(e))) else None
    case Return(e) => if s.code.InUser? then Some(s.(code := Sending(e))) else None
    case Panic(e) => if s.code.InUser? then Some(s.(code := PanicAnnouncing(e))) else None
    case HandOver =>
      if !s.caller.Awaiting? then None
      else if s.code.Announcing? then Some(s.(code := InUser, caller := Got(s.code.start)))
      else if s.code.PanicAnnouncing? then
        Some(s.(code := Sending(Some(s.code.panic)), caller := Got(Some(s.code.panic))))
      else None
    case SkipAnnounce =>
      if !s.caller.Returned? then None
      else if s.code.Announcing? then Some(s.(code := InUser))
      else if s.code.PanicAnnouncing? then Some(s.(code := Sending(Some(s.code.panic))))
      else None
    case CallerReturns => if s.caller.Got? then Some(s.(caller := Returned(s.caller.got))) else None
    case NotifyRecv =>
      if s.code.Sending? && s.caller.Returned? && s.stopper.Free? then
        Some(s.(code := Sent, deliveries := s.deliveries + [Delivery(ViaNotify, s.code.err)]))
      else None
    case TerminateCall =>
      if s.caller == Returned(None) && s.stopper.Free? then Some(s.(stopper := Waiting, cancelled := true)) else None
    case TerminateRecv =>
      if s.code.Sending? && s.stopper.Waiting? then
        Some(s.(code := Sent, stopper := Free,
                deliveries := s.deliveries + [Delivery(ViaTerminate, s.code.err)],
                answers := s.answers + [Answer(true, s.code.err, false)]))
      else None
    case TerminateClosed =>
      if s.code.Closed? && s.stopper.Waiting? then
        Some(s.(stopper := Free, answers := s.answers + [Answer(false, None, false)]))
      else None
    case TerminateTimer =>
      if sh.Timed? && s.stopper.Waiting? then
        Some(s.(stopper := Free, answers := s.answers + [Answer(true, Some(ShutdownTimeout), true)]))
      else None
    case Close => if s.code.Sent? then Some(s.(code := Closed)) else None
  }

  /** The state after an interleaving, if every one of its actions was enabled in turn. */
  function Run(sh: Shutdown, s: State, acts: seq<Action>): Option<State> {
    if acts == [] then Some(s)
    else
      match Run(sh, s, acts[..|acts| - 1])
      case None => None
      case Some(s') => Step(sh, s', acts[|acts| - 1])
  }

  // ----- Exactly one delivery -----------------------------------------------------------------

  function Timers(answers: seq<Answer>): nat {
    if answers == [] then 0
    else Timers(answers[..|answers| - 1]) + if answers[|answers| - 1].timer then 1 else 0
  }

  function Firsts(answers: seq<Answer>): nat {
    if answers == [] then 0
    else Firsts(answers[..|answers| - 1]) + if answers[|answers| - 1].first then 1 else 0
  }

  predicate Over(s: State) { s.code.Sent? || s.code.Closed? }

  /** Exit events that the supervisor emits for this incarnation: one for a notification received
      in its loop, one for every `Terminate` that answered true (internal/s/monitor.go:343-368). */
  function ExitEvents(s: State): nat {
    (if |s.deliveries| == 1 && s.deliveries[0].route.ViaNotify? then 1 else 0) + Firsts(s.answers)
  }

  predicate AnswerFits(a: Answer, s: State) {
    && (!a.first ==> s.code.Closed? && a.err == None)
    && (a.first && !a.timer ==> s.deliveries == [Delivery(ViaTerminate, a.err)])
    && (a.timer ==> a == Answer(true, Some(ShutdownTimeout), true))
  }

  ghost predicate Inv(s: State) {
    && |s.deliveries| == (if Over(s) then 1 else 0)
    && Firsts(s.answers)
       == Timers(s.answers) + (if |s.deliveries| == 1 && s.deliveries[0].route.ViaTerminate? then 1 else 0)
    && (forall i :: 0 <= i < |s.answers| ==> AnswerFits(s.answers[i], s))
    && (s.deliveries != [] ==> s.caller.Returned?)
    && (s.stopper.Waiting? || s.answers != [] ==> s.caller == Returned(None) && s.cancelled)
  }

  lemma StepKeepsInv(sh: Shutdown, s: State, a: Action)
    requires Inv(s) && Step(sh, s, a).Some?
    ensures Inv(Step(sh, s, a).value)
  {
    if a.TerminateRecv? || a.TerminateClosed? || a.TerminateTimer? { AnswerKeepsInv(sh, s, a); }
  }

  lemma AnswerKeepsInv(sh: Shutdown, s: State, a: Action)
    requires Inv(s) && Step(sh, s, a).Some?
    requires a.TerminateRecv? || a.TerminateClosed? || a.TerminateTimer?
    ensures Inv(Step(sh, s, a).value)
  {
    var s' := Step(sh, s, a).value;
    var last := s'.answers[|s.answers|];
    assert s'.answers == s.answers + [last];
    CountsSnoc(s.answers, last);
    forall i | 0 <= i < |s'.answers| ensures AnswerFits(s'.answers[i], s') {
      if i < |s.answers| { assert AnswerFits(s.answers[i], s); }
    }
  }

  lemma {:induction false} CountsSnoc(answers: seq<Answer>, a: Answer)
    ensures Timers(answers + [a]) == Timers(answers) + if a.timer then 1 else 0
    ensures Firsts(answers + [a]) == Firsts(answers) + if a.first then 1 else 0
  {
    assert (answers + [a])[..|answers|] == answers;
  }

  lemma {:induction false} RunKeepsInv(sh: Shutdown, acts: seq<Action>)
    requires Run(sh, SPAWNED, acts).Some?
    ensures Inv(Run(sh, SPAWNED, acts).value)
  {
    if acts != [] {
      RunKeepsInv(sh, acts[..|acts| - 1]);
      StepKeepsInv(sh, Run(sh, SPAWNED, acts[..|acts| - 1]).value, acts[|acts| - 1]);
    }
  }

  /** In every interleaving the exit notification is taken at most once, on one channel only, and
      it has been taken exactly when the goroutine is past its send.  The supervisor emits one exit
      event for it, plus one for every shutdown timer that fired. */
  lemma {:induction false} ExactlyOneDelivery(sh: Shutdown, acts: seq<Action>)
    requires Run(sh, SPAWNED, acts).Some?
    ensures var s := Run(sh, SPAWNED, acts).value;
            && |s.deliveries| == (if Over(s) then 1 else 0)
            && ExitEvents(s) == |s.deliveries| + Timers(s.answers)
  {
    RunKeepsInv(sh, acts);
  }

  lemma {:induction false} NoTimerNoCount(acts: seq<Action>, s: State)
    requires Run(Indefinitely, SPAWNED, acts) == Some(s)
    ensures Timers(s.answers) == 0
  {
    if acts != [] {
      var before := Run(Indefinitely, SPAWNED, acts[..|acts| - 1]).value;
      NoTimerNoCount(acts[..|acts| - 1], before);
      if |s.answers| > |before.answers| {
        assert s.answers[..|before.answers|] == before.answers;
      }
    }
  }

  /** A child with no shutdown timer yields exactly one exit event once it is over, and none
      before. */
  lemma {:induction false} OneExitEventWithoutTimer(acts: seq<Action>)
    requires Run(Indefinitely, SPAWNED, acts).Some?
    ensures var s := Run(Indefinitely, SPAWNED, acts).value; ExitEvents(s) == if Over(s) then 1 else 0
  {
    ExactlyOneDelivery(Indefinitely, acts);
    NoTimerNoCount(acts, Run(Indefinitely, SPAWNED, acts).value);
  }

  lemma {:induction false} RunSnoc(sh: Shutdown, s: State, acts: seq<Action>, a: Action)
    ensures Run(sh, s, acts + [a]) == match Run(sh, s, acts) case None => None case Some(s') => Step(sh, s', a)
  {
    assert (acts + [a])[..|acts|] == acts;
  }

  ghost predicate QuietSince(s: State, t: State) {
    && Over(t) && t.deliveries == s.deliveries && s.answers <= t.answers
    && forall i :: |s.answers| <= i < |t.answers| ==> t.answers[i].timer || t.answers[i] == Answer(false, None, false)
  }

  lemma QuietStep(sh: Shutdown, s: State, t: State, a: Action)
    requires QuietSince(s, t) && Step(sh, t, a).Some?
    ensures QuietSince(s, Step(sh, t, a).value)
  {}

  /** Once the notification has been delivered, whichever way, every later `Terminate` that is not
      cut short by its timer answers (false, nil), and nothing is delivered again. */
  lemma {:induction false} LaterTerminateIsNotFirst(sh: Shutdown, acts: seq<Action>, later: seq<Action>)
    requires Run(sh, SPAWNED, acts).Some? && Over(Run(sh, SPAWNED, acts).value)
    requires Run(sh, SPAWNED, acts + later).Some?
    ensures QuietSince(Run(sh, SPAWNED, acts).value, Run(sh, SPAWNED, acts + later).value)
    decreases |later|
  {
    if later == [] {
      assert acts + later == acts;
    } else {
      var n := |later| - 1;
      assert (acts + later)[..|acts + later| - 1] == acts + later[..n];
      LaterTerminateIsNotFirst(sh, acts, later[..n]);
      QuietStep(sh, Run(sh, SPAWNED, acts).value, Run(sh, SPAWNED, acts + later[..n]).value, later[n]);
    }
  }

  /** Since `s`, in which a call of `Terminate` waits: it still does and nothing has been delivered, or it has been
      answered, and the answer was true. */
  ghost predicate WaitedSince(s: State, t: State) {
    && |s.answers| <= |t.answers|
    && if |s.answers| == |t.answers| then t.stopper.Waiting? && !Over(t) else t.answers[|s.answers|].first
  }

  /** A call of `Terminate` that begins before the exit is delivered takes it, unless its timer fires: the supervisor
      cannot read the exit elsewhere in the meantime, so that the answer is a first one. */
  lemma {:induction false} EarlyTerminateIsFirst(sh: Shutdown, acts: seq<Action>, later: seq<Action>)
    requires Run(sh, SPAWNED, acts).Some? && Run(sh, SPAWNED, acts + later).Some?
    requires var s := Run(sh, SPAWNED, acts).value; s.stopper.Waiting? && !Over(s)
    ensures WaitedSince(Run(sh, SPAWNED, acts).value, Run(sh, SPAWNED, acts + later).value)
    decreases |later|
  {
    if later == [] {
      assert acts + later == acts;
    } else {
      var n := |later| - 1;
      assert (acts + later)[..|acts + later| - 1] == acts + later[..n];
      EarlyTerminateIsFirst(sh, acts, later[..n]);
      WaitGoesOn(sh, Run(sh, SPAWNED, acts).value, Run(sh, SPAWNED, acts + later[..n]).value, later[n]);
    }
  }

  lemma WaitGoesOn(sh: Shutdown, s: State, t: State, a: Action)
    requires WaitedSince(s, t) && Step(sh, t, a).Some?
    ensures WaitedSince(s, Step(sh, t, a).value)
  {}

  // ----- What an incarnation reports --------------------------------------------------------------

  /** How user code ended: by the error that it returned, or by a panic, whose value is the error. */
  function EndedWith(acts: seq<Action>): Option<Option<Error>> {
    if acts == [] then None
    else
      match acts[|acts| - 1]
      case Return(e) => Some(e)
      case Panic(p) => Some(Some(p))
      case _ => EndedWith(acts[..|acts| - 1])
  }

  /** The first thing that `DoStart` can learn: the first start announced, or a panic before it. */
  function FirstReport(acts: seq<Action>): Option<Option<Error>> {
    if acts == [] then None
    else
      var earlier := FirstReport(acts[..|acts| - 1]);
      match acts[|acts| - 1]
      case Announce(e) => if earlier.Some? then earlier else Some(e)
      case Panic(p) => if earlier.Some? then earlier else Some(Some(p))
      case _ => earlier
  }

  function Calls(acts: seq<Action>): nat {
    if acts == [] then 0 else Calls(acts[..|acts| - 1]) + if acts[|acts| - 1].TerminateCall? then 1 else 0
  }

  /** The error that the goroutine offers, or has delivered, is the one with which user code ended. */
  ghost predicate SendsItsEnd(acts: seq<Action>, s: State) {
    match s.code
    case InUser => EndedWith(acts) == None
    case Announcing(_) => EndedWith(acts) == None
    case PanicAnnouncing(p) => EndedWith(acts) == Some(Some(p))
    case Sending(e) => EndedWith(acts) == Some(e)
    case _ => |s.deliveries| == 1 && EndedWith(acts) == Some(s.deliveries[0].err)
  }

  ghost predicate ReportsItsStart(acts: seq<Action>, s: State) {
    match s.caller
    case Awaiting => FirstReport(acts) == (match s.code
                                           case Announcing(e) => Some(e)
                                           case PanicAnnouncing(p) => Some(Some(p))
                                           case _ => None)
    case Got(e) => FirstReport(acts) == Some(e)
    case Returned(e) => FirstReport(acts) == Some(e)
  }

  ghost predicate AnswersItsCalls(acts: seq<Action>, s: State) {
    && (s.cancelled <==> Calls(acts) > 0)
    && |s.answers| + (if s.stopper.Waiting? then 1 else 0) == Calls(acts)
  }

  lemma {:induction false} ReportsKept(sh: Shutdown, acts: seq<Action>, s: State)
    requires Run(sh, SPAWNED, acts) == Some(s)
    ensures SendsItsEnd(acts, s) && ReportsItsStart(acts, s) && AnswersItsCalls(acts, s)
  {
    if acts != [] {
      var n := |acts| - 1;
      var before := Run(sh, SPAWNED, acts[..n]).value;
      ReportsKept(sh, acts[..n], before);
      RunKeepsInv(sh, acts[..n]);
      EndKept(sh, acts[..n], before, acts[n], acts);
      StartReportKept(sh, acts[..n], before, acts[n], acts);
      CallsKept(sh, acts[..n], before, acts[n], acts);
    }
  }

  lemma EndKept(sh: Shutdown, acts: seq<Action>, s: State, a: Action, more: seq<Action>)
    requires Inv(s) && SendsItsEnd(acts, s) && Step(sh, s, a).Some?
    requires more != [] && more[..|more| - 1] == acts && more[|more| - 1] == a
    ensures SendsItsEnd(more, Step(sh, s, a).value)
  {}

  lemma StartReportKept(sh: Shutdown, acts: seq<Action>, s: State, a: Action, more: seq<Action>)
    requires Inv(s) && ReportsItsStart(acts, s) && Step(sh, s, a).Some?
    requires more != [] && more[..|more| - 1] == acts && more[|more| - 1] == a
    ensures ReportsItsStart(more, Step(sh, s, a).value)
  {}

  lemma CallsKept(sh: Shutdown, acts: seq<Action>, s: State, a: Action, more: seq<Action>)
    requires AnswersItsCalls(acts, s) && Step(sh, s, a).Some?
    requires more != [] && more[..|more| - 1] == acts && more[|more| - 1] == a
    ensures AnswersItsCalls(more, Step(sh, s, a).value)
  {}

  /** In every interleaving the one error delivered, by whichever channel, is the error that user code returned, or the
      value of its panic; and it is the error of every first answer that no timer ended.  Nothing is delivered before
      user code has ended. */
  lemma {:induction false} DeliversItsEnd(sh: Shutdown, acts: seq<Action>)
    requires Run(sh, SPAWNED, acts).Some?
    ensures var s := Run(sh, SPAWNED, acts).value;
            && SendsItsEnd(acts, s)
            && (forall d :: d in s.deliveries ==> EndedWith(acts) == Some(d.err))
            && (forall a :: a in s.answers && a.first && !a.timer ==> EndedWith(acts) == Some(a.err))
  {
    RunKeepsInv(sh, acts);
    ReportsKept(sh, acts, Run(sh, SPAWNED, acts).value);
  }

  /** In every interleaving what `DoStart` returns is the first start that user code announced, or the panic if that
      came first; later announcements are ignored. */
  lemma {:induction false} StartReturnsFirstReport(sh: Shutdown, acts: seq<Action>)
    requires Run(sh, SPAWNED, acts).Some? && Run(sh, SPAWNED, acts).value.caller.Returned?
    ensures FirstReport(acts) == Some(Run(sh, SPAWNED, acts).value.caller.result)
  {
    ReportsKept(sh, acts, Run(sh, SPAWNED, acts).value);
  }

  /** Every call of `Terminate` cancels the context and is answered once. */
  lemma {:induction false} CallsAreAnswered(sh: Shutdown, acts: seq<Action>)
    requires Run(sh, SPAWNED, acts).Some?
    ensures AnswersItsCalls(acts, Run(sh, SPAWNED, acts).value)
  {
    ReportsKept(sh, acts, Run(sh, SPAWNED, acts).value);
  }

  // ----- Progress -------------------------------------------------------------------------------

  /** While `Terminate` waits, it can finish now, or the goroutine can move towards its end by itself,
      or the goroutine is in user code, which has been told to stop. */
  lemma {:induction false} TerminateIsNeverStuck(sh: Shutdown, acts: seq<Action>)
    requires Run(sh, SPAWNED, acts).Some? && Run(sh, SPAWNED, acts).value.stopper.Waiting?
    ensures var s := Run(sh, SPAWNED, acts).value;
            || Step(sh, s, TerminateRecv).Some?
            || Step(sh, s, TerminateClosed).Some?
            || Step(sh, s, Close).Some?
            || Step(sh, s, SkipAnnounce).Some?
            || (s.code.InUser? && s.cancelled)
    ensures sh.Timed? ==> Step(sh, Run(sh, SPAWNED, acts).value, TerminateTimer).Some?
  {
    RunKeepsInv(sh, acts);
  }

  /** What is left of a stop once user code obeys it by returning `e`. */
  function WindingUp(code: Code, e: Option<Error>): seq<Action> {
    match code
    case InUser => [Return(e), TerminateRecv]
    case Announcing(_) => [SkipAnnounce, Return(e), TerminateRecv]
    case PanicAnnouncing(_) => [SkipAnnounce, TerminateRecv]
    case Sending(_) => [TerminateRecv]
    case Sent => [Close, TerminateClosed]
    case Closed => [TerminateClosed]
  }

  /** The same function of a list of actions, from its front. */
  function Then(sh: Shutdown, s: State, acts: seq<Action>): Option<State>
    decreases |acts|
  {
    if acts == [] then Some(s)
    else match Step(sh, s, acts[0]) case None => None case Some(s') => Then(sh, s', acts[1..])
  }

  lemma {:induction false} RunsOn(sh: Shutdown, acts: seq<Action>, more: seq<Action>)
    requires Run(sh, SPAWNED, acts).Some? && Then(sh, Run(sh, SPAWNED, acts).value, more).Some?
    ensures Run(sh, SPAWNED, acts + more) == Then(sh, Run(sh, SPAWNED, acts).value, more)
    decreases |more|
  {
    if more == [] {
      assert acts + more == acts;
    } else {
      RunSnoc(sh, SPAWNED, acts, more[0]);
      RunsOn(sh, acts + [more[0]], more[1..]);
      assert acts + more == acts + [more[0]] + more[1..];
    }
  }

  /** What answers a stop once user code obeys it. */
  function Obeyed(code: Code, e: Option<Error>): Answer {
    match code
    case Sending(sent) => Answer(true, sent, false)
    case PanicAnnouncing(p) => Answer(true, Some(p), false)
    case InUser => Answer(true, e, false)
    case Announcing(_) => Answer(true, e, false)
    case _ => Answer(false, None, false)
  }

  lemma {:induction false} WindsUp(sh: Shutdown, s: State, e: Option<Error>)
    requires Inv(s) && s.stopper.Waiting?
    ensures var s' := Then(sh, s, WindingUp(s.code, e));
            && s'.Some? && s'.value.stopper.Free? && Over(s'.value)
            && s'.value.answers == s.answers + [Obeyed(s.code, e)]
  {
    match s.code {
      case InUser => ThenTwo(sh, s, Return(e), TerminateRecv);
      case Announcing(_) =>
        var s1 := s.(code := InUser);
        assert Then(sh, s, [SkipAnnounce, Return(e), TerminateRecv]) == Then(sh, s1, [Return(e), TerminateRecv]) by {
          assert [SkipAnnounce, Return(e), TerminateRecv][1..] == [Return(e), TerminateRecv];
        }
        ThenTwo(sh, s1, Return(e), TerminateRecv);
      case PanicAnnouncing(_) => ThenTwo(sh, s, SkipAnnounce, TerminateRecv);
      case Sending(_) => ThenOne(sh, s, TerminateRecv);
      case Sent => ThenTwo(sh, s, Close, TerminateClosed);
      case Closed => ThenOne(sh, s, TerminateClosed);
    }
  }

  lemma {:induction false} ThenOne(sh: Shutdown, s: State, a: Action)
    ensures Then(sh, s, [a]) == Step(sh, s, a)
  {
    if Step(sh, s, a).Some? { assert Then(sh, Step(sh, s, a).value, [a][1..]) == Step(sh, s, a); }
  }

  lemma {:induction false} ThenTwo(sh: Shutdown, s: State, a: Action, b: Action)
    ensures Then(sh, s, [a, b]) == match Step(sh, s, a) case None => None case Some(s') => Step(sh, s', b)
  {
    assert [a, b][1..] == [b];
    if Step(sh, s, a).Some? { ThenOne(sh, Step(sh, s, a).value, b); }
  }

  /** The call, if none waits, and what is left of it then. */
  function Stopping(s: State, e: Option<Error>): seq<Action> {
    (if s.stopper.Free? then [TerminateCall] else []) + WindingUp(s.code, e)
  }

  /** Wherever an incarnation that could start is, `Terminate` can be called, again or for the first time, and the child
      alone, by returning, ends the wait without a timer: with (false, nil) if the exit had been delivered, and
      otherwise with true and the error with which user code has ended. */
  lemma {:induction false} StopCompletes(sh: Shutdown, acts: seq<Action>, e: Option<Error>)
    requires Run(sh, SPAWNED, acts).Some? && Run(sh, SPAWNED, acts).value.caller == Returned(None)
    ensures var s := Run(sh, SPAWNED, acts).value;
            var s' := Run(sh, SPAWNED, acts + Stopping(s, e));
            && s'.Some? && s'.value.stopper.Free? && Over(s'.value)
            && s'.value.answers == s.answers + [if Over(s) then Answer(false, None, false)
                                                else Answer(true, if EndedWith(acts).Some? then EndedWith(acts).value
                                                                  else e, false)]
  {
    var s := Run(sh, SPAWNED, acts).value;
    RunKeepsInv(sh, acts);
    ReportsKept(sh, acts, s);
    var winding := WindingUp(s.code, e);
    if s.stopper.Free? {
      RunSnoc(sh, SPAWNED, acts, TerminateCall);
      var called := acts + [TerminateCall];
      RunKeepsInv(sh, called);
      WindsUp(sh, Run(sh, SPAWNED, called).value, e);
      RunsOn(sh, called, winding);
      assert acts + Stopping(s, e) == called + winding;
    } else {
      WindsUp(sh, s, e);
      RunsOn(sh, acts, winding);
      assert Stopping(s, e) == winding;
    }
  }

  /** Once `DoStart` has returned user code can report its start again without any effect. */
  lemma {:induction false} RepeatedStartIsIgnored(sh: Shutdown, acts: seq<Action>, e: Option<Error>)
    requires Run(sh, SPAWNED, acts).Some?
    requires var s := Run(sh, SPAWNED, acts).value; s.code.InUser? && s.caller.Returned?
    ensures Run(sh, SPAWNED, acts + [Announce(e), SkipAnnounce]) == Run(sh, SPAWNED, acts)
  {
    ThenTwo(sh, Run(sh, SPAWNED, acts).value, Announce(e), SkipAnnounce);
    RunsOn(sh, acts, [Announce(e), SkipAnnounce]);
  }

  /** And whenever it panics then, that panic alone brings its value to the supervisor, on the channel that the
      supervisor reads. */
  lemma {:induction false} PanicIsDelivered(sh: Shutdown, acts: seq<Action>, p: Error)
    requires Run(sh, SPAWNED, acts).Some?
    requires var s := Run(sh, SPAWNED, acts).value; s.code.InUser? && s.caller.Returned?
    ensures var s := Run(sh, SPAWNED, acts).value;
            var s' := Run(sh, SPAWNED, acts + [Panic(p), SkipAnnounce,
                                               if s.stopper.Free? then NotifyRecv else TerminateRecv]);
            && s'.Some? && Over(s'.value) && s'.value.stopper.Free?
            && s'.value.deliveries == [Delivery(if s.stopper.Free? then ViaNotify else ViaTerminate, Some(p))]
  {
    var s := Run(sh, SPAWNED, acts).value;
    RunKeepsInv(sh, acts);
    var s1 := s.(code := PanicAnnouncing(p));
    var last := if s.stopper.Free? then NotifyRecv else TerminateRecv;
    var three := [Panic(p), SkipAnnounce, last];
    assert three[1..] == [SkipAnnounce, last];
    ThenTwo(sh, s1, SkipAnnounce, last);
    RunsOn(sh, acts, three);
  }

  ghost predicate Enabled(sh: Shutdown, s: State) { exists a :: Step(sh, s, a).Some? }

  /** Exactly when the whole protocol has come to a halt before the goroutine ended: user code
      returned without ever calling the notify-start callback, so the goroutine offers an exit
      notification that nobody reads while `DoStart` waits for a start that never comes. */
  lemma {:induction false} HangsExactly(sh: Shutdown, acts: seq<Action>)
    requires Run(sh, SPAWNED, acts).Some?
    ensures var s := Run(sh, SPAWNED, acts).value;
            !Enabled(sh, s) && !s.code.Closed? <==> s.caller.Awaiting? && s.code.Sending?
  {
    RunKeepsInv(sh, acts);
    var s := Run(sh, SPAWNED, acts).value;
    if !(s.caller.Awaiting? && s.code.Sending?) && !s.code.Closed? {
      match s.code {
        case InUser => assert Step(sh, s, Return(None)).Some?;
        case Sent => assert Step(sh, s, Close).Some?;
        case Announcing(_) =>
          assert Step(sh, s, HandOver).Some? || Step(sh, s, SkipAnnounce).Some? || Step(sh, s, CallerReturns).Some?;
        case PanicAnnouncing(_) =>
          assert Step(sh, s, HandOver).Some? || Step(sh, s, SkipAnnounce).Some? || Step(sh, s, CallerReturns).Some?;
        case Sending(_) =>
          assert Step(sh, s, CallerReturns).Some? || Step(sh, s, NotifyRecv).Some? || Step(sh, s, TerminateRecv).Some?;
      }
    }
  }

  /** That halt is reachable: a start function that just returns an error. */
  lemma {:induction false} SilentStartHangs(sh: Shutdown, e: Option<Error>)
    ensures Run(sh, SPAWNED, [Return(e)]).Some? && !Enabled(sh, Run(sh, SPAWNED, [Return(e)]).value)
  {
    assert [Return(e)][..0] == [];
    var s := SPAWNED.(code := Sending(e));
    assert Run(sh, SPAWNED, []) == Some(SPAWNED);
    assert Run(sh, SPAWNED, [Return(e)]) == Some(s);
    HangsExactly(sh, [Return(e)]);
  }

  /** The reported first result true does not imply a nil error: a child that ends with an error
      during `Terminate` answers (true, error), contrary to the comment on `Terminate`. */
  lemma FirstTerminationMayFail(e: Error)
    ensures exists acts :: Run(Timed, SPAWNED, acts).Some?
                           && Run(Timed, SPAWNED, acts).value.answers == [Answer(true, Some(e), false)]
  {
    var script := [Announce(None), HandOver, CallerReturns, TerminateCall, Return(Some(e)), TerminateRecv];
    RunSnoc(Timed, SPAWNED, [], script[0]);
    RunSnoc(Timed, SPAWNED, [] + [script[0]], script[1]);
    RunSnoc(Timed, SPAWNED, [] + [script[0]] + [script[1]], script[2]);
    RunSnoc(Timed, SPAWNED, [] + [script[0]] + [script[1]] + [script[2]], script[3]);
    RunSnoc(Timed, SPAWNED, [] + [script[0]] + [script[1]] + [script[2]] + [script[3]], script[4]);
    RunSnoc(Timed, SPAWNED, [] + [script[0]] + [script[1]] + [script[2]] + [script[3]] + [script[4]], script[5]);
  }

  /** Exactly when a first termination reports no error: the timer did not end it, and the child delivered its exit to
      it without an error. */
  lemma {:induction false} FirstTerminationFailsExactly(sh: Shutdown, acts: seq<Action>, i: nat)
    requires Run(sh, SPAWNED, acts).Some? && i < |Run(sh, SPAWNED, acts).value.answers|
    requires Run(sh, SPAWNED, acts).value.answers[i].first
    ensures var s := Run(sh, SPAWNED, acts).value;
            s.answers[i].err == None <==> !s.answers[i].timer && s.deliveries == [Delivery(ViaTerminate, None)]
  {
    RunKeepsInv(sh, acts);
  }

  /** A goroutine whose start failed is out of reach of `Terminate`: only a receive on supNotifyChan
      can ever release it. */
  lemma {:induction false} FailedStartNeedsTheMonitor(sh: Shutdown, acts: seq<Action>)
    requires Run(sh, SPAWNED, acts).Some?
    requires var s := Run(sh, SPAWNED, acts).value; Over(s) && s.caller != Returned(None)
    ensures var s := Run(sh, SPAWNED, acts).value;
            |s.deliveries| == 1 && s.deliveries[0].route.ViaNotify? && s.answers == []
  {
    RunKeepsInv(sh, acts);
  }

  // ----- The supervisor's view --------------------------------------------------------------------

  /** What the supervision engine keeps of an incarnation. */
  function View(s: State): Phase
    requires Over(s) ==> |s.deliveries| == 1
  {
    match s.code
    case Sending(e) => Exiting(e)
    case Sent => Gone(s.deliveries[0].route, s.deliveries[0].err)
    case Closed => Gone(s.deliveries[0].route, s.deliveries[0].err)
    case _ => Running
  }

  /** The phases of the engine are a faithful summary: every step of the protocol leaves the phase
      alone, or is user code ending with the error on offer from then on, or is one channel taking
      that error; and a phase that is gone never changes. */
  lemma StepsRefinePhases(sh: Shutdown, s: State, a: Action)
    requires Inv(s) && Step(sh, s, a).Some?
    ensures Inv(Step(sh, s, a).value)
    ensures var v, v' := View(s), View(Step(sh, s, a).value);
            || v' == v
            || (v.Running? && a.Return? && v' == Exiting(a.err))
            || (v.Running? && s.code.PanicAnnouncing? && v' == Exiting(Some(s.code.panic)))
            || (v.Exiting? && a.NotifyRecv? && v' == Gone(ViaNotify, v.err))
            || (v.Exiting? && a.TerminateRecv? && v' == Gone(ViaTerminate, v.err))
    ensures var s' := Step(sh, s, a).value;
            s'.answers != s.answers && !s'.answers[|s.answers|].timer ==>
              && View(s').Gone?
              && s'.answers[|s.answers|].first == (View(s).Exiting? && a.TerminateRecv?)
  {
    StepKeepsInv(sh, s, a);
    AnswersTakeExits(sh, s, a);
  }

  lemma AnswersTakeExits(sh: Shutdown, s: State, a: Action)
    requires Inv(s) && Step(sh, s, a).Some?
    ensures var s' := Step(sh, s, a).value;
            s'.answers != s.answers && !s'.answers[|s.answers|].timer ==>
              && Over(s') && s'.answers[|s.answers|].first == (s.code.Sending? && a.TerminateRecv?)
  {}
}
