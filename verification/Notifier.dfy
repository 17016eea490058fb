/** The reliable notifier's fan-out (internal/n/reliable_notifier.go): one listener offers every event to
    bounded channels, one per notifier, and gives up on a notifier when a timer fires first. */
module Notifier {
  import opened Types

  type Message = Event
  type Name = string

  /** What became of one offered event. */
  datatype Fate = Accepted | TimedOut | Skipped

  datatype Worker = Waiting | Calling | Down

  /** A notifier's channel and worker.  `taken` lists what the callback was called with, `fates` what became
      of each event read from the entrypoint. */
  datatype Channel = Channel(buffer: seq<Message>, worker: Worker, taken: seq<Message>, fates: seq<Fate>)

  datatype Listener = Idle | Offering(event: Message, todo: seq<Name>) | Broken

  /** `entrypoint` holds the buffered events and those of blocked senders, in order; `read` lists the events
      that the listener took from it. */
  datatype State = State(entrypoint: seq<Message>, read: seq<Message>, listener: Listener, channels: map<Name, Channel>)

  datatype Step =
    | Emit(event: Message)
    | Read(order: seq<Name>)        // the listener takes an event, and ranges over the map in some order
    | Offer                         // the first channel in turn takes the event
    | GiveUp                        // its timer fires first
    | CallbackPanics                // its timer fires first, and the callback for that panics
    | FinishRound
    | ListenerRestarts
    | Take(name: Name)              // a notifier's worker takes an event and calls the notifier
    | Return(name: Name)
    | Panic(name: Name)
    | Restart(name: Name)
    | Stop(name: Name)              // the worker's context is done, or its subtree goes down

  // ----- Steps -------------------------------------------------------------------------------------------

  /** Ranging over a map: every key once, in any order. */
  predicate IsOrder(order: seq<Name>, names: set<Name>) {
    && (forall n :: n in order ==> n in names) && (forall n :: n in names ==> n in order)
    && (forall i, j :: 0 <= i < j < |order| ==> order[i] != order[j])
  }

  /** A send succeeds when there is room, or hands over to a worker that waits on an empty channel. */
  predicate CanSend(c: Channel, cap: nat) { |c.buffer| < cap || (c.buffer == [] && c.worker == Waiting) }

  function Send(c: Channel, ev: Message, cap: nat): Channel {
    var fates := c.fates + [Accepted];
    if |c.buffer| < cap then c.(buffer := c.buffer + [ev], fates := fates)
    else c.(taken := c.taken + [ev], worker := Calling, fates := fates)
  }

  function Miss(c: Channel, fate: Fate): Channel { c.(fates := c.fates + [fate]) }

  predicate Enabled(s: State, step: Step, cap: nat) {
    match step
    case Emit(_) => true
    case Read(order) => s.listener == Idle && s.entrypoint != [] && IsOrder(order, s.channels.Keys)
    case Offer =>
      s.listener.Offering? && s.listener.todo != [] && s.listener.todo[0] in s.channels
        && CanSend(s.channels[s.listener.todo[0]], cap)
    case GiveUp => s.listener.Offering? && s.listener.todo != [] && s.listener.todo[0] in s.channels
    case CallbackPanics => s.listener.Offering? && s.listener.todo != [] && s.listener.todo[0] in s.channels
    case FinishRound => s.listener.Offering? && s.listener.todo == []
    case ListenerRestarts => s.listener == Broken
    case Take(n) => n in s.channels && s.channels[n].worker == Waiting && s.channels[n].buffer != []
    case Return(n) => n in s.channels && s.channels[n].worker == Calling
    case Panic(n) => n in s.channels && s.channels[n].worker == Calling
    case Restart(n) => n in s.channels && s.channels[n].worker == Down
    case Stop(n) => n in s.channels && s.channels[n].worker == Waiting
  }

  function Skip(channels: map<Name, Channel>, todo: seq<Name>): map<Name, Channel> {
    map n | n in channels :: if n in todo then Miss(channels[n], Skipped) else channels[n]
  }

  function Apply(s: State, step: Step, cap: nat): State
    requires Enabled(s, step, cap)
  {
    match step
    case Emit(ev) => s.(entrypoint := s.entrypoint + [ev])
    case Read(order) =>
      s.(entrypoint := s.entrypoint[1..], read := s.read + [s.entrypoint[0]],
         listener := Offering(s.entrypoint[0], order))
    case Offer =>
      var n := s.listener.todo[0];
      s.(listener := s.listener.(todo := s.listener.todo[1..]),
         channels := s.channels[n := Send(s.channels[n], s.listener.event, cap)])
    case GiveUp =>
      var n := s.listener.todo[0];
      s.(listener := s.listener.(todo := s.listener.todo[1..]),
         channels := s.channels[n := Miss(s.channels[n], TimedOut)])
    case CallbackPanics =>
      var n := s.listener.todo[0];
      s.(listener := Broken, channels := Skip(s.channels[n := Miss(s.channels[n], TimedOut)], s.listener.todo[1..]))
    case FinishRound => s.(listener := Idle)
    case ListenerRestarts => s.(listener := Idle)
    case Take(n) =>
      var c := s.channels[n];
      s.(channels := s.channels[n := c.(buffer := c.buffer[1..], worker := Calling, taken := c.taken + [c.buffer[0]])])
    case Return(n) => s.(channels := s.channels[n := s.channels[n].(worker := Waiting)])
    case Panic(n) => s.(channels := s.channels[n := s.channels[n].(worker := Down)])
    case Restart(n) => s.(channels := s.channels[n := s.channels[n].(worker := Waiting)])
    case Stop(n) => s.(channels := s.channels[n := s.channels[n].(worker := Down)])
  }

  function Fresh(names: set<Name>): State {
    State([], [], Idle, map n | n in names :: Channel([], Down, [], []))
  }

  /** A run: `trace` from fresh channels, whose workers have not started yet, to `s`. */
  ghost predicate Reaches(names: set<Name>, cap: nat, trace: seq<Step>, s: State)
    decreases |trace|
  {
    if trace == [] then s == Fresh(names)
    else
      var k := |trace| - 1;
      exists before ::
        && Reaches(names, cap, trace[..k], before)
        && Enabled(before, trace[k], cap) && s == Apply(before, trace[k], cap)
  }

  // ----- Conservation ------------------------------------------------------------------------------------

  /** The events that were accepted. */
  function Pick(events: seq<Message>, fates: seq<Fate>): (r: seq<Message>)
    requires |events| == |fates|
    ensures |r| == Count(fates, Accepted)
  {
    if fates == [] then []
    else
      var k := |fates| - 1;
      Pick(events[..k], fates[..k]) + (if fates[k] == Accepted then [events[k]] else [])
  }

  function Count(fates: seq<Fate>, fate: Fate): nat {
    if fates == [] then 0
    else Count(fates[..|fates| - 1], fate) + if fates[|fates| - 1] == fate then 1 else 0
  }

  lemma {:induction false} PickMore(events: seq<Message>, fates: seq<Fate>, ev: Message, fate: Fate)
    requires |events| == |fates|
    ensures Pick(events + [ev], fates + [fate]) == Pick(events, fates) + if fate == Accepted then [ev] else []
    ensures forall f :: Count(fates + [fate], f) == Count(fates, f) + if f == fate then 1 else 0
  {
    assert (events + [ev])[..|events|] == events && (fates + [fate])[..|fates|] == fates;
  }

  /** How many events have been offered to `n`, or will have been once its turn has come. */
  predicate OfferedAll(s: State, n: Name) { !(s.listener.Offering? && n in s.listener.todo) }

  /** One notifier: what it took, followed by its buffer, is what was accepted; the buffer is within bounds. */
  ghost predicate Kept(c: Channel, events: seq<Message>, cap: nat) {
    |events| == |c.fates| && c.taken + c.buffer == Pick(events, c.fates) && |c.buffer| <= cap
  }

  ghost predicate Conserves(s: State, n: Name, cap: nat)
    requires n in s.channels
  {
    if OfferedAll(s, n) then Kept(s.channels[n], s.read, cap)
    else s.read != [] && Kept(s.channels[n], s.read[..|s.read| - 1], cap)
  }

  ghost predicate Turn(s: State) {
    s.listener.Offering? ==>
      && s.read != [] && s.read[|s.read| - 1] == s.listener.event
      && (forall n :: n in s.listener.todo ==> n in s.channels)
      && (forall i, j :: 0 <= i < j < |s.listener.todo| ==> s.listener.todo[i] != s.listener.todo[j])
  }

  ghost predicate Inv(s: State, cap: nat) {
    Turn(s) && forall n :: n in s.channels ==> Conserves(s, n, cap)
  }

  lemma SendKeeps(c: Channel, events: seq<Message>, ev: Message, cap: nat)
    requires Kept(c, events, cap) && CanSend(c, cap)
    ensures Kept(Send(c, ev, cap), events + [ev], cap)
  {
    PickMore(events, c.fates, ev, Accepted);
    if |c.buffer| < cap {
      assert c.taken + (c.buffer + [ev]) == (c.taken + c.buffer) + [ev];
    } else {
      assert c.taken + [ev] + c.buffer == (c.taken + c.buffer) + [ev];
    }
  }

  lemma MissKeeps(c: Channel, events: seq<Message>, ev: Message, fate: Fate, cap: nat)
    requires Kept(c, events, cap) && fate != Accepted
    ensures Kept(Miss(c, fate), events + [ev], cap)
  {
    PickMore(events, c.fates, ev, fate);
  }

  lemma TurnTail(s: State)
    requires Turn(s) && s.listener.Offering? && s.listener.todo != []
    ensures var todo := s.listener.todo;
            && s.read == s.read[..|s.read| - 1] + [s.listener.event]
            && todo[0] !in todo[1..]
            && (forall n :: n != todo[0] ==> (n in todo[1..] <==> n in todo))
  {
    var todo := s.listener.todo;
    assert todo == [todo[0]] + todo[1..];
  }

  lemma OfferKeeps(s: State, step: Step, cap: nat)
    requires Inv(s, cap) && Enabled(s, step, cap) && (step.Offer? || step.GiveUp? || step.CallbackPanics?)
    ensures Inv(Apply(s, step, cap), cap)
  {
    TurnTail(s);
    var s', events, head := Apply(s, step, cap), s.read[..|s.read| - 1], s.listener.todo[0];
    assert Conserves(s, head, cap);
    forall n | n in s'.channels ensures Conserves(s', n, cap) {
      assert Conserves(s, n, cap);
      if n == head {
        if step.Offer? {
          SendKeeps(s.channels[n], events, s.listener.event, cap);
        } else {
          MissKeeps(s.channels[n], events, s.listener.event, TimedOut, cap);
        }
      } else if n in s.listener.todo && step.CallbackPanics? {
        MissKeeps(s.channels[n], events, s.listener.event, Skipped, cap);
      }
    }
  }

  lemma ReadKeeps(s: State, step: Step, cap: nat)
    requires Inv(s, cap) && Enabled(s, step, cap) && step.Read?
    ensures Inv(Apply(s, step, cap), cap)
  {
    var s' := Apply(s, step, cap);
    assert s'.read[..|s'.read| - 1] == s.read;
    forall n | n in s'.channels ensures Conserves(s', n, cap) {
      assert Conserves(s, n, cap);
      assert n in s'.listener.todo;
    }
  }

  /** A step that changes one channel without touching its fates, and nothing of the listener. */
  lemma ChannelKeeps(s: State, name: Name, c: Channel, cap: nat)
    requires Inv(s, cap) && name in s.channels
    requires c.fates == s.channels[name].fates && |c.buffer| <= |s.channels[name].buffer|
    requires c.taken + c.buffer == s.channels[name].taken + s.channels[name].buffer
    ensures Inv(s.(channels := s.channels[name := c]), cap)
  {
    var s' := s.(channels := s.channels[name := c]);
    forall n | n in s'.channels ensures Conserves(s', n, cap) { assert Conserves(s, n, cap); }
  }

  lemma WorkerKeeps(s: State, step: Step, cap: nat)
    requires Inv(s, cap) && Enabled(s, step, cap)
    requires OfWorker(step)
    ensures Inv(Apply(s, step, cap), cap)
  {
    var c := s.channels[step.name];
    if step.Take? { assert c.taken + [c.buffer[0]] + c.buffer[1..] == c.taken + c.buffer; }
    ChannelKeeps(s, step.name, Apply(s, step, cap).channels[step.name], cap);
  }

  lemma StepKeeps(s: State, step: Step, cap: nat)
    requires Inv(s, cap) && Enabled(s, step, cap)
    ensures Inv(Apply(s, step, cap), cap)
  {
    if step.Offer? || step.GiveUp? || step.CallbackPanics? {
      OfferKeeps(s, step, cap);
    } else if step.Read? {
      ReadKeeps(s, step, cap);
    } else if step.Emit? || step.FinishRound? || step.ListenerRestarts? {
      var s' := Apply(s, step, cap);
      forall n | n in s'.channels ensures Conserves(s', n, cap) { assert Conserves(s, n, cap); }
    } else {
      WorkerKeeps(s, step, cap);
    }
  }

  lemma {:induction false} ConservationAlways(names: set<Name>, cap: nat, trace: seq<Step>, s: State)
    requires Reaches(names, cap, trace, s)
    ensures Inv(s, cap) && s.channels.Keys == names
    decreases |trace|
  {
    if trace != [] {
      var k := |trace| - 1;
      var before :| Reaches(names, cap, trace[..k], before) && Enabled(before, trace[k], cap)
                    && s == Apply(before, trace[k], cap);
      ConservationAlways(names, cap, trace[..k], before);
      StepKeeps(before, trace[k], cap);
    }
  }

  // ----- What it means ---------------------------------------------------------------------------------

  /** The events that callers sent, in order. */
  function Emitted(trace: seq<Step>): seq<Message> {
    if trace == [] then []
    else
      var k := |trace| - 1;
      Emitted(trace[..k]) + if trace[k].Emit? then [trace[k].event] else []
  }

  lemma {:induction false} EntrypointKeepsOrder(names: set<Name>, cap: nat, trace: seq<Step>, s: State)
    requires Reaches(names, cap, trace, s)
    ensures s.read + s.entrypoint == Emitted(trace)
    decreases |trace|
  {
    if trace != [] {
      var k := |trace| - 1;
      var before :| Reaches(names, cap, trace[..k], before) && Enabled(before, trace[k], cap)
                    && s == Apply(before, trace[k], cap);
      EntrypointKeepsOrder(names, cap, trace[..k], before);
      StepKeepsOrder(before, trace[k], cap);
    }
  }

  lemma {:induction false} StepKeepsOrder(s: State, step: Step, cap: nat)
    requires Enabled(s, step, cap)
    ensures var s' := Apply(s, step, cap);
            s'.read + s'.entrypoint == s.read + s.entrypoint + if step.Emit? then [step.event] else []
  {
    if step.Read? { assert s.entrypoint == [s.entrypoint[0]] + s.entrypoint[1..]; }
  }

  /** How often the calls of notifier `n` have ended, its worker was started and went down, and the listener broke down
      and was restarted. */
  datatype Tally = Tally(ended: nat, starts: nat, falls: nat, breaks: nat, repairs: nat)

  function Tallied(t: Tally, step: Step, n: Name): Tally {
    match step
    case Return(m) => if m == n then t.(ended := t.ended + 1) else t
    case Panic(m) => if m == n then t.(ended := t.ended + 1, falls := t.falls + 1) else t
    case Stop(m) => if m == n then t.(falls := t.falls + 1) else t
    case Restart(m) => if m == n then t.(starts := t.starts + 1) else t
    case CallbackPanics => t.(breaks := t.breaks + 1)
    case ListenerRestarts => t.(repairs := t.repairs + 1)
    case _ => t
  }

  function TallyOf(trace: seq<Step>, n: Name): Tally {
    if trace == [] then Tally(0, 0, 0, 0, 0) else Tallied(TallyOf(trace[..|trace| - 1], n), trace[|trace| - 1], n)
  }

  ghost predicate Tallies(t: Tally, c: Channel, listener: Listener) {
    && |c.taken| == t.ended + (if c.worker.Calling? then 1 else 0)
    && t.starts == t.falls + (if c.worker.Down? then 0 else 1)
    && t.breaks == t.repairs + (if listener.Broken? then 1 else 0)
  }

  /** A notifier is called once for each event that it took, one call at a time: all calls but one that is running have
      ended.  Its worker is down from the start, a panic or a stop on, until it is started again, once; and so is the
      listener from a timeout callback that panics on. */
  lemma {:induction false} OneCallAtATime(names: set<Name>, cap: nat, trace: seq<Step>, s: State, n: Name)
    requires Reaches(names, cap, trace, s) && n in names
    ensures n in s.channels && Tallies(TallyOf(trace, n), s.channels[n], s.listener)
    decreases |trace|
  {
    if trace != [] {
      var k := |trace| - 1;
      var before :| Reaches(names, cap, trace[..k], before) && Enabled(before, trace[k], cap)
                    && s == Apply(before, trace[k], cap);
      OneCallAtATime(names, cap, trace[..k], before, n);
      TallyStep(TallyOf(trace[..k], n), before, trace[k], n, cap);
    }
  }

  lemma TallyStep(t: Tally, s: State, step: Step, n: Name, cap: nat)
    requires Enabled(s, step, cap) && n in s.channels && Tallies(t, s.channels[n], s.listener)
    ensures var s' := Apply(s, step, cap);
            n in s'.channels && Tallies(Tallied(t, step, n), s'.channels[n], s'.listener)
  {}

  /** Reference: `sub` is `events` at increasing positions. */
  ghost predicate InOrder(sub: seq<Message>, events: seq<Message>, at: seq<nat>) {
    && |at| == |sub|
    && (forall i :: 0 <= i < |at| ==> at[i] < |events| && events[at[i]] == sub[i])
    && (forall i, j :: 0 <= i < j < |at| ==> at[i] < at[j])
  }

  /** The positions of the accepted events. */
  function AcceptedAt(fates: seq<Fate>): seq<nat> {
    if fates == [] then []
    else
      var k := |fates| - 1;
      AcceptedAt(fates[..k]) + (if fates[k] == Accepted then [k] else [])
  }

  lemma {:induction false} AcceptedAtExactly(fates: seq<Fate>)
    ensures forall i :: i in AcceptedAt(fates) <==> 0 <= i < |fates| && fates[i] == Accepted
  {
    if fates != [] {
      var k := |fates| - 1;
      AcceptedAtExactly(fates[..k]);
      forall i ensures i in AcceptedAt(fates) <==> 0 <= i < |fates| && fates[i] == Accepted {
        assert i in AcceptedAt(fates) <==> i in AcceptedAt(fates[..k]) || (i == k && fates[k] == Accepted);
      }
    }
  }

  lemma {:induction false} PickIsInOrder(events: seq<Message>, fates: seq<Fate>)
    requires |events| == |fates|
    ensures InOrder(Pick(events, fates), events, AcceptedAt(fates))
  {
    if fates != [] {
      var k := |fates| - 1;
      PickIsInOrder(events[..k], fates[..k]);
      InOrderGrows(Pick(events[..k], fates[..k]), events, AcceptedAt(fates[..k]));
    }
  }

  lemma InOrderGrows(sub: seq<Message>, events: seq<Message>, at: seq<nat>)
    requires events != [] && InOrder(sub, events[..|events| - 1], at)
    ensures InOrder(sub, events, at)
    ensures InOrder(sub + [events[|events| - 1]], events, at + [|events| - 1])
  {
    forall i | 0 <= i < |at| ensures at[i] < |events| - 1 && events[at[i]] == sub[i] {
      assert events[..|events| - 1][at[i]] == sub[i];
    }
  }

  lemma {:induction false} CountsAddUp(fates: seq<Fate>)
    ensures Count(fates, Accepted) + Count(fates, TimedOut) + Count(fates, Skipped) == |fates|
  {
    if fates != [] { CountsAddUp(fates[..|fates| - 1]); }
  }

  /** Between two rounds, after any interleaving, timeouts, panics and restarts: every event emitted and
      read has been offered to every notifier exactly once; what a notifier took and what its channel
      holds are, in order, exactly the accepted ones; with the missed ones they add up. */
  lemma {:induction false} FanOutConserves(names: set<Name>, cap: nat, trace: seq<Step>, s: State, n: Name)
    requires Reaches(names, cap, trace, s) && n in names && !s.listener.Offering?
    ensures n in s.channels && s.read <= Emitted(trace)
    ensures var c := s.channels[n];
            && |c.fates| == |s.read| && |c.buffer| <= cap
            && InOrder(c.taken + c.buffer, s.read, AcceptedAt(c.fates))
            && (forall i :: i in AcceptedAt(c.fates) <==> 0 <= i < |s.read| && c.fates[i] == Accepted)
            && |c.taken| + |c.buffer| + Count(c.fates, TimedOut) + Count(c.fates, Skipped) == |s.read|
  {
    ConservationAlways(names, cap, trace, s);
    EntrypointKeepsOrder(names, cap, trace, s);
    assert Conserves(s, n, cap);
    var c := s.channels[n];
    PickIsInOrder(s.read, c.fates);
    AcceptedAtExactly(c.fates);
    CountsAddUp(c.fates);
  }

  /** Nothing is lost exactly when no timer fired first and the listener never broke down. */
  lemma {:induction false} LosslessExactly(names: set<Name>, cap: nat, trace: seq<Step>, s: State, n: Name)
    requires Reaches(names, cap, trace, s) && n in names && !s.listener.Offering?
    ensures n in s.channels
    ensures s.channels[n].taken + s.channels[n].buffer == s.read
            <==> forall i :: 0 <= i < |s.channels[n].fates| ==> s.channels[n].fates[i] == Accepted
  {
    ConservationAlways(names, cap, trace, s);
    assert Conserves(s, n, cap);
    AllPickedExactly(s.read, s.channels[n].fates);
  }

  lemma {:induction false} AllPickedExactly(events: seq<Message>, fates: seq<Fate>)
    requires |events| == |fates|
    ensures Pick(events, fates) == events <==> forall i :: 0 <= i < |fates| ==> fates[i] == Accepted
  {
    if fates != [] {
      var k := |fates| - 1;
      var part := Pick(events[..k], fates[..k]);
      AllPickedExactly(events[..k], fates[..k]);
      CountBound(fates[..k], Accepted);
      assert events == events[..k] + [events[k]];
      AllInPrefix(fates);
      if fates[k] == Accepted {
        AppendSame(part, events[..k], events[k]);
      } else {
        assert |Pick(events, fates)| <= k;
      }
    }
  }

  lemma AllInPrefix(fates: seq<Fate>)
    requires fates != []
    ensures var k := |fates| - 1;
            (forall i :: 0 <= i < |fates| ==> fates[i] == Accepted)
            <==> fates[k] == Accepted && forall i :: 0 <= i < |fates[..k]| ==> fates[..k][i] == Accepted
  {
    var k := |fates| - 1;
    if fates[k] == Accepted && forall i :: 0 <= i < |fates[..k]| ==> fates[..k][i] == Accepted {
      forall i | 0 <= i < |fates| ensures fates[i] == Accepted {
        if i < k { assert fates[..k][i] == fates[i]; }
      }
    }
  }

  lemma AppendSame<T>(a: seq<T>, b: seq<T>, x: T)
    ensures a + [x] == b + [x] <==> a == b
  {
    if a + [x] == b + [x] { assert a == (a + [x])[..|a|] && b == (b + [x])[..|b|]; }
  }

  lemma {:induction false} CountBound(fates: seq<Fate>, f: Fate)
    ensures Count(fates, f) <= |fates|
  {
    if fates != [] { CountBound(fates[..|fates| - 1], f); }
  }

  // ----- The listener never depends on a notifier ---------------------------------------------------------

  /** Whatever the notifiers do, even when all their channels are full and all their workers are down, the
      listener ends its round within one step per notifier left. */
  lemma {:induction false} ListenerAlwaysFinishes(s: State, cap: nat) returns (trace: seq<Step>, end: State)
    requires Turn(s) && s.listener.Offering?
    ensures |trace| == |s.listener.todo| + 1 && FollowsTo(s, cap, trace, end)
    ensures end.listener == Idle && end.read == s.read && end.entrypoint == s.entrypoint
    ensures forall step :: step in trace ==> step.GiveUp? || step.FinishRound?
    decreases |s.listener.todo|
  {
    if s.listener.todo == [] {
      trace, end := [FinishRound], Apply(s, FinishRound, cap);
      assert FollowsTo(end, cap, [], end);
    } else {
      var next := Apply(s, GiveUp, cap);
      TurnTail(s);
      var rest;
      rest, end := ListenerAlwaysFinishes(next, cap);
      trace := [GiveUp] + rest;
      assert trace[1..] == rest;
    }
  }

  ghost predicate FollowsTo(s: State, cap: nat, trace: seq<Step>, end: State)
    decreases |trace|
  {
    if trace == [] then s == end
    else Enabled(s, trace[0], cap) && FollowsTo(Apply(s, trace[0], cap), cap, trace[1..], end)
  }

  /** And a notifier that is served empties its channel by itself: it takes what the buffer holds, in that order. */
  lemma {:induction false} NotifierAlwaysDrains(s: State, n: Name, cap: nat) returns (trace: seq<Step>, end: State)
    requires n in s.channels
    ensures FollowsTo(s, cap, trace, end) && forall step :: step in trace ==> OfWorker(step) && step.name == n
    ensures n in end.channels && end.channels[n].buffer == []
    ensures end.channels[n].taken == s.channels[n].taken + s.channels[n].buffer
    decreases |s.channels[n].buffer|, s.channels[n].worker != Waiting
  {
    var c := s.channels[n];
    if c.buffer == [] {
      trace, end := [], s;
    } else {
      var step := match c.worker case Waiting => Take(n) case Calling => Return(n) case Down => Restart(n);
      var rest;
      rest, end := NotifierAlwaysDrains(Apply(s, step, cap), n, cap);
      trace := [step] + rest;
      assert trace[1..] == rest;
      assert step.Take? ==> c.taken + [c.buffer[0]] + c.buffer[1..] == c.taken + c.buffer;
    }
  }

  predicate OfWorker(step: Step) { step.Take? || step.Return? || step.Panic? || step.Restart? || step.Stop? }

  /** The same state but for the channel of `m`. */
  ghost predicate Alike(s: State, t: State, m: Name) {
    && (t.entrypoint, t.read, t.listener) == (s.entrypoint, s.read, s.listener)
    && t.channels.Keys == s.channels.Keys
    && forall n :: n in s.channels && n != m ==> t.channels[n] == s.channels[n]
  }

  /** Its worker does nothing, and the listener gives up on it every time. */
  ghost predicate DeadIn(m: Name, trace: seq<Step>, t: State) {
    && (forall step :: step in trace && OfWorker(step) ==> step.name != m)
    && m in t.channels && t.channels[m].taken == [] && t.channels[m].buffer == []
  }

  lemma {:induction false} ReachesMore(names: set<Name>, cap: nat, trace: seq<Step>, t: State, step: Step)
    requires Reaches(names, cap, trace, t) && Enabled(t, step, cap)
    ensures Reaches(names, cap, trace + [step], Apply(t, step, cap))
  {
    assert (trace + [step])[..|trace|] == trace;
  }

  /** The step that the run without `m` takes instead. */
  function Instead(s: State, step: Step, m: Name): Option<Step> {
    if OfWorker(step) && step.name == m then None
    else if step.Offer? && s.listener.Offering? && s.listener.todo != [] && s.listener.todo[0] == m then Some(GiveUp)
    else Some(step)
  }

  lemma WorkersStepAlone(s: State, step: Step, cap: nat)
    requires Enabled(s, step, cap) && OfWorker(step)
    ensures var s' := Apply(s, step, cap);
            && s' == s.(channels := s.channels[step.name := s'.channels[step.name]])
            && s'.channels[step.name].fates == s.channels[step.name].fates
            && |s'.channels[step.name].buffer| <= |s.channels[step.name].buffer|
  {}

  /** A step of one of the other notifiers. */
  lemma OthersStepAlike(s: State, t: State, step: Step, m: Name, cap: nat)
    requires Alike(s, t, m) && Enabled(s, step, cap) && OfWorker(step) && step.name != m
    ensures Enabled(t, step, cap) && Alike(Apply(s, step, cap), Apply(t, step, cap), m)
    ensures m in t.channels ==> Apply(t, step, cap).channels[m] == t.channels[m]
  {
    var n := step.name;
    assert t.channels[n] == s.channels[n];
    WorkersStepAlone(s, step, cap);
    WorkersStepAlone(t, step, cap);
  }

  lemma MyStepAlike(s: State, t: State, step: Step, m: Name, cap: nat)
    requires Alike(s, t, m) && Enabled(s, step, cap) && OfWorker(step) && step.name == m
    ensures Alike(Apply(s, step, cap), t, m)
  {
    WorkersStepAlone(s, step, cap);
  }

  lemma ListenerStepsAlike(s: State, t: State, step: Step, m: Name, cap: nat)
    requires Alike(s, t, m) && Enabled(s, step, cap) && !OfWorker(step) && m in s.channels
    requires t.channels[m].taken == [] && t.channels[m].buffer == []
    ensures var other := Instead(s, step, m).value;
            && Enabled(t, other, cap) && Alike(Apply(s, step, cap), Apply(t, other, cap), m)
            && Apply(t, other, cap).channels[m].taken == [] && Apply(t, other, cap).channels[m].buffer == []
            && !OfWorker(other)
  {
    if step.Offer? || step.GiveUp? || step.CallbackPanics? {
      var n := s.listener.todo[0];
      assert n != m ==> t.channels[n] == s.channels[n];
    }
  }

  lemma InsteadStaysAlike(s: State, t: State, step: Step, m: Name, cap: nat)
    requires Alike(s, t, m) && Enabled(s, step, cap) && m in s.channels
    requires t.channels[m].taken == [] && t.channels[m].buffer == []
    ensures match Instead(s, step, m)
            case None => Alike(Apply(s, step, cap), t, m)
            case Some(other) =>
              && Enabled(t, other, cap) && Alike(Apply(s, step, cap), Apply(t, other, cap), m)
              && Apply(t, other, cap).channels[m].taken == [] && Apply(t, other, cap).channels[m].buffer == []
              && (OfWorker(other) ==> other.name != m)
  {
    if !OfWorker(step) {
      ListenerStepsAlike(s, t, step, m, cap);
    } else if step.name == m {
      MyStepAlike(s, t, step, m, cap);
    } else {
      OthersStepAlike(s, t, step, m, cap);
    }
  }

  /** Notifiers are isolated over whole runs: whatever notifier `m` does in a run, its panics included, there is
      a run in which it is dead from the start and everything else comes out the same, that is the events
      read, the listener, and what every other notifier took, holds and missed. */
  lemma {:induction false} NotifiersAreIsolated(names: set<Name>, cap: nat, trace: seq<Step>, s: State, m: Name)
    returns (other: seq<Step>, t: State)
    requires Reaches(names, cap, trace, s) && m in names
    ensures Reaches(names, cap, other, t) && Alike(s, t, m) && DeadIn(m, other, t)
    decreases |trace|
  {
    ConservationAlways(names, cap, trace, s);
    if trace == [] {
      other, t := [], s;
    } else {
      var k := |trace| - 1;
      var before :| Reaches(names, cap, trace[..k], before) && Enabled(before, trace[k], cap)
                    && s == Apply(before, trace[k], cap);
      ConservationAlways(names, cap, trace[..k], before);
      other, t := NotifiersAreIsolated(names, cap, trace[..k], before, m);
      other, t := OneMoreWithout(names, cap, before, trace[k], other, t, m);
    }
  }

  lemma {:induction false} OneMoreWithout(names: set<Name>, cap: nat, s: State, step: Step, before: seq<Step>,
                                          t: State, m: Name)
    returns (other: seq<Step>, t': State)
    requires Reaches(names, cap, before, t) && Alike(s, t, m) && DeadIn(m, before, t) && Enabled(s, step, cap)
    ensures Reaches(names, cap, other, t') && Alike(Apply(s, step, cap), t', m) && DeadIn(m, other, t')
  {
    InsteadStaysAlike(s, t, step, m, cap);
    var next := Instead(s, step, m);
    if next.None? {
      other, t' := before, t;
    } else {
      ReachesMore(names, cap, before, t, next.value);
      other, t' := before + [next.value], Apply(t, next.value, cap);
    }
  }

  // ----- The loop itself -----------------------------------------------------------------------------------

  /** The steps of everybody but the listener. */
  predicate Elsewhere(step: Step) {
    step.Emit? || OfWorker(step)
  }

  /** What those steps leave alone. */
  ghost predicate Undisturbed(was: State, s: State) {
    && s.listener == was.listener && s.read == was.read && was.entrypoint <= s.entrypoint
    && s.channels.Keys == was.channels.Keys
    && forall n :: n in s.channels ==>
         s.channels[n].fates == was.channels[n].fates && |s.channels[n].buffer| <= |was.channels[n].buffer|
  }

  /** What can be said of a channel before its turn of a round: only the listener adds to its buffer, and in a `quiet`
      round nobody else moves at all. */
  ghost predicate StillToTurn(was: Channel, c: Channel, quiet: bool) {
    c.fates == was.fates && |c.buffer| <= |was.buffer| && (quiet ==> c == was)
  }

  /** The channel took one event more: its timer does not fire first (`late`). */
  ghost predicate Took(was: Channel, c: Channel, cap: nat, late: bool, quiet: bool) {
    && c.fates == was.fates + [Accepted] && !late
    && (quiet ==> |was.buffer| < cap || (was.buffer == [] && was.worker.Waiting?))
  }

  /** The channel missed one event: its timer fires first, or its buffer was full when the round began; and then, in a
      quiet round, no worker of it was waiting either. */
  ghost predicate Missed(was: Channel, c: Channel, cap: nat, late: bool, quiet: bool) {
    && c.fates == was.fates + [TimedOut]
    && (late || |was.buffer| >= cap)
    && (quiet && !late && was.buffer == [] ==> !was.worker.Waiting?)
  }

  /** One event more has been offered; `panics` tells that the callback for a timeout would panic. */
  ghost predicate OfferedOnce(was: Channel, c: Channel, cap: nat, late: bool, panics: bool, quiet: bool) {
    Took(was, c, cap, late, quiet) || (Missed(was, c, cap, late, quiet) && !panics)
  }

  /** The environment of a round: whose timers fire first, and whose timeout callback panics. */
  datatype Round = Round(order: seq<Name>, expired: set<Name>, panics: set<Name>)

  /** During a round that started in `was`, after `k` turns. */
  ghost predicate Halfway(was: State, s: State, r: Round, k: nat, cap: nat, quiet: bool) {
    && IsOrder(r.order, was.channels.Keys) && s.channels.Keys == was.channels.Keys
    && was.entrypoint != [] && s.read == was.read + [was.entrypoint[0]]
    && k <= |r.order| && s.listener.Offering? && s.listener.todo == r.order[k..]
    && forall i :: 0 <= i < |r.order| ==>
         var n := r.order[i];
         && n in was.channels && n in s.channels
         && if i < k then OfferedOnce(was.channels[n], s.channels[n], cap, n in r.expired, n in r.panics, quiet)
            else StillToTurn(was.channels[n], s.channels[n], quiet)
  }

  /** What a round that broke at position `broken` of its order, if it is one, did to the channel at position `i`. */
  ghost predicate Fated(was: Channel, c: Channel, i: nat, broken: nat, cap: nat, late: bool, panics: bool,
                        quiet: bool) {
    if i < broken then OfferedOnce(was, c, cap, late, panics, quiet)
    else if i == broken then Missed(was, c, cap, late, quiet) && panics
    else c.fates == was.fates + [Skipped]
  }

  /** A whole round that started in `was`. */
  ghost predicate Rounded(was: State, s: State, r: Round, broken: nat, cap: nat, quiet: bool) {
    && IsOrder(r.order, was.channels.Keys) && s.channels.Keys == was.channels.Keys
    && was.entrypoint != [] && s.read == was.read + [was.entrypoint[0]]
    && broken <= |r.order| && s.listener == (if broken < |r.order| then Broken else Idle)
    && forall i :: 0 <= i < |r.order| ==>
         var n := r.order[i];
         n in was.channels && n in s.channels
           && Fated(was.channels[n], s.channels[n], i, broken, cap, n in r.expired, n in r.panics, quiet)
  }

  lemma ElsewhereIsUndisturbing(s: State, step: Step, cap: nat)
    requires Inv(s, cap) && Enabled(s, step, cap) && Elsewhere(step)
    ensures Inv(Apply(s, step, cap), cap) && Undisturbed(s, Apply(s, step, cap))
  {
    StepKeeps(s, step, cap);
    if !step.Emit? { WorkersStepAlone(s, step, cap); }
  }

  lemma OthersKeepRound(was: State, s: State, s': State, r: Round, k: nat, cap: nat, quiet: bool)
    requires Halfway(was, s, r, k, cap, quiet) && Undisturbed(s, s') && (quiet ==> s' == s)
    ensures Halfway(was, s', r, k, cap, quiet)
  {}

  /** The channel in turn learns its fate, and nothing else changes. */
  lemma TurnAdvances(was: State, s: State, s': State, r: Round, k: nat, cap: nat, quiet: bool)
    requires Halfway(was, s, r, k, cap, quiet) && k < |r.order| && s'.read == s.read
    requires s'.listener.Offering? && s'.listener.todo == s.listener.todo[1..]
    requires s'.channels.Keys == s.channels.Keys
    requires forall n :: n in s.channels && n != r.order[k] ==> s'.channels[n] == s.channels[n]
    requires var n := r.order[k];
             && n in s.channels
             && OfferedOnce(was.channels[n], s'.channels[n], cap, n in r.expired, n in r.panics, quiet)
    ensures Halfway(was, s', r, k + 1, cap, quiet)
  {}

  lemma OfferIsATurn(s: State, step: Step, cap: nat)
    requires Enabled(s, step, cap) && (step.GiveUp? || step.Offer?)
    ensures var s', n := Apply(s, step, cap), s.listener.todo[0];
            && s'.read == s.read && s'.listener.Offering? && s'.listener.todo == s.listener.todo[1..]
            && s'.channels.Keys == s.channels.Keys
            && (forall m :: m in s.channels && m != n ==> s'.channels[m] == s.channels[m])
            && s'.channels[n].fates == s.channels[n].fates + [if step.Offer? then Accepted else TimedOut]
  {}

  lemma BreakIsASkip(s: State, cap: nat)
    requires Enabled(s, CallbackPanics, cap) && s.listener.todo[0] !in s.listener.todo[1..]
    ensures var s', todo := Apply(s, CallbackPanics, cap), s.listener.todo;
            && s'.read == s.read && s'.listener == Broken && s'.channels.Keys == s.channels.Keys
            && s'.channels[todo[0]].fates == s.channels[todo[0]].fates + [TimedOut]
            && forall n :: n in s.channels && n != todo[0] ==>
                 s'.channels[n].fates == if n in todo[1..] then s.channels[n].fates + [Skipped] else s.channels[n].fates
  {}

  lemma RoundStarts(was: State, r: Round, cap: nat, quiet: bool)
    requires Enabled(was, Read(r.order), cap)
    ensures Halfway(was, Apply(was, Read(r.order), cap), r, 0, cap, quiet)
  {}

  lemma RoundEnds(was: State, s: State, r: Round, cap: nat, quiet: bool)
    requires Halfway(was, s, r, |r.order|, cap, quiet)
    ensures Enabled(s, FinishRound, cap) && Rounded(was, Apply(s, FinishRound, cap), r, |r.order|, cap, quiet)
  {}

  /** Later names of an order are those that are still to come. */
  lemma StillToCome(order: seq<Name>, k: nat, i: nat)
    requires k < |order| && i < |order| && forall a, b :: 0 <= a < b < |order| ==> order[a] != order[b]
    ensures order[k..][1..] == order[k + 1..] && (order[i] in order[k + 1..] <==> k < i)
  {
    if k < i { assert order[k + 1..][i - k - 1] == order[i]; }
  }

  lemma RoundBreaks(was: State, s: State, r: Round, k: nat, cap: nat, quiet: bool)
    requires Halfway(was, s, r, k, cap, quiet) && k < |r.order| && Enabled(s, CallbackPanics, cap)
    requires TurnStep(s, r, cap) == CallbackPanics
    ensures Rounded(was, Apply(s, CallbackPanics, cap), r, k, cap, quiet)
  {
    var s' := Apply(s, CallbackPanics, cap);
    StillToCome(r.order, k, k);
    BreakIsASkip(s, cap);
    forall i | 0 <= i < |r.order|
      ensures var n := r.order[i];
              && n in was.channels && n in s'.channels
              && Fated(was.channels[n], s'.channels[n], i, k, cap, n in r.expired, n in r.panics, quiet)
    {
      StillToCome(r.order, k, i);
    }
  }

  /** What the channel in turn comes to. */
  function TurnStep(s: State, r: Round, cap: nat): Step
    requires s.listener.Offering? && s.listener.todo != [] && s.listener.todo[0] in s.channels
  {
    var n := s.listener.todo[0];
    if n !in r.expired && CanSend(s.channels[n], cap) then Offer
    else if n in r.panics then CallbackPanics else GiveUp
  }

  lemma OneTurn(was: State, s: State, r: Round, k: nat, cap: nat, quiet: bool)
    requires Inv(s, cap) && Halfway(was, s, r, k, cap, quiet) && k < |r.order|
    ensures s.listener.todo[0] in s.channels && Enabled(s, TurnStep(s, r, cap), cap)
    ensures var step := TurnStep(s, r, cap);
            var s' := Apply(s, step, cap);
            && Inv(s', cap)
            && if step.CallbackPanics? then Rounded(was, s', r, k, cap, quiet)
               else Halfway(was, s', r, k + 1, cap, quiet)
  {
    assert s.listener.todo[0] == r.order[k];
    var step := TurnStep(s, r, cap);
    StepKeeps(s, step, cap);
    TurnLeadsOn(was, s, r, k, step, cap, quiet);
  }

  lemma TurnLeadsOn(was: State, s: State, r: Round, k: nat, step: Step, cap: nat, quiet: bool)
    requires Halfway(was, s, r, k, cap, quiet) && k < |r.order| && s.listener.todo[0] in s.channels
    requires step == TurnStep(s, r, cap) && Enabled(s, step, cap)
    ensures var s' := Apply(s, step, cap);
            if step.CallbackPanics? then Rounded(was, s', r, k, cap, quiet) else Halfway(was, s', r, k + 1, cap, quiet)
  {
    if step.CallbackPanics? {
      RoundBreaks(was, s, r, k, cap, quiet);
    } else {
      OfferIsATurn(s, step, cap);
      TurnAdvances(was, s, Apply(s, step, cap), r, k, cap, quiet);
    }
  }

  class ReliableNotifier {
    var s: State
    const cap: nat

    constructor (names: set<Name>, cap: nat)
      ensures this.cap == cap && s == Fresh(names) && Inv(s, cap)
    {
      this.cap := cap;
      s := Fresh(names);
    }

    /** Between two moves of the listener, callers emit and notifiers take, return, panic and restart. */
    method OthersMove(steps: seq<Step>)
      requires Inv(s, cap)
      modifies this`s
      ensures Inv(s, cap) && Undisturbed(old(s), s) && (steps == [] ==> s == old(s))
    {
      for i := 0 to |steps|
        invariant Inv(s, cap) && Undisturbed(old(s), s) && (i == 0 ==> s == old(s))
      {
        if Elsewhere(steps[i]) && Enabled(s, steps[i], cap) {
          ElsewhereIsUndisturbing(s, steps[i], cap);
          s := Apply(s, steps[i], cap);
        }
      }
    }

    /** One round of the entrypoint listener, over the channels in the order of the range: before the first callback
        that panics each channel takes the event or is reported late, and the latter only if its timer fires first or
        its buffer was full; the panic breaks the listener, and the channels after it are skipped. */
    method Broadcast(r: Round, others: nat -> seq<Step>) returns (broken: nat)
      requires Inv(s, cap) && s.listener == Idle && s.entrypoint != [] && IsOrder(r.order, s.channels.Keys)
      modifies this`s
      ensures Inv(s, cap) && Rounded(old(s), s, r, broken, cap, forall k: nat :: others(k) == [])
    {
      ghost var quiet := forall k: nat :: others(k) == [];
      RoundStarts(s, r, cap, quiet);
      StepKeeps(s, Read(r.order), cap);
      s := Apply(s, Read(r.order), cap);
      for k := 0 to |r.order|
        invariant Inv(s, cap) && Halfway(old(s), s, r, k, cap, quiet)
      {
        var panicked := OfferNext(old(s), r, k, others(k), quiet);
        if panicked { return k; }
      }
      RoundEnds(old(s), s, r, cap, quiet);
      StepKeeps(s, FinishRound, cap);
      s := Apply(s, FinishRound, cap);
      broken := |r.order|;
    }

    /** One turn of the range: the channel takes the event, or its timer fires first and the callback is called. */
    method OfferNext(ghost was: State, r: Round, ghost k: nat, others: seq<Step>, ghost quiet: bool)
      returns (panicked: bool)
      requires Inv(s, cap) && Halfway(was, s, r, k, cap, quiet) && k < |r.order| && (quiet ==> others == [])
      modifies this`s
      ensures Inv(s, cap)
      ensures if panicked then Rounded(was, s, r, k, cap, quiet) else Halfway(was, s, r, k + 1, cap, quiet)
    {
      OthersMove(others);
      OthersKeepRound(was, old(s), s, r, k, cap, quiet);
      var step := TurnStep(s, r, cap);
      OneTurn(was, s, r, k, cap, quiet);
      panicked := step.CallbackPanics?;
      s := Apply(s, step, cap);
    }
  }
}
