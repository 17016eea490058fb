/** The bookkeeping invariant of a supervisor: which goroutine is live, where the children map
    records it, and what the event trace says about it.  Every operation keeps it. */
module Ledger {
  import opened Types
  import opened Engine

  // ----- What the trace says ------------------------------------------------------------------

  datatype Lane = Idle | Up | Down | Broken

  /** One event of a process: a start needs an idle lane, an exit needs one that is up; a failed start
      attempt changes nothing. */
  function Advance(l: Lane, kind: EventKind, afterExit: Lane): Lane {
    match kind
    case Started => if l.Idle? then Up else Broken
    case StartFailed => l
    case Cleanup => l
    case _ => if l.Up? then afterExit else Broken
  }

  /** The worker events under one name: an exit makes the name available again. */
  function NameLane(trace: seq<Event>, name: string): Lane {
    if trace == [] then Idle
    else
      var l, e := NameLane(trace[..|trace| - 1], name), trace[|trace| - 1];
      if e.tag.Worker? && e.name == name then Advance(l, e.kind, Idle) else l
  }

  /** The worker events of one incarnation: it starts once and exits once. */
  function IdLane(trace: seq<Event>, id: nat): Lane {
    if trace == [] then Idle
    else
      var l, e := IdLane(trace[..|trace| - 1], id), trace[|trace| - 1];
      if e.tag.Worker? && e.id == id then Advance(l, e.kind, Down) else l
  }

  lemma {:induction false} LanesOfEmit(w: World, ev: Event, name: string, id: nat)
    ensures NameLane(Emit(w, ev).trace, name)
            == if ev.tag.Worker? && ev.name == name then Advance(NameLane(w.trace, name), ev.kind, Idle)
               else NameLane(w.trace, name)
    ensures IdLane(Emit(w, ev).trace, id)
            == if ev.tag.Worker? && ev.id == id then Advance(IdLane(w.trace, id), ev.kind, Down)
               else IdLane(w.trace, id)
  {
    assert Emit(w, ev).trace[..|w.trace|] == w.trace;
  }

  /** Is the event about incarnation `id` of a child?  The supervisor's own start and its cleanup are not. */
  predicate About(e: Event, id: nat) {
    e.id == id && !e.kind.Cleanup? && !(e.kind.Started? && e.tag.Supervisor?)
  }

  /** All that the trace says about one incarnation. */
  function Story(trace: seq<Event>, id: nat): seq<Event> {
    if trace == [] then []
    else
      var before, e := Story(trace[..|trace| - 1], id), trace[|trace| - 1];
      if About(e, id) then before + [e] else before
  }

  lemma {:induction false} StoryOfEmit(w: World, ev: Event, id: nat)
    ensures Story(Emit(w, ev).trace, id) == Story(w.trace, id) + if About(ev, id) then [ev] else []
  {
    assert Emit(w, ev).trace[..|w.trace|] == w.trace;
  }

  /** How the exit of a started incarnation has to be reported: by how it ended, and by who took its notification.  A
      subtree that completes in front of the loop is not reported. */
  function ExitReport(p: Proc, id: nat): seq<Event> {
    match p.phase
    case Running => []
    case Exiting(_) => []
    case Gone(_, Some(e)) => [Event(Failed, p.spec.tag, p.spec.name, id, Some(e))]
    case Gone(ViaTerminate, None) => [Event(Terminated, p.spec.tag, p.spec.name, id, None)]
    case Gone(ViaNotify, None) =>
      if p.spec.tag.Worker? then [Event(Completed, Worker, p.spec.name, id, None)] else []
  }

  /** Workers report their start; a subtree reports its own. */
  function StartReport(p: Proc, id: nat): seq<Event> {
    if p.spec.tag.Worker? then [Event(Started, Worker, p.spec.name, id, None)] else []
  }

  predicate ToldFailedStart(p: Proc, id: nat, story: seq<Event>) {
    story == [] || (|story| == 1 && story[0].err.Some?
                    && story == [Event(StartFailed, p.spec.tag, p.spec.name, id, story[0].err)])
  }

  /** The trace tells the whole story of incarnation `id`, and nothing else. */
  predicate Told(procs: seq<Proc>, story: seq<Event>, id: nat) {
    if id >= |procs| then story == []
    else if procs[id].started then story == StartReport(procs[id], id) + ExitReport(procs[id], id)
    else ToldFailedStart(procs[id], id, story)
  }

  // ----- The invariant --------------------------------------------------------------------------

  function ExpectedId(procs: seq<Proc>, id: nat): Lane {
    if id < |procs| && procs[id].started && procs[id].spec.tag.Worker?
    then if Undelivered(procs[id]) then Up else Down
    else Idle
  }

  /** Is the incarnation recorded under `name` still to deliver its exit? */
  predicate Live(procs: seq<Proc>, owner: map<string, Child>, name: string) {
    name in owner && owner[name].id < |procs| && Undelivered(procs[owner[name].id])
  }

  function ExpectedName(procs: seq<Proc>, owner: map<string, Child>, name: string): Lane {
    if Live(procs, owner, name) && owner[name].spec.tag.Worker? then Up else Idle
  }

  predicate Recorded(procs: seq<Proc>, owner: map<string, Child>, name: string)
    requires name in owner
  {
    var ch := owner[name];
    ch.spec.name == name && ch.id < |procs| && procs[ch.id].spec == ch.spec && procs[ch.id].started
  }

  /** A started goroutine that has not delivered its exit is the one in the map under its name. */
  predicate Accounted(procs: seq<Proc>, owner: map<string, Child>, id: nat)
    requires id < |procs|
  {
    procs[id].started && Undelivered(procs[id])
    ==> procs[id].spec.name in owner && owner[procs[id].spec.name].id == id
  }

  ghost predicate NoOrphans(procs: seq<Proc>, owner: map<string, Child>) {
    forall id :: 0 <= id < |procs| ==> Accounted(procs, owner, id)
  }

  ghost predicate Balanced(w: World, owner: map<string, Child>) {
    && (forall name :: name in owner ==> Recorded(w.procs, owner, name))
    && NoOrphans(w.procs, owner)
    && (forall id: nat :: IdLane(w.trace, id) == ExpectedId(w.procs, id))
    && (forall name :: NameLane(w.trace, name) == ExpectedName(w.procs, owner, name))
    && Explained(w)
  }

  ghost predicate Explained(w: World) { forall id: nat :: Told(w.procs, Story(w.trace, id), id) }

  ghost predicate AllDelivered(procs: seq<Proc>) {
    forall id :: 0 <= id < |procs| && procs[id].started ==> !Undelivered(procs[id])
  }

  // ----- Accidents --------------------------------------------------------------------------------

  predicate Sound(p: Proc) { !p.timedOut && !p.misread }

  /** No shutdown timer has fired and no notification has been taken for somebody else's. */
  ghost predicate FaultFree(procs: seq<Proc>) {
    forall id :: 0 <= id < |procs| ==> Sound(procs[id])
  }

  /** A notification is misread by being taken. */
  predicate Proper(p: Proc) { p.misread ==> p.phase.Gone? }

  predicate Grown(p: Proc, q: Proc) {
    && q.spec == p.spec && q.started == p.started
    && (p.timedOut ==> q.timedOut) && (p.misread ==> q.misread)
    && (p.phase.Gone? ==> q.phase == p.phase)
    && (p.phase.Exiting? ==> q.phase == p.phase || (q.phase.Gone? && q.phase.err == p.phase.err))
    && (q.misread && !p.misread ==> q.phase.Gone?)
  }

  /** Goroutines keep their identity, accidents are never forgotten, the error on offer is the one that is
      delivered, and a delivered exit is final. */
  ghost predicate Grows(a: seq<Proc>, b: seq<Proc>) {
    && |a| <= |b|
    && (forall id :: 0 <= id < |a| ==> Grown(a[id], b[id]))
    && (forall id :: |a| <= id < |b| ==> Proper(b[id]))
  }

  predicate Drifted(p: Proc, q: Proc) {
    q == p.(phase := q.phase) && (p.phase.Gone? <==> q.phase.Gone?) && (!p.phase.Running? ==> q == p)
  }

  lemma {:induction false} SettleDrifts(procs: seq<Proc>, exits: seq<Exit>)
    ensures |Settle(procs, exits)| == |procs|
    ensures forall id :: 0 <= id < |procs| ==> Drifted(procs[id], Settle(procs, exits)[id])
    decreases |exits|
  {
    if exits != [] {
      var x := exits[0];
      var next := if x.id < |procs| && procs[x.id].phase.Running?
                  then procs[x.id := procs[x.id].(phase := Exiting(x.err))] else procs;
      SettleDrifts(next, exits[1..]);
    }
  }

  // ----- Each operation keeps the invariant -------------------------------------------------------

  lemma LedgerInterfere(o: Oracle, w: World, owner: map<string, Child>)
    requires Balanced(w, owner)
    ensures Balanced(Interfere(o, w), owner)
  {
    SettleDrifts(w.procs, o(w.tick).exits);
    var w' := Interfere(o, w);
    assert w'.trace == w.trace;
    forall name ensures ExpectedName(w'.procs, owner, name) == ExpectedName(w.procs, owner, name) {
      if name in owner { assert Recorded(w.procs, owner, name); }
    }
    forall id | 0 <= id < |w'.procs| ensures Accounted(w'.procs, owner, id) {
      assert Accounted(w.procs, owner, id);
    }
    forall name | name in owner ensures Recorded(w'.procs, owner, name) {
      assert Recorded(w.procs, owner, name);
    }
    forall id: nat ensures Told(w'.procs, Story(w'.trace, id), id) { assert Told(w.procs, Story(w.trace, id), id); }
  }

  /** Goroutines cannot start, be delivered or lose their record by themselves. */
  lemma InterfereKeeps(o: Oracle, w: World)
    ensures var w' := Interfere(o, w);
            && |w'.procs| == |w.procs| && w'.trace == w.trace && Grows(w.procs, w'.procs)
            && forall id :: 0 <= id < |w.procs| ==> Undelivered(w'.procs[id]) == Undelivered(w.procs[id])
  {
    SettleDrifts(w.procs, o(w.tick).exits);
  }

  /** A failed start, or one under a name whose previous incarnation is delivered. */
  lemma LedgerDoStart(o: Oracle, w: World, owner: map<string, Child>, spec: ChildSpec)
    requires Balanced(w, owner) && (DoStart(o, w, spec).err.None? ==> !Live(w.procs, owner, spec.name))
    ensures var s := DoStart(o, w, spec);
            && Grows(w.procs, s.w.procs) && s.w.trace == w.trace
            && |s.w.procs| == |w.procs| + 1 && s.child == Child(|w.procs|, spec)
            && (s.err.Some? ==> Balanced(s.w, owner) && Story(s.w.trace, s.child.id) == [])
            && (s.err.None? && !spec.tag.Worker? ==> Balanced(s.w, owner[spec.name := s.child]))
            && (s.err.None? && spec.tag.Worker? ==>
                  Balanced(Emit(s.w, Event(Started, Worker, spec.name, s.child.id, None)), owner[spec.name := s.child]))
  {
    LedgerInterfere(o, w, owner);
    InterfereKeeps(o, w);
    var w1 := Interfere(o, w);
    var s := DoStart(o, w, spec);
    assert Told(w.procs, Story(w.trace, |w.procs|), |w.procs|);
    LedgerAdd(w1, owner, s.w.procs[|w1.procs|]);
  }

  lemma LedgerAdd(w: World, owner: map<string, Child>, p: Proc)
    requires Balanced(w, owner) && (p.started ==> !Live(w.procs, owner, p.spec.name))
    requires p.phase.Running?
    ensures var id := |w.procs|;
            var w' := w.(procs := w.procs + [p]);
            var owner' := owner[p.spec.name := Child(id, p.spec)];
            && (!p.started ==> Balanced(w', owner))
            && (p.started && !p.spec.tag.Worker? ==> Balanced(w', owner'))
            && (p.started && p.spec.tag.Worker?
                ==> Balanced(Emit(w', Event(Started, Worker, p.spec.name, id, None)), owner'))
  {
    var id := |w.procs|;
    var w' := w.(procs := w.procs + [p]);
    var owner1 := if p.started then owner[p.spec.name := Child(id, p.spec)] else owner;
    var w1 := if p.started && p.spec.tag.Worker? then Emit(w', Event(Started, Worker, p.spec.name, id, None)) else w';
    forall i | 0 <= i < |w1.procs| ensures Accounted(w1.procs, owner1, i) {
      if i < id { assert Accounted(w.procs, owner, i); }
    }
    forall name | name in owner1 ensures Recorded(w1.procs, owner1, name) {
      if name in owner { assert Recorded(w.procs, owner, name); }
    }
    forall name ensures NameLane(w1.trace, name) == ExpectedName(w1.procs, owner1, name) {
      if name in owner { assert Recorded(w.procs, owner, name); }
      if p.started && p.spec.tag.Worker? { LanesOfEmit(w', Event(Started, Worker, p.spec.name, id, None), name, 0); }
    }
    forall i: nat ensures IdLane(w1.trace, i) == ExpectedId(w1.procs, i) {
      if p.started && p.spec.tag.Worker? { LanesOfEmit(w', Event(Started, Worker, p.spec.name, id, None), "", i); }
      assert IdLane(w.trace, i) == ExpectedId(w.procs, i);
    }
    ExplainedAdd(w, p);
  }

  lemma ExplainedAdd(w: World, p: Proc)
    requires Explained(w) && p.phase.Running?
    ensures var id := |w.procs|;
            var w' := w.(procs := w.procs + [p]);
            var w1 := if p.started && p.spec.tag.Worker?
                      then Emit(w', Event(Started, Worker, p.spec.name, id, None)) else w';
            Explained(w1)
  {
    var id := |w.procs|;
    var w' := w.(procs := w.procs + [p]);
    var ev := Event(Started, Worker, p.spec.name, id, None);
    var w1 := if p.started && p.spec.tag.Worker? then Emit(w', ev) else w';
    forall i: nat ensures Told(w1.procs, Story(w1.trace, i), i) {
      assert Told(w.procs, Story(w.trace, i), i);
      if p.started && p.spec.tag.Worker? { StoryOfEmit(w', ev, i); }
    }
  }

  /** An event about no child: the supervisor's own start, or its cleanup. */
  lemma LedgerSilent(w: World, owner: map<string, Child>, ev: Event)
    requires Balanced(w, owner)
    requires ev.kind.Cleanup? || (ev.kind.Started? && ev.tag.Supervisor?)
    ensures Balanced(Emit(w, ev), owner)
  {
    forall name ensures NameLane(Emit(w, ev).trace, name) == ExpectedName(w.procs, owner, name) {
      LanesOfEmit(w, ev, name, 0);
    }
    forall id: nat ensures IdLane(Emit(w, ev).trace, id) == ExpectedId(w.procs, id) {
      LanesOfEmit(w, ev, "", id);
    }
    forall id: nat ensures Told(w.procs, Story(Emit(w, ev).trace, id), id) {
      StoryOfEmit(w, ev, id);
      assert Told(w.procs, Story(w.trace, id), id);
    }
  }

  /** The report of a failed start. */
  lemma LedgerFailedStart(w: World, owner: map<string, Child>, ev: Event)
    requires Balanced(w, owner) && ev.id < |w.procs| && !w.procs[ev.id].started && Story(w.trace, ev.id) == []
    requires ev.err.Some? && ev == Event(StartFailed, w.procs[ev.id].spec.tag, w.procs[ev.id].spec.name, ev.id, ev.err)
    ensures Balanced(Emit(w, ev), owner)
  {
    forall name ensures NameLane(Emit(w, ev).trace, name) == ExpectedName(w.procs, owner, name) {
      LanesOfEmit(w, ev, name, 0);
    }
    forall id: nat ensures IdLane(Emit(w, ev).trace, id) == ExpectedId(w.procs, id) {
      LanesOfEmit(w, ev, "", id);
    }
    forall id: nat ensures Told(w.procs, Story(Emit(w, ev).trace, id), id) {
      StoryOfEmit(w, ev, id);
      assert Told(w.procs, Story(w.trace, id), id);
    }
  }

  /** A live child delivers its exit, and the supervisor reports it as it has to. */
  lemma LedgerDeliver(w: World, owner: map<string, Child>, name: string, gone: Proc)
    requires Balanced(w, owner) && Live(w.procs, owner, name)
    requires gone == w.procs[owner[name].id].(phase := gone.phase) && gone.phase.Gone?
    ensures var id := owner[name].id;
            var w' := w.(procs := w.procs[id := gone]);
            && (ExitReport(gone, id) == [] ==> Balanced(w', owner))
            && (forall ev :: ExitReport(gone, id) == [ev] ==> Balanced(Emit(w', ev), owner))
            && !Live(w'.procs, owner, name)
  {
    var ch := owner[name];
    assert Recorded(w.procs, owner, name);
    var w' := w.(procs := w.procs[ch.id := gone]);
    BooksAfter(w, owner, name, gone);
    if ExitReport(gone, ch.id) == [] {
      assert gone.spec.tag.Supervisor?;
      Unreported(w, owner, name, gone);
    } else {
      var ev := ExitReport(gone, ch.id)[0];
      assert ExitReport(gone, ch.id) == [ev];
      Reported(w, owner, name, gone, ev);
    }
  }

  lemma BooksAfter(w: World, owner: map<string, Child>, name: string, gone: Proc)
    requires Balanced(w, owner) && Live(w.procs, owner, name)
    requires gone == w.procs[owner[name].id].(phase := gone.phase) && gone.phase.Gone?
    ensures var procs' := w.procs[owner[name].id := gone];
            && NoOrphans(procs', owner) && !Live(procs', owner, name)
            && (forall n :: n in owner ==> Recorded(procs', owner, n))
            && (forall n :: n != name ==> ExpectedName(procs', owner, n) == ExpectedName(w.procs, owner, n))
            && (forall i: nat :: i != owner[name].id ==> ExpectedId(procs', i) == ExpectedId(w.procs, i))
  {
    assert Recorded(w.procs, owner, name);
    var procs' := w.procs[owner[name].id := gone];
    forall i | 0 <= i < |procs'| ensures Accounted(procs', owner, i) { assert Accounted(w.procs, owner, i); }
    forall n | n in owner ensures Recorded(procs', owner, n) { assert Recorded(w.procs, owner, n); }
    forall n | n != name ensures ExpectedName(procs', owner, n) == ExpectedName(w.procs, owner, n) {
      if n in owner { assert Recorded(w.procs, owner, n); }
    }
  }

  /** A subtree that has completed: no event tells of it. */
  lemma Unreported(w: World, owner: map<string, Child>, name: string, gone: Proc)
    requires Balanced(w, owner) && Live(w.procs, owner, name)
    requires gone == w.procs[owner[name].id].(phase := gone.phase) && gone.phase.Gone?
    requires ExitReport(gone, owner[name].id) == [] && gone.spec.tag.Supervisor?
    ensures Balanced(w.(procs := w.procs[owner[name].id := gone]), owner)
  {
    var w' := w.(procs := w.procs[owner[name].id := gone]);
    assert Recorded(w.procs, owner, name);
    BooksAfter(w, owner, name, gone);
    forall id: nat ensures Told(w'.procs, Story(w'.trace, id), id) { assert Told(w.procs, Story(w.trace, id), id); }
  }

  lemma Reported(w: World, owner: map<string, Child>, name: string, gone: Proc, ev: Event)
    requires Balanced(w, owner) && Live(w.procs, owner, name)
    requires gone == w.procs[owner[name].id].(phase := gone.phase) && gone.phase.Gone?
    requires ExitReport(gone, owner[name].id) == [ev]
    ensures Balanced(Emit(w.(procs := w.procs[owner[name].id := gone]), ev), owner)
  {
    var w' := w.(procs := w.procs[owner[name].id := gone]);
    var w1 := Emit(w', ev);
    assert Recorded(w.procs, owner, name);
    BooksAfter(w, owner, name, gone);
    forall n ensures NameLane(w1.trace, n) == ExpectedName(w'.procs, owner, n) { LanesOfEmit(w', ev, n, 0); }
    forall i: nat ensures IdLane(w1.trace, i) == ExpectedId(w'.procs, i) {
      LanesOfEmit(w', ev, "", i);
      assert IdLane(w.trace, i) == ExpectedId(w.procs, i);
    }
    forall i: nat ensures Told(w'.procs, Story(w1.trace, i), i) {
      StoryOfEmit(w', ev, i);
      assert Told(w.procs, Story(w.trace, i), i);
    }
  }

  /** A delivered child is forgotten. */
  lemma LedgerForget(w: World, owner: map<string, Child>, owner': map<string, Child>)
    requires Balanced(w, owner)
    requires forall name :: name in owner' ==> name in owner && owner'[name] == owner[name]
    requires forall name :: name in owner && name !in owner' ==> !Live(w.procs, owner, name)
    ensures Balanced(w, owner')
  {
    forall i | 0 <= i < |w.procs| ensures Accounted(w.procs, owner', i) {
      assert Accounted(w.procs, owner, i);
    }
    forall n ensures ExpectedName(w.procs, owner', n) == ExpectedName(w.procs, owner, n) {}
    forall n | n in owner' ensures Recorded(w.procs, owner', n) {
      assert Recorded(w.procs, owner, n);
    }
  }
}
