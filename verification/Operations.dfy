/** Starting and stopping whole groups of children: what `terminateChildNodes` and
    `startChildNodes` do to the ledger and to the trace. */
module Operations {
  import opened Types
  import opened Ordering
  import opened Engine
  import opened Ledger
  import opened Outcomes
  import DynSlice

  // ----- Growth, whatever the oracle does -------------------------------------------------------

  lemma GrowsTrans(a: seq<Proc>, b: seq<Proc>, c: seq<Proc>)
    requires Grows(a, b) && Grows(b, c)
    ensures Grows(a, c)
  {
    forall id | 0 <= id < |a| ensures Grown(a[id], c[id]) {
      assert Grown(a[id], b[id]) && Grown(b[id], c[id]);
    }
    forall id | |a| <= id < |c| ensures Proper(c[id]) {
      if id < |b| { assert Proper(b[id]) && Grown(b[id], c[id]); }
    }
  }

  lemma FaultFreeBefore(a: seq<Proc>, b: seq<Proc>)
    requires Grows(a, b) && FaultFree(b)
    ensures FaultFree(a)
  {
    forall id | 0 <= id < |a| ensures Sound(a[id]) {
      assert Grown(a[id], b[id]) && Sound(b[id]);
    }
  }

  /** `b` continues `a`: same goroutines or more, and a longer trace. */
  ghost predicate Continues(a: World, b: World) {
    Grows(a.procs, b.procs) && a.trace <= b.trace && (a.done ==> b.done) && a.tick <= b.tick
  }

  lemma ContinuesTrans(a: World, b: World, c: World)
    requires Continues(a, b) && Continues(b, c)
    ensures Continues(a, c)
    ensures Silent(a, b) && Silent(b, c) ==> Silent(a, c)
  {
    GrowsTrans(a.procs, b.procs, c.procs);
  }

  /** An event that a supervisor reports of itself. */
  predicate IsOwn(ev: Event) { ev.kind.Cleanup? || (ev.kind.Started? && ev.tag.Supervisor?) }

  /** Nothing was reported of the supervisor itself. */
  ghost predicate Silent(a: World, b: World) {
    forall i :: |a.trace| <= i < |b.trace| ==> !IsOwn(b.trace[i])
  }

  lemma TerminateChildNodeGrows(o: Oracle, w: World, ch: Child)
    ensures var h := TerminateChildNode(o, w, ch); Continues(w, h.w) && Silent(w, h.w) && |h.w.procs| == |w.procs|
  {
    TerminateGrows(o, w, ch);
  }

  lemma TerminateGrows(o: Oracle, w: World, ch: Child)
    ensures var a := Terminate(o, w, ch); Continues(w, a.w) && |a.w.procs| == |w.procs| && a.w.trace == w.trace
  {
    InterfereKeeps(o, w);
  }

  lemma {:induction false} TerminateChildNodesGrows(o: Oracle, w: World, todo: seq<ChildSpec>,
                                                    children: map<string, Child>, skip: Option<string>,
                                                    errs: map<string, Error>)
    ensures var h := TerminateChildNodes(o, w, todo, children, skip, errs);
            Continues(w, h.w) && Silent(w, h.w) && |h.w.procs| == |w.procs|
    decreases |todo|
  {
    if todo != [] {
      var name := todo[0].name;
      if Some(name) == skip || name !in children {
        TerminateChildNodesGrows(o, w, todo[1..], children, skip, errs);
      } else {
        var h := TerminateChildNode(o, w, children[name]);
        TerminateChildNodeGrows(o, w, children[name]);
        var errs' := if h.err.Some? then errs[name := h.err.value] else errs;
        TerminateChildNodesGrows(o, h.w, todo[1..], children, skip, errs');
        ContinuesTrans(w, h.w, TerminateChildNodes(o, h.w, todo[1..], children, skip, errs').w);
      }
    }
  }

  lemma StartChildNodeGrows(o: Oracle, w: World, spec: ChildSpec)
    ensures var s := StartChildNode(o, w, spec);
            Continues(w, s.w) && Silent(w, s.w) && |s.w.procs| == |w.procs| + 1 && s.child == Child(|w.procs|, spec)
            && s.w.procs[|w.procs|] == Proc(spec, Running, s.err.None?, false, false)
  {
    InterfereKeeps(o, w);
  }

  lemma {:induction false} StartChildNodesGrows(o: Oracle, w: World, order: Order, specs: seq<ChildSpec>,
                                                todo: seq<ChildSpec>, acc: map<string, Child>)
    ensures var l := StartChildNodes(o, w, order, specs, todo, acc); Continues(w, l.w) && Silent(w, l.w)
    decreases |todo|
  {
    if todo != [] {
      var s := StartChildNode(o, w, todo[0]);
      StartChildNodeGrows(o, w, todo[0]);
      if s.err.Some? {
        TerminateChildNodesGrows(o, s.w, SortTermination(order, specs), acc, None, map[]);
        ContinuesTrans(w, s.w, StartChildNodes(o, w, order, specs, todo, acc).w);
      } else {
        StartChildNodesGrows(o, s.w, order, specs, todo[1..], acc[todo[0].name := s.child]);
        ContinuesTrans(w, s.w, StartChildNodes(o, w, order, specs, todo, acc).w);
      }
    }
  }

  // ----- Stopping one child ---------------------------------------------------------------------

  predicate IsStopEvent(ev: Event, ch: Child, err: Option<Error>) {
    && ev == Event(if err.Some? then Failed else Terminated, ch.spec.tag, ch.spec.name, ch.id, err)
  }

  lemma StopOne(o: Oracle, w: World, owner: map<string, Child>, name: string)
    requires Balanced(w, owner) && name in owner
    requires FaultFree(TerminateChildNode(o, w, owner[name]).w.procs)
    ensures StoppedOne(w, TerminateChildNode(o, w, owner[name]), owner, name)
  {
    LedgerInterfere(o, w, owner);
    InterfereKeeps(o, w);
    var w1, ch, h := Interfere(o, w), owner[name], TerminateChildNode(o, w, owner[name]);
    assert Recorded(w1.procs, owner, name);
    assert Sound(h.w.procs[ch.id]);
    OthersStayLive(w1, h.w, owner, name);
    if Live(w1.procs, owner, name) { StopLive(o, w, w1, owner, name, h); }
  }

  /** The stop of a live child that no timer cuts short. */
  lemma StopLive(o: Oracle, w: World, w1: World, owner: map<string, Child>, name: string, h: Halt)
    requires w1 == Interfere(o, w) && Balanced(w1, owner) && Live(w1.procs, owner, name) && w1.trace == w.trace
    requires Recorded(w1.procs, owner, name)
    requires h == TerminateChildNode(o, w, owner[name]) && |h.w.procs| == |w1.procs| && Sound(h.w.procs[owner[name].id])
    ensures Balanced(h.w, owner) && !Live(h.w.procs, owner, name)
    ensures |h.w.trace| == |w.trace| + 1 && w.trace <= h.w.trace
    ensures IsStopEvent(h.w.trace[|w.trace|], owner[name], h.err)
  {
    LedgerDeliver(w1, owner, name, h.w.procs[owner[name].id]);
  }

  lemma OthersStayLive(w: World, w': World, owner: map<string, Child>, name: string)
    requires AllRecorded(w.procs, owner) && name in owner && |w'.procs| == |w.procs|
    requires forall id :: 0 <= id < |w.procs| && id != owner[name].id ==> w'.procs[id] == w.procs[id]
    ensures forall n :: n != name ==> Live(w'.procs, owner, n) == Live(w.procs, owner, n)
  {
    forall n | n != name && n in owner ensures Live(w'.procs, owner, n) == Live(w.procs, owner, n) {
      assert Recorded(w.procs, owner, n) && Recorded(w.procs, owner, name);
    }
  }

  /** Exactly when stopping a live child leaves it live: its shutdown timer fired first. */
  lemma StopFailsExactly(o: Oracle, w: World, ch: Child)
    requires ch.id < |w.procs| && Undelivered(w.procs[ch.id])
    ensures var h := TerminateChildNode(o, w, ch);
            ch.id < |h.w.procs| && (Undelivered(h.w.procs[ch.id]) <==> ch.spec.shutdown.Timed? && o(w.tick).timer)
  {
    InterfereKeeps(o, w);
  }

  // ----- Stopping many ----------------------------------------------------------------------------

  /** The names that a stop visits and still finds live, in visiting order. */
  function Survivors(procs: seq<Proc>, owner: map<string, Child>, todo: seq<ChildSpec>,
                     skip: Option<string>): seq<string> {
    if todo == [] then []
    else
      (if Some(todo[0].name) != skip && Live(procs, owner, todo[0].name) then [todo[0].name] else [])
      + Survivors(procs, owner, todo[1..], skip)
  }

  ghost predicate Named(specs: seq<ChildSpec>, name: string) { exists spec :: spec in specs && spec.name == name }

  lemma NamedTail(specs: seq<ChildSpec>, name: string)
    requires specs != []
    ensures Named(specs, name) <==> specs[0].name == name || Named(specs[1..], name)
  {
    if Named(specs, name) && specs[0].name != name {
      var spec :| spec in specs && spec.name == name;
      assert spec in specs[1..];
    }
    if specs[0].name == name { assert specs[0] in specs; }
  }

  ghost predicate Visits(todo: seq<ChildSpec>, skip: Option<string>, name: string) {
    Some(name) != skip && Named(todo, name)
  }

  /** `evs` reports one stop for each of `names`, in order. */
  ghost predicate StopReport(evs: seq<Event>, names: seq<string>, owner: map<string, Child>) {
    && |evs| == |names|
    && forall k :: 0 <= k < |evs| ==> names[k] in owner && IsStopEvent(evs[k], owner[names[k]], evs[k].err)
  }

  /** The error map that a list of stop events amounts to. */
  function ErrorsOf(evs: seq<Event>, errs: map<string, Error>): map<string, Error>
    decreases |evs|
  {
    if evs == [] then errs
    else ErrorsOf(evs[1..], if evs[0].err.Some? then errs[evs[0].name := evs[0].err.value] else errs)
  }

  lemma {:induction false} SurvivorsSame(a: seq<Proc>, b: seq<Proc>, owner: map<string, Child>, todo: seq<ChildSpec>,
                                         skip: Option<string>)
    requires forall spec :: spec in todo ==> Live(a, owner, spec.name) == Live(b, owner, spec.name)
    ensures Survivors(a, owner, todo, skip) == Survivors(b, owner, todo, skip)
  {
    if todo != [] { SurvivorsSame(a, b, owner, todo[1..], skip); }
  }

  /** What `terminateChildNodes` does to `owner` when no timer fires: every visited child ends up
      delivered and nobody else is touched; the trace gains exactly one stop event per child that was
      still live, in visiting order; the error map holds exactly the failures among them. */
  ghost predicate Stopped(w: World, h: Halts, todo: seq<ChildSpec>, owner: map<string, Child>,
                          skip: Option<string>, errs: map<string, Error>)
  {
    && Balanced(h.w, owner)
    && (forall n :: Live(h.w.procs, owner, n) <==> Live(w.procs, owner, n) && !Visits(todo, skip, n))
    && w.trace <= h.w.trace
    && StopReport(h.w.trace[|w.trace|..], Survivors(w.procs, owner, todo, skip), owner)
    && h.errs == ErrorsOf(h.w.trace[|w.trace|..], errs)
  }

  /** What stopping the single child `name` does. */
  ghost predicate StoppedOne(w: World, h: Halt, owner: map<string, Child>, name: string) {
    && name in owner && owner[name].spec.name == name
    && Balanced(h.w, owner) && !Live(h.w.procs, owner, name)
    && (forall n :: n != name ==> Live(h.w.procs, owner, n) == Live(w.procs, owner, n))
    && (Live(w.procs, owner, name) ==>
          |h.w.trace| == |w.trace| + 1 && w.trace <= h.w.trace && IsStopEvent(h.w.trace[|w.trace|], owner[name], h.err))
    && (!Live(w.procs, owner, name) ==> h.w.trace == w.trace && h.err == None)
  }

  lemma StoppedCons(w: World, h: Halt, r: Halts, todo: seq<ChildSpec>, owner: map<string, Child>,
                    skip: Option<string>, errs: map<string, Error>)
    requires todo != [] && DynSlice.DistinctNames(todo) && Some(todo[0].name) != skip
    requires StoppedOne(w, h, owner, todo[0].name)
    requires Stopped(h.w, r, todo[1..], owner, skip, if h.err.Some? then errs[todo[0].name := h.err.value] else errs)
    ensures Stopped(w, r, todo, owner, skip, errs)
  {
    var name := todo[0].name;
    forall n ensures Live(r.w.procs, owner, n) <==> Live(w.procs, owner, n) && !Visits(todo, skip, n) {
      NamedTail(todo, n);
    }
    forall spec | spec in todo[1..] ensures Live(h.w.procs, owner, spec.name) == Live(w.procs, owner, spec.name) {}
    SurvivorsSame(w.procs, h.w.procs, owner, todo[1..], skip);
    ReportCons(w.trace, h.w.trace, r.w.trace, name, Survivors(h.w.procs, owner, todo[1..], skip), owner,
               Live(w.procs, owner, name), h.err, errs);
  }

  lemma {:induction false} ReportCons(a: seq<Event>, b: seq<Event>, c: seq<Event>, name: string, names: seq<string>,
                   owner: map<string, Child>, live: bool, err: Option<Error>, errs: map<string, Error>)
    requires name in owner && owner[name].spec.name == name
    requires if live then |b| == |a| + 1 && a <= b && IsStopEvent(b[|a|], owner[name], err) else b == a && err == None
    requires b <= c && StopReport(c[|b|..], names, owner)
    ensures a <= c && StopReport(c[|a|..], (if live then [name] else []) + names, owner)
    ensures ErrorsOf(c[|a|..], errs)
            == ErrorsOf(c[|b|..], if err.Some? then errs[name := err.value] else errs)
  {
    if live {
      var evs := c[|a|..];
      assert evs == [b[|a|]] + c[|b|..];
      ReportPrepend(b[|a|], c[|b|..], name, names, owner);
      ErrorsPrepend(b[|a|], c[|b|..], errs);
    } else {
      assert [] + names == names;
    }
  }

  lemma ReportPrepend(ev: Event, evs: seq<Event>, name: string, names: seq<string>, owner: map<string, Child>)
    requires name in owner && IsStopEvent(ev, owner[name], ev.err) && StopReport(evs, names, owner)
    ensures StopReport([ev] + evs, [name] + names, owner)
  {
    forall k | 0 < k < |evs| + 1
      ensures var n, e := ([name] + names)[k], ([ev] + evs)[k]; n in owner && IsStopEvent(e, owner[n], e.err)
    {
      assert ([ev] + evs)[k] == evs[k - 1] && ([name] + names)[k] == names[k - 1];
    }
  }

  lemma {:induction false} ErrorsPrepend(ev: Event, evs: seq<Event>, errs: map<string, Error>)
    ensures ErrorsOf([ev] + evs, errs)
            == ErrorsOf(evs, if ev.err.Some? then errs[ev.name := ev.err.value] else errs)
  {
    assert ([ev] + evs)[1..] == evs;
  }

  lemma StoppedSkip(w: World, r: Halts, todo: seq<ChildSpec>, owner: map<string, Child>,
                    skip: Option<string>, errs: map<string, Error>)
    requires todo != [] && (Some(todo[0].name) == skip || todo[0].name !in owner)
    requires Stopped(w, r, todo[1..], owner, skip, errs)
    ensures Stopped(w, r, todo, owner, skip, errs)
  {
    forall n ensures Visits(todo, skip, n) <==> (n == todo[0].name && Some(n) != skip) || Visits(todo[1..], skip, n) {
      NamedTail(todo, n);
    }
    assert Survivors(w.procs, owner, todo, skip) == Survivors(w.procs, owner, todo[1..], skip);
  }

  lemma {:induction false} StopAll(o: Oracle, w: World, todo: seq<ChildSpec>, owner: map<string, Child>,
                                   skip: Option<string>, errs: map<string, Error>)
    requires Balanced(w, owner) && DynSlice.DistinctNames(todo)
    requires FaultFree(TerminateChildNodes(o, w, todo, owner, skip, errs).w.procs)
    ensures Stopped(w, TerminateChildNodes(o, w, todo, owner, skip, errs), todo, owner, skip, errs)
    decreases |todo|
  {
    if todo == [] {
      assert w.trace[|w.trace|..] == [];
    } else {
      var name := todo[0].name;
      if Some(name) == skip || name !in owner {
        StopAll(o, w, todo[1..], owner, skip, errs);
        StoppedSkip(w, TerminateChildNodes(o, w, todo, owner, skip, errs), todo, owner, skip, errs);
      } else {
        var h := TerminateChildNode(o, w, owner[name]);
        var errs' := if h.err.Some? then errs[name := h.err.value] else errs;
        var r := TerminateChildNodes(o, h.w, todo[1..], owner, skip, errs');
        TerminateChildNodesGrows(o, h.w, todo[1..], owner, skip, errs');
        FaultFreeBefore(h.w.procs, r.w.procs);
        StopOne(o, w, owner, name);
        StopAll(o, h.w, todo[1..], owner, skip, errs');
        StoppedCons(w, h, r, todo, owner, skip, errs);
      }
    }
  }

  // ----- Stopping many, whatever the timers do ---------------------------------------------------------

  /** Every entry is a child that was started under its name. */
  ghost predicate AllRecorded(procs: seq<Proc>, owner: map<string, Child>) {
    forall name :: name in owner ==> Recorded(procs, owner, name)
  }

  lemma RecordedGrows(a: seq<Proc>, b: seq<Proc>, owner: map<string, Child>)
    requires AllRecorded(a, owner) && Grows(a, b)
    ensures AllRecorded(b, owner)
  {
    forall name | name in owner ensures Recorded(b, owner, name) {
      assert Recorded(a, owner, name) && Grown(a[owner[name].id], b[owner[name].id]);
    }
  }

  /** The visited names that are in `answered`, in visiting order. */
  function Chosen(todo: seq<ChildSpec>, skip: Option<string>, answered: set<string>): seq<string> {
    if todo == [] then []
    else
      (if Some(todo[0].name) != skip && todo[0].name in answered then [todo[0].name] else [])
      + Chosen(todo[1..], skip, answered)
  }

  lemma {:induction false} ChosenSame(todo: seq<ChildSpec>, skip: Option<string>, a: set<string>, b: set<string>)
    requires forall spec :: spec in todo ==> (spec.name in a <==> spec.name in b)
    ensures Chosen(todo, skip, a) == Chosen(todo, skip, b)
  {
    if todo != [] {
      assert todo[0] in todo;
      ChosenSame(todo[1..], skip, a, b);
    }
  }

  /** An error reported of the child `name` is the one with which it has ended, now that the stop has taken its exit, or
      the timeout. */
  predicate TellsStop(before: seq<Proc>, after: seq<Proc>, owner: map<string, Child>, name: string,
                      err: Option<Error>) {
    && name in owner && owner[name].id < |before| <= |after|
    && var id := owner[name].id;
       && err == StopError(before, after, id)
       && (Undelivered(before[id]) && after[id].phase.Gone? ==> after[id].phase.route.ViaTerminate?)
  }

  ghost predicate TellsStops(before: seq<Proc>, after: seq<Proc>, owner: map<string, Child>, evs: seq<Event>) {
    forall k :: 0 <= k < |evs| ==> TellsStop(before, after, owner, evs[k].name, evs[k].err)
  }

  /** What a group stop reports on any occasion.  The children that answer are all that were live, and otherwise only
      children on which the timer has fired; each is reported once, in visiting order, with the error with which its
      goroutine ended or the timeout; the error map holds exactly the failures reported; and nobody else is touched. */
  ghost predicate ReportsStops(w: World, h: Halts, todo: seq<ChildSpec>, owner: map<string, Child>,
                               skip: Option<string>, errs: map<string, Error>, answered: set<string>)
  {
    && ReportsInTurn(w, h, todo, owner, skip, errs, answered)
    && TellsStops(w.procs, h.w.procs, owner, h.w.trace[|w.trace|..])
    && SparesOthers(w, h.w, todo, owner, skip)
  }

  ghost predicate ReportsInTurn(w: World, h: Halts, todo: seq<ChildSpec>, owner: map<string, Child>,
                                skip: Option<string>, errs: map<string, Error>, answered: set<string>)
  {
    && w.trace <= h.w.trace
    && StopReport(h.w.trace[|w.trace|..], Chosen(todo, skip, answered), owner)
    && h.errs == ErrorsOf(h.w.trace[|w.trace|..], errs)
    && (forall name :: name in answered ==> name in owner && Visits(todo, skip, name))
    && (forall name :: name in owner && Visits(todo, skip, name) ==> Answered(w, h.w, owner, name, name in answered))
  }

  ghost predicate SparesOthers(w: World, w': World, todo: seq<ChildSpec>, owner: map<string, Child>,
                               skip: Option<string>)
  {
    forall name :: name in owner && !Visits(todo, skip, name) ==>
      Live(w'.procs, owner, name) == Live(w.procs, owner, name)
  }

  predicate Answered(w: World, w': World, owner: map<string, Child>, name: string, answers: bool)
    requires name in owner
  {
    && (Live(w.procs, owner, name) ==> answers)
    && (answers ==> Live(w.procs, owner, name) || (owner[name].id < |w'.procs| && w'.procs[owner[name].id].timedOut))
  }

  /** One stop, whatever the timer does. */
  lemma StopAnswers(o: Oracle, w: World, owner: map<string, Child>, name: string) returns (answers: bool)
    requires AllRecorded(w.procs, owner) && name in owner
    ensures var h := TerminateChildNode(o, w, owner[name]);
            AllRecorded(h.w.procs, owner) && OneStop(w, h, owner, name, answers)
  {
    InterfereKeeps(o, w);
    assert Recorded(w.procs, owner, name);
    ReportedStop(o, w, owner[name]);
    var w1 := Interfere(o, w);
    var ch := owner[name];
    var h := TerminateChildNode(o, w, ch);
    TerminateChildNodeGrows(o, w, ch);
    RecordedGrows(w.procs, h.w.procs, owner);
    RecordedGrows(w.procs, w1.procs, owner);
    assert Recorded(w1.procs, owner, name);
    answers := Terminate(o, w, ch).first;
    OthersStayLive(w1, h.w, owner, name);
  }

  lemma {:induction false} StopReports(o: Oracle, w: World, todo: seq<ChildSpec>, owner: map<string, Child>,
                                       skip: Option<string>, errs: map<string, Error>) returns (answered: set<string>)
    requires AllRecorded(w.procs, owner) && DynSlice.DistinctNames(todo)
    ensures ReportsStops(w, TerminateChildNodes(o, w, todo, owner, skip, errs), todo, owner, skip, errs, answered)
    decreases |todo|
  {
    if todo == [] {
      answered := {};
      assert w.trace[|w.trace|..] == [];
    } else {
      var name, rest := todo[0].name, todo[1..];
      if Some(name) == skip || name !in owner {
        answered := StopReports(o, w, rest, owner, skip, errs);
        ReportsSkip(w, TerminateChildNodes(o, w, todo, owner, skip, errs), todo, owner, skip, errs, answered);
      } else {
        var answers := StopAnswers(o, w, owner, name);
        var h := TerminateChildNode(o, w, owner[name]);
        var errs' := if h.err.Some? then errs[name := h.err.value] else errs;
        var later := StopReports(o, h.w, rest, owner, skip, errs');
        TerminateChildNodeGrows(o, w, owner[name]);
        TerminateChildNodesGrows(o, h.w, rest, owner, skip, errs');
        answered := if answers then later + {name} else later;
        ReportsMore(w, h, TerminateChildNodes(o, h.w, rest, owner, skip, errs'), todo, owner, skip, errs, answers,
                    later);
      }
    }
  }

  lemma ReportsSkip(w: World, r: Halts, todo: seq<ChildSpec>, owner: map<string, Child>,
                    skip: Option<string>, errs: map<string, Error>, answered: set<string>)
    requires todo != [] && (Some(todo[0].name) == skip || todo[0].name !in owner)
    requires ReportsStops(w, r, todo[1..], owner, skip, errs, answered)
    ensures ReportsStops(w, r, todo, owner, skip, errs, answered)
  {
    forall name | name in owner ensures Visits(todo, skip, name) <==> Visits(todo[1..], skip, name) {
      NamedTail(todo, name);
    }
    assert Chosen(todo, skip, answered) == [] + Chosen(todo[1..], skip, answered) == Chosen(todo[1..], skip, answered);
  }

  /** What one stop of `name` comes to. */
  ghost predicate OneStop(w: World, h: Halt, owner: map<string, Child>, name: string, answers: bool) {
    && name in owner && owner[name].spec.name == name && Answered(w, h.w, owner, name, answers)
    && (forall n :: n != name ==> Live(h.w.procs, owner, n) == Live(w.procs, owner, n))
    && if answers then
         && |h.w.trace| == |w.trace| + 1 && w.trace <= h.w.trace
         && IsStopEvent(h.w.trace[|w.trace|], owner[name], h.err)
         && TellsStop(w.procs, h.w.procs, owner, name, h.err)
       else h.w.trace == w.trace && h.err == None
  }

  lemma ReportsMore(w: World, h: Halt, r: Halts, todo: seq<ChildSpec>, owner: map<string, Child>,
                    skip: Option<string>, errs: map<string, Error>, answers: bool, later: set<string>)
    requires todo != [] && DynSlice.DistinctNames(todo) && Some(todo[0].name) != skip && todo[0].name in owner
    requires var name := todo[0].name;
             && OneStop(w, h, owner, name, answers)
             && ReportsStops(h.w, r, todo[1..], owner, skip,
                             if h.err.Some? then errs[name := h.err.value] else errs, later)
    requires AllRecorded(w.procs, owner) && Grows(w.procs, h.w.procs) && Grows(h.w.procs, r.w.procs)
    ensures ReportsStops(w, r, todo, owner, skip, errs, if answers then later + {todo[0].name} else later)
  {
    var name, rest := todo[0].name, todo[1..];
    InTurnMore(w, h, r, todo, owner, skip, errs, answers, later);
    HeadIsAlone(todo);
    RecordedGrows(w.procs, h.w.procs, owner);
    LaterNames(h.w, r.w, rest, owner, skip, later, name);
    TellsMore(w, h.w, r.w, owner, name, answers, h.err);
    SparesMore(w, h.w, r.w, todo, owner, skip);
  }

  lemma InTurnMore(w: World, h: Halt, r: Halts, todo: seq<ChildSpec>, owner: map<string, Child>,
                   skip: Option<string>, errs: map<string, Error>, answers: bool, later: set<string>)
    requires todo != [] && DynSlice.DistinctNames(todo) && Some(todo[0].name) != skip && todo[0].name in owner
    requires var name := todo[0].name;
             && OneStop(w, h, owner, name, answers)
             && ReportsInTurn(h.w, r, todo[1..], owner, skip,
                              if h.err.Some? then errs[name := h.err.value] else errs, later)
    requires Grows(h.w.procs, r.w.procs)
    ensures ReportsInTurn(w, r, todo, owner, skip, errs, if answers then later + {todo[0].name} else later)
  {
    var name, rest := todo[0].name, todo[1..];
    AnsweredMore(w, h.w, r.w, todo, owner, skip, answers, later);
    ChosenMore(todo, skip, answers, later);
    ReportCons(w.trace, h.w.trace, r.w.trace, name, Chosen(rest, skip, later), owner, answers, h.err, errs);
  }

  lemma SparesMore(a: World, b: World, c: World, todo: seq<ChildSpec>, owner: map<string, Child>, skip: Option<string>)
    requires todo != [] && Some(todo[0].name) != skip && SparesOthers(b, c, todo[1..], owner, skip)
    requires forall n :: n != todo[0].name ==> Live(b.procs, owner, n) == Live(a.procs, owner, n)
    ensures SparesOthers(a, c, todo, owner, skip)
  {
    forall n ensures Named(todo, n) <==> n == todo[0].name || Named(todo[1..], n) { NamedTail(todo, n); }
  }

  lemma {:induction false} ChosenNamed(todo: seq<ChildSpec>, skip: Option<string>, answered: set<string>)
    ensures forall name :: name in Chosen(todo, skip, answered) ==> Named(todo, name)
  {
    if todo != [] {
      ChosenNamed(todo[1..], skip, answered);
      forall n ensures Named(todo, n) <==> n == todo[0].name || Named(todo[1..], n) { NamedTail(todo, n); }
    }
  }

  /** Later stops report other children. */
  lemma {:induction false} LaterNames(b: World, c: World, rest: seq<ChildSpec>, owner: map<string, Child>,
                                      skip: Option<string>, later: set<string>, name: string)
    requires b.trace <= c.trace && StopReport(c.trace[|b.trace|..], Chosen(rest, skip, later), owner)
    requires !Named(rest, name) && AllRecorded(b.procs, owner)
    ensures forall k :: |b.trace| <= k < |c.trace| ==> c.trace[k].name != name
  {
    var names := Chosen(rest, skip, later);
    ChosenNamed(rest, skip, later);
    forall k | |b.trace| <= k < |c.trace| ensures c.trace[k].name != name {
      var j := k - |b.trace|;
      assert c.trace[|b.trace|..][j] == c.trace[k];
      assert names[j] in names && IsStopEvent(c.trace[k], owner[names[j]], c.trace[k].err);
      assert Recorded(b.procs, owner, names[j]);
    }
  }

  /** The report of one stop, and of all that come after it, in terms of the goroutines before and after them all. */
  lemma TellsMore(a: World, b: World, c: World, owner: map<string, Child>, name: string, answers: bool,
                  err: Option<Error>)
    requires AllRecorded(a.procs, owner) && name in owner && Grows(a.procs, b.procs) && Grows(b.procs, c.procs)
    requires a.trace <= b.trace <= c.trace
    requires forall n :: n != name ==> Live(b.procs, owner, n) == Live(a.procs, owner, n)
    requires Live(c.procs, owner, name) == Live(b.procs, owner, name)
    requires if answers then |b.trace| == |a.trace| + 1 && b.trace[|a.trace|].name == name
                             && b.trace[|a.trace|].err == err && TellsStop(a.procs, b.procs, owner, name, err)
             else b.trace == a.trace
    requires TellsStops(b.procs, c.procs, owner, c.trace[|b.trace|..])
    requires forall k :: |b.trace| <= k < |c.trace| ==> c.trace[k].name != name
    ensures TellsStops(a.procs, c.procs, owner, c.trace[|a.trace|..])
  {
    var evs := c.trace[|a.trace|..];
    forall k | 0 <= k < |evs| ensures TellsStop(a.procs, c.procs, owner, evs[k].name, evs[k].err) {
      if |a.trace| + k < |b.trace| {
        assert evs[k] == b.trace[|a.trace|];
        TellsHead(a.procs, b.procs, c.procs, owner, name, err);
      } else {
        var j := |a.trace| + k - |b.trace|;
        assert evs[k] == c.trace[|b.trace|..][j] == c.trace[|a.trace| + k];
        TellsTail(a.procs, b.procs, c.procs, owner, evs[k].name, evs[k].err);
      }
    }
  }

  lemma TellsHead(a: seq<Proc>, b: seq<Proc>, c: seq<Proc>, owner: map<string, Child>, name: string,
                  err: Option<Error>)
    requires Grows(b, c) && TellsStop(a, b, owner, name, err) && Live(c, owner, name) == Live(b, owner, name)
    ensures TellsStop(a, c, owner, name, err)
  {
    assert Grown(b[owner[name].id], c[owner[name].id]);
  }

  lemma TellsTail(a: seq<Proc>, b: seq<Proc>, c: seq<Proc>, owner: map<string, Child>, name: string,
                  err: Option<Error>)
    requires AllRecorded(a, owner) && Grows(a, b) && TellsStop(b, c, owner, name, err)
    requires Live(b, owner, name) == Live(a, owner, name)
    ensures TellsStop(a, c, owner, name, err)
  {
    assert Recorded(a, owner, name);
  }

  lemma {:induction false} ChosenMore(todo: seq<ChildSpec>, skip: Option<string>, answers: bool, later: set<string>)
    requires todo != [] && DynSlice.DistinctNames(todo) && Some(todo[0].name) != skip
    requires forall name :: name in later ==> Named(todo[1..], name)
    ensures Chosen(todo, skip, if answers then later + {todo[0].name} else later)
            == (if answers then [todo[0].name] else []) + Chosen(todo[1..], skip, later)
  {
    HeadIsAlone(todo);
    assert todo[0].name !in later;
    ChosenSame(todo[1..], skip, later, if answers then later + {todo[0].name} else later);
  }

  lemma AnsweredMore(a: World, b: World, c: World, todo: seq<ChildSpec>, owner: map<string, Child>,
                     skip: Option<string>, answers: bool, later: set<string>)
    requires todo != [] && todo[0].name in owner && Some(todo[0].name) != skip && Grows(b.procs, c.procs)
    requires DynSlice.DistinctNames(todo) && Answered(a, b, owner, todo[0].name, answers)
    requires forall n :: n != todo[0].name ==> Live(b.procs, owner, n) == Live(a.procs, owner, n)
    requires forall n :: n in later ==> n in owner && Visits(todo[1..], skip, n)
    requires forall n :: n in owner && Visits(todo[1..], skip, n) ==> Answered(b, c, owner, n, n in later)
    ensures var answered := if answers then later + {todo[0].name} else later;
            && (forall n :: n in answered ==> n in owner && Visits(todo, skip, n))
            && (forall n :: n in owner && Visits(todo, skip, n) ==> Answered(a, c, owner, n, n in answered))
  {
    var name, rest := todo[0].name, todo[1..];
    var answered := if answers then later + {name} else later;
    HeadIsAlone(todo);
    assert name !in later;
    forall n ensures Named(todo, n) <==> n == name || Named(rest, n) { NamedTail(todo, n); }
    forall n | n in owner && Visits(todo, skip, n) ensures Answered(a, c, owner, n, n in answered) {
      if n == name {
        if owner[n].id < |b.procs| { assert Grown(b.procs[owner[n].id], c.procs[owner[n].id]); }
      } else {
        assert Answered(b, c, owner, n, n in later);
      }
    }
  }

  lemma HeadIsAlone(todo: seq<ChildSpec>)
    requires todo != [] && DynSlice.DistinctNames(todo)
    ensures !Named(todo[1..], todo[0].name)
  {
    forall spec | spec in todo[1..] ensures spec.name != todo[0].name {
      var i :| 0 <= i < |todo[1..]| && todo[1..][i] == spec;
      assert todo[i + 1] == spec;
    }
  }

  /** Without accidents the children that answer are exactly those that were live. */
  lemma {:induction false} ChosenAreSurvivors(procs: seq<Proc>, todo: seq<ChildSpec>, owner: map<string, Child>,
                                              skip: Option<string>, answered: set<string>)
    requires forall spec ::
               spec in todo && Some(spec.name) != skip ==> (spec.name in answered <==> Live(procs, owner, spec.name))
    ensures Chosen(todo, skip, answered) == Survivors(procs, owner, todo, skip)
  {
    if todo != [] {
      assert todo[0] in todo;
      ChosenAreSurvivors(procs, todo[1..], owner, skip, answered);
    }
  }

  // ----- Starting many ----------------------------------------------------------------------------

  /** What starting `todo` in turn reports, with incarnations numbered from `base`. */
  function StartEvents(todo: seq<ChildSpec>, base: nat): seq<Event> {
    if todo == [] then []
    else (if todo[0].tag.Worker? then [Event(Started, Worker, todo[0].name, base, None)] else [])
         + StartEvents(todo[1..], base + 1)
  }

  ghost predicate Covered(specs: seq<ChildSpec>, owner: map<string, Child>) {
    forall name :: name in owner ==> Named(specs, name)
  }

  /** Every child of the map runs an incarnation that did not exist before number `base`. */
  ghost predicate FreshFrom(owner: map<string, Child>, names: seq<ChildSpec>, base: nat) {
    forall spec :: spec in names ==> spec.name in owner && owner[spec.name].id >= base && owner[spec.name].spec == spec
  }

  lemma SortedNames(o: Order, specs: seq<ChildSpec>)
    requires DynSlice.DistinctNames(specs)
    ensures DynSlice.DistinctNames(SortStart(o, specs)) && DynSlice.DistinctNames(SortTermination(o, specs))
    ensures forall n :: Named(SortStart(o, specs), n) == Named(specs, n)
    ensures forall n :: Named(SortTermination(o, specs), n) == Named(specs, n)
  {
    StopReversesStart(o, specs);
    var a, b := SortStart(o, specs), SortTermination(o, specs);
    forall n
      ensures Named(a, n) == Named(specs, n)
      ensures Named(b, n) == Named(specs, n)
    {
      if Named(specs, n) {
        var spec :| spec in specs && spec.name == n;
        assert spec in a && spec in b;
      }
    }
  }

  lemma {:induction false} StopEverybody(o: Oracle, w: World, order: Order, specs: seq<ChildSpec>,
                                         owner: map<string, Child>, errs: map<string, Error>)
    requires Balanced(w, owner) && DynSlice.DistinctNames(specs) && Covered(specs, owner)
    requires FaultFree(TerminateChildNodes(o, w, SortTermination(order, specs), owner, None, errs).w.procs)
    ensures var h := TerminateChildNodes(o, w, SortTermination(order, specs), owner, None, errs);
            && Stopped(w, h, SortTermination(order, specs), owner, None, errs)
            && Balanced(h.w, map[]) && AllDelivered(h.w.procs)
  {
    SortedNames(order, specs);
    var todo := SortTermination(order, specs);
    StopAll(o, w, todo, owner, None, errs);
    NobodyLeft(w, TerminateChildNodes(o, w, todo, owner, None, errs), specs, todo, owner, errs);
  }

  lemma NobodyLeft(w: World, h: Halts, specs: seq<ChildSpec>, todo: seq<ChildSpec>, owner: map<string, Child>,
                   errs: map<string, Error>)
    requires Stopped(w, h, todo, owner, None, errs) && Covered(specs, owner)
    requires forall n :: Named(todo, n) == Named(specs, n)
    ensures Balanced(h.w, map[]) && AllDelivered(h.w.procs)
  {
    forall n | n in owner ensures !Live(h.w.procs, owner, n) {
      assert Visits(todo, None, n);
    }
    LedgerForget(h.w, owner, map[]);
    forall id | 0 <= id < |h.w.procs| && h.w.procs[id].started ensures !Undelivered(h.w.procs[id]) {
      assert Accounted(h.w.procs, map[], id);
    }
  }

  /** One start, as `startChildNode` reports it. */
  lemma StartOne(o: Oracle, w: World, owner: map<string, Child>, spec: ChildSpec)
    requires Balanced(w, owner) && (StartChildNode(o, w, spec).err.None? ==> !Live(w.procs, owner, spec.name))
    ensures var s := StartChildNode(o, w, spec);
            && (s.err.Some? ==> Balanced(s.w, owner))
            && (s.err.None?
                ==> Balanced(s.w, owner[spec.name := s.child]) && s.w.trace == w.trace + StartEvents([spec], |w.procs|))
  {
    LedgerDoStart(o, w, owner, spec);
    InterfereKeeps(o, w);
    var s := DoStart(o, w, spec);
    if s.err.Some? {
      LedgerFailedStart(s.w, owner, Event(StartFailed, spec.tag, spec.name, s.child.id, s.err));
    } else {
      assert StartEvents([spec][1..], |w.procs| + 1) == [];
    }
  }

  /** What `startChildNodes` does when no timer fires: either every spec gets a fresh incarnation,
      reported in start order, or the rollback stops everything that had been started and the empty map
      it returns loses nobody. */
  ghost predicate Launched(w: World, l: Launch, specs: seq<ChildSpec>, todo: seq<ChildSpec>, acc: map<string, Child>) {
    && Balanced(l.w, l.children) && Covered(specs, l.children)
    && (l.err.None? ==>
          && l.w.trace == w.trace + StartEvents(todo, |w.procs|)
          && |l.w.procs| == |w.procs| + |todo|
          && (forall name :: name in l.children <==> name in acc || Named(todo, name))
          && (forall name :: name in acc ==> name in l.children && l.children[name] == acc[name])
          && FreshFrom(l.children, todo, |w.procs|))
    && (l.err.Some? ==> l.children == map[] && AllDelivered(l.w.procs))
  }

  lemma LaunchedCons(w: World, s: Spawned, l: Launch, specs: seq<ChildSpec>, todo: seq<ChildSpec>,
                     acc: map<string, Child>)
    requires todo != [] && todo[0].name !in acc && DynSlice.DistinctNames(todo)
    requires s.child == Child(|w.procs|, todo[0]) && |s.w.procs| == |w.procs| + 1
    requires s.w.trace == w.trace + StartEvents([todo[0]], |w.procs|)
    requires Launched(s.w, l, specs, todo[1..], acc[todo[0].name := s.child])
    ensures Launched(w, l, specs, todo, acc)
  {
    if l.err.None? {
      StartEventsSplit(todo, |w.procs|);
      assert l.w.trace == w.trace + (StartEvents([todo[0]], |w.procs|) + StartEvents(todo[1..], |w.procs| + 1));
      EntriesCons(|w.procs|, l.children, todo, acc);
    }
  }

  lemma EntriesCons(base: nat, children: map<string, Child>, todo: seq<ChildSpec>, acc: map<string, Child>)
    requires todo != [] && todo[0].name !in acc
    requires var acc' := acc[todo[0].name := Child(base, todo[0])];
             && (forall name :: name in children <==> name in acc' || Named(todo[1..], name))
             && (forall name :: name in acc' ==> name in children && children[name] == acc'[name])
    requires FreshFrom(children, todo[1..], base + 1)
    ensures forall name :: name in children <==> name in acc || Named(todo, name)
    ensures forall name :: name in acc ==> name in children && children[name] == acc[name]
    ensures FreshFrom(children, todo, base)
  {
    var acc' := acc[todo[0].name := Child(base, todo[0])];
    forall name ensures name in children <==> name in acc || Named(todo, name) {
      NamedTail(todo, name);
    }
    forall spec | spec in todo
      ensures spec.name in children && children[spec.name].id >= base && children[spec.name].spec == spec
    {
      if spec == todo[0] { assert todo[0].name in acc'; } else { assert spec in todo[1..]; }
    }
  }

  lemma {:induction false} StartAll(o: Oracle, w: World, order: Order, specs: seq<ChildSpec>,
                                    todo: seq<ChildSpec>, acc: map<string, Child>)
    requires Balanced(w, acc) && DynSlice.DistinctNames(specs) && DynSlice.DistinctNames(todo)
    requires Covered(specs, acc)
    requires forall spec :: spec in todo ==> spec.name !in acc && Named(specs, spec.name)
    requires FaultFree(StartChildNodes(o, w, order, specs, todo, acc).w.procs)
    ensures Launched(w, StartChildNodes(o, w, order, specs, todo, acc), specs, todo, acc)
    decreases |todo|
  {
    if todo == [] {
      assert StartEvents(todo, |w.procs|) == [];
      assert w.trace + [] == w.trace;
    } else {
      var spec := todo[0];
      assert spec in todo;
      var s := StartChildNode(o, w, spec);
      StartOne(o, w, acc, spec);
      StartChildNodeGrows(o, w, spec);
      if s.err.Some? {
        StopEverybody(o, s.w, order, specs, acc, map[]);
      } else {
        var acc' := acc[spec.name := s.child];
        forall t | t in todo[1..] ensures t.name !in acc' && Named(specs, t.name) {
          assert t in todo;
        }
        StartAll(o, s.w, order, specs, todo[1..], acc');
        LaunchedCons(w, s, StartChildNodes(o, w, order, specs, todo, acc), specs, todo, acc);
      }
    }
  }

  lemma StartEventsSplit(todo: seq<ChildSpec>, base: nat)
    requires todo != []
    ensures StartEvents(todo, base) == StartEvents([todo[0]], base) + StartEvents(todo[1..], base + 1)
  {
    var own := if todo[0].tag.Worker? then [Event(Started, Worker, todo[0].name, base, None)] else [];
    var one := [todo[0]];
    assert one[1..] == [] && StartEvents(one[1..], base + 1) == [];
    assert StartEvents(one, base) == own + [] == own;
    assert StartEvents(todo, base) == own + StartEvents(todo[1..], base + 1);
  }
}
