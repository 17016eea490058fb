/** Restart policies under one-for-one: which names leave the children map, and that they never
    come back. */
module Retirement {
  import opened Types
  import opened Ordering
  import opened Engine
  import opened Ledger
  import opened Operations
  import opened Runs
  import opened Conservation
  import DynSlice
  import NilMap
  import Stepping
  import Tolerance

  /** An end after which the policy does not ask for a restart. */
  predicate EndsForGood(r: Restart, err: Option<Error>) {
    r.Temporary? || (r.Transient? && err.None?)
  }

  predicate RetiredBy(p: Proc, spec: ChildSpec) {
    p.spec == spec && p.started && p.phase.Gone? && p.phase.route.ViaNotify? && EndsForGood(spec.restart, p.phase.err)
  }

  /** Has an incarnation of `spec` ended for good in front of the monitor loop? */
  ghost predicate Retired(procs: seq<Proc>, spec: ChildSpec) {
    exists id :: 0 <= id < |procs| && RetiredBy(procs[id], spec)
  }

  lemma RetiredForEver(a: World, b: World, spec: ChildSpec)
    requires Continues(a, b) && Retired(a.procs, spec)
    ensures Retired(b.procs, spec)
  {
    var id :| 0 <= id < |a.procs| && RetiredBy(a.procs[id], spec);
    assert Grown(a.procs[id], b.procs[id]);
    assert RetiredBy(b.procs[id], spec);
  }

  predicate InMapUnlessRetired(s: Sys, spec: ChildSpec, retired: bool) {
    spec.name in s.children <==> !retired
  }

  /** A retired spec is still listed, so nobody can take its name. */
  predicate ListedIfRetired(procs: seq<Proc>, specs: seq<ChildSpec>, id: nat)
    requires id < |procs|
  {
    RetiredBy(procs[id], procs[id].spec) ==> procs[id].spec in specs
  }

  ghost predicate Roster(s: Sys) {
    && (forall spec :: spec in s.specs ==> InMapUnlessRetired(s, spec, Retired(s.w.procs, spec)))
    && (forall id :: 0 <= id < |s.w.procs| ==> ListedIfRetired(s.w.procs, s.specs, id))
    && (forall name :: name in s.children ==> s.children[name].spec in s.specs && s.children[name].spec.name == name)
    && (s.status.Restarting? ==> var spec := s.status.source.spec; spec in s.specs && spec.name in s.children)
  }

  // ----- Preservation ---------------------------------------------------------------------------

  /** Nothing retires by itself or by being told to stop. */
  predicate SameStanding(p: Proc, q: Proc) {
    && q.spec == p.spec && q.started == p.started
    && (q.phase == p.phase || (!p.phase.Gone? && (q.phase.Gone? ==> q.phase.route.ViaTerminate?)))
  }

  ghost predicate AllSameStanding(a: seq<Proc>, b: seq<Proc>) {
    |a| == |b| && forall id :: 0 <= id < |a| ==> SameStanding(a[id], b[id])
  }

  lemma StandingTrans(a: seq<Proc>, b: seq<Proc>, c: seq<Proc>)
    requires AllSameStanding(a, b) && AllSameStanding(b, c)
    ensures AllSameStanding(a, c)
  {
    forall id | 0 <= id < |a| ensures SameStanding(a[id], c[id]) {
      assert SameStanding(a[id], b[id]) && SameStanding(b[id], c[id]);
    }
  }

  lemma RetiredSame(a: seq<Proc>, b: seq<Proc>, spec: ChildSpec)
    requires AllSameStanding(a, b)
    ensures Retired(a, spec) == Retired(b, spec)
  {
    if Retired(a, spec) {
      var id :| 0 <= id < |a| && RetiredBy(a[id], spec);
      assert SameStanding(a[id], b[id]) && RetiredBy(b[id], spec);
    }
    if Retired(b, spec) {
      var id :| 0 <= id < |b| && RetiredBy(b[id], spec);
      assert SameStanding(a[id], b[id]) && RetiredBy(a[id], spec);
    }
  }

  lemma ListedSame(a: seq<Proc>, b: seq<Proc>, specs: seq<ChildSpec>, id: nat)
    requires AllSameStanding(a, b) && id < |a| && ListedIfRetired(a, specs, id)
    ensures ListedIfRetired(b, specs, id)
  {
    assert SameStanding(a[id], b[id]);
  }

  /** A change that retires nobody. */
  lemma RosterSame(s: Sys, s': Sys)
    requires Roster(s) && s'.specs == s.specs && s'.children == s.children && AllSameStanding(s.w.procs, s'.w.procs)
    requires s'.status.Restarting? ==> var spec := s'.status.source.spec; spec in s.specs && spec.name in s.children
    ensures Roster(s')
  {
    forall spec | spec in s.specs ensures InMapUnlessRetired(s', spec, Retired(s'.w.procs, spec)) {
      RetiredSame(s.w.procs, s'.w.procs, spec);
      assert InMapUnlessRetired(s, spec, Retired(s.w.procs, spec));
    }
    forall id | 0 <= id < |s'.w.procs| ensures ListedIfRetired(s'.w.procs, s.specs, id) {
      ListedSame(s.w.procs, s'.w.procs, s.specs, id);
    }
  }

  lemma StandingInterfere(o: Oracle, w: World)
    ensures AllSameStanding(w.procs, Interfere(o, w).procs)
  {
    SettleDrifts(w.procs, o(w.tick).exits);
  }

  lemma StandingTerminate(o: Oracle, w: World, ch: Child)
    ensures AllSameStanding(w.procs, TerminateChildNode(o, w, ch).w.procs)
  {
    SettleDrifts(w.procs, o(w.tick).exits);
  }

  lemma {:induction false} StandingTerminateAll(o: Oracle, w: World, todo: seq<ChildSpec>, children: map<string, Child>,
                                                skip: Option<string>, errs: map<string, Error>)
    ensures AllSameStanding(w.procs, TerminateChildNodes(o, w, todo, children, skip, errs).w.procs)
    decreases |todo|
  {
    if todo != [] {
      var name := todo[0].name;
      if Some(name) == skip || name !in children {
        StandingTerminateAll(o, w, todo[1..], children, skip, errs);
      } else {
        var h := TerminateChildNode(o, w, children[name]);
        var errs' := if h.err.Some? then errs[name := h.err.value] else errs;
        StandingTerminate(o, w, children[name]);
        StandingTerminateAll(o, h.w, todo[1..], children, skip, errs');
        StandingTrans(w.procs, h.w.procs, TerminateChildNodes(o, h.w, todo[1..], children, skip, errs').w.procs);
      }
    }
  }

  lemma RosterInterfere(o: Oracle, s: Sys)
    requires Roster(s)
    ensures Roster(s.(w := Interfere(o, s.w)))
  {
    StandingInterfere(o, s.w);
    RosterSame(s, s.(w := Interfere(o, s.w)));
  }

  lemma RosterShutdown(o: Oracle, cfg: Config, s: Sys, r: Option<GaveUp>)
    requires Roster(s)
    ensures Roster(TerminateSupervisor(o, cfg, s, r))
  {
    var todo := SortTermination(cfg.order, s.specs);
    var h := TerminateChildNodes(o, s.w, todo, s.children, None, map[]);
    StandingTerminateAll(o, s.w, todo, s.children, None, map[]);
    StandingInterfere(o, h.w);
    StandingTrans(s.w.procs, h.w.procs, Interfere(o, h.w).procs);
    RosterSame(s, TerminateSupervisor(o, cfg, s, r));
  }

  lemma RetiredOneMore(procs: seq<Proc>, id: nat, q: Proc, spec: ChildSpec)
    requires id < |procs| && !procs[id].phase.Gone?
    ensures Retired(procs[id := q], spec) <==> Retired(procs, spec) || RetiredBy(q, spec)
  {
    var after := procs[id := q];
    if Retired(procs, spec) {
      var i :| 0 <= i < |procs| && RetiredBy(procs[i], spec);
      assert RetiredBy(after[i], spec);
    }
    if RetiredBy(q, spec) { assert RetiredBy(after[id], spec); }
    if Retired(after, spec) {
      var i :| 0 <= i < |after| && RetiredBy(after[i], spec);
      if i != id { assert RetiredBy(procs[i], spec); }
    }
  }

  lemma RosterNotification(s: Sys, id: nat)
    requires Roster(s) && Balanced(s.w, s.children) && s.status.Looping? && DynSlice.DistinctNames(s.specs)
    requires id < |s.w.procs| && s.w.procs[id].phase.Exiting?
    requires FaultFree(HandleNotification(s, id).w.procs)
    ensures Roster(HandleNotification(s, id))
  {
    var p := s.w.procs[id];
    var name := p.spec.name;
    var s' := HandleNotification(s, id);
    var q := Receive(s.w, id, !p.started).procs[id];
    HandlingMeans(s, id);
    assert s'.w.procs == s.w.procs[id := q];
    assert Sound(s'.w.procs[id]);
    assert Accounted(s.w.procs, s.children, id);
    assert Recorded(s.w.procs, s.children, name);
    HandlingRetires(s, id);
    forall spec | spec in s.specs ensures InMapUnlessRetired(s', spec, Retired(s'.w.procs, spec)) {
      assert InMapUnlessRetired(s, spec, Retired(s.w.procs, spec));
      RetiredOneMore(s.w.procs, id, q, spec);
      if spec.name == name { SameSpec(s.specs, spec, p.spec); }
    }
    forall i | 0 <= i < |s'.w.procs| ensures ListedIfRetired(s'.w.procs, s.specs, i) {
      assert ListedIfRetired(s.w.procs, s.specs, i);
    }
  }

  lemma SameSpec(specs: seq<ChildSpec>, a: ChildSpec, b: ChildSpec)
    requires DynSlice.DistinctNames(specs) && a in specs && b in specs && a.name == b.name
    ensures a == b
  {}

  /** The loop goes on without the child exactly when its end was for good. */
  lemma HandlingRetires(s: Sys, id: nat)
    requires s.status.Looping? && id < |s.w.procs| && s.w.procs[id].phase.Exiting?
    requires s.w.procs[id].spec.name in s.children
    ensures var source := s.children[s.w.procs[id].spec.name];
            HandleNotification(s, id).status.Looping? <==> EndsForGood(source.spec.restart, s.w.procs[id].phase.err)
  {}

  lemma RetiredAppend(procs: seq<Proc>, q: Proc, spec: ChildSpec)
    requires !q.phase.Gone?
    ensures Retired(procs + [q], spec) == Retired(procs, spec)
  {
    var after := procs + [q];
    if Retired(procs, spec) {
      var i :| 0 <= i < |procs| && RetiredBy(procs[i], spec);
      assert RetiredBy(after[i], spec);
    }
    if Retired(after, spec) {
      var i :| 0 <= i < |after| && RetiredBy(after[i], spec);
      assert i < |procs| && RetiredBy(procs[i], spec);
    }
  }

  /** A new goroutine, and perhaps a new entry under the name of a spec that has one or is new. */
  lemma RosterStarted(s: Sys, q: Proc, s': Sys)
    requires Roster(s) && !q.phase.Gone? && s'.w.procs == s.w.procs + [q] && DynSlice.DistinctNames(s'.specs)
    requires (s'.children == s.children && s'.specs == s.specs)
             || (s'.children == s.children[q.spec.name := Child(|s.w.procs|, q.spec)]
                 && (s'.specs == s.specs + [q.spec]
                     || (s'.specs == s.specs && q.spec in s.specs && q.spec.name in s.children)))
    requires s'.status.Restarting? ==> var spec := s'.status.source.spec; spec in s.specs && spec.name in s.children
    ensures Roster(s')
  {
    forall spec | spec in s'.specs ensures InMapUnlessRetired(s', spec, Retired(s'.w.procs, spec)) {
      RetiredAppend(s.w.procs, q, spec);
      if spec in s.specs {
        assert InMapUnlessRetired(s, spec, Retired(s.w.procs, spec));
        if s'.specs == s.specs + [q.spec] { NewNameIsNew(s.specs, q.spec, spec); }
      } else {
        assert spec == q.spec;
        UnlistedIsNew(s, spec);
      }
    }
    forall id | 0 <= id < |s'.w.procs| ensures ListedIfRetired(s'.w.procs, s'.specs, id) {
      if id < |s.w.procs| { assert ListedIfRetired(s.w.procs, s.specs, id); }
    }
  }

  lemma UnlistedIsNew(s: Sys, spec: ChildSpec)
    requires Roster(s) && spec !in s.specs
    ensures !Retired(s.w.procs, spec)
  {
    forall id | 0 <= id < |s.w.procs| ensures !RetiredBy(s.w.procs[id], spec) {
      assert ListedIfRetired(s.w.procs, s.specs, id);
    }
  }

  lemma NewNameIsNew(specs: seq<ChildSpec>, spec: ChildSpec, x: ChildSpec)
    requires DynSlice.DistinctNames(specs + [spec]) && x in specs
    ensures x.name != spec.name
  {
    var i :| 0 <= i < |specs| && specs[i] == x;
    assert (specs + [spec])[i] == x && (specs + [spec])[|specs|] == spec;
  }

  lemma RosterRestart(o: Oracle, s: Sys, source: Child)
    requires Roster(s) && s.status.Restarting? && s.status.source == source && DynSlice.DistinctNames(s.specs)
    ensures Roster(OneForOneRestart(o, s, source))
  {
    RosterInterfere(o, s);
    var w1 := Interfere(o, s.w);
    RosterStarted(s.(w := w1), DoStart(o, s.w, source.spec).w.procs[|w1.procs|], OneForOneRestart(o, s, source));
  }

  lemma RosterSpawn(o: Oracle, s: Sys, spec: ChildSpec)
    requires Roster(s) && s.status.Looping? && !s.mapNil && DynSlice.DistinctNames(s.specs)
    requires DynSlice.DistinctNames(SpawnChild(o, s, spec).specs)
    ensures Roster(SpawnChild(o, s, spec))
  {
    RosterInterfere(o, s);
    var w1 := Interfere(o, s.w);
    RosterStarted(s.(w := w1), DoStart(o, s.w, spec).w.procs[|w1.procs|], SpawnChild(o, s, spec));
  }

  lemma {:induction false} RosterStop(o: Oracle, s: Sys, name: string)
    requires Roster(s) && s.status.Looping? && DynSlice.DistinctNames(s.specs)
    ensures Roster(StopChild(o, s, name))
  {
    if name in s.children {
      DynSlice.DeleteWithDistinctNames(s.specs, name);
      StandingTerminate(o, s.w, s.children[name]);
      var s' := StopChild(o, s, name);
      assert s.children[name].spec in s.specs;
      assert s'.specs == DynSlice.Without(s.specs, name) && s'.children == s.children - {name};
      forall spec | spec in s'.specs ensures InMapUnlessRetired(s', spec, Retired(s'.w.procs, spec)) {
        RetiredSame(s.w.procs, s'.w.procs, spec);
        assert InMapUnlessRetired(s, spec, Retired(s.w.procs, spec));
      }
      forall id | 0 <= id < |s'.w.procs| ensures ListedIfRetired(s'.w.procs, s'.specs, id) {
        StaysListed(s, s', name, id);
      }
    }
  }

  lemma {:induction false} StaysListed(s: Sys, s': Sys, name: string, id: nat)
    requires Roster(s) && name in s.children && AllSameStanding(s.w.procs, s'.w.procs) && id < |s.w.procs|
    requires s'.specs == DynSlice.Without(s.specs, name)
    ensures ListedIfRetired(s'.w.procs, s'.specs, id)
  {
    assert SameStanding(s.w.procs[id], s'.w.procs[id]);
    var spec := s.w.procs[id].spec;
    assert ListedIfRetired(s.w.procs, s.specs, id);
    if RetiredBy(s'.w.procs[id], spec) {
      assert RetiredBy(s.w.procs[id], spec);
      assert Retired(s.w.procs, spec);
      assert InMapUnlessRetired(s, spec, true);
    }
  }

  lemma RosterDrain(o: Oracle, s: Sys)
    requires Roster(s) && s.status.Draining? && FaultFree(Drain(o, s).w.procs)
    ensures Roster(Drain(o, s))
  {
    RosterInterfere(o, s);
    var s1, s' := s.(w := Interfere(o, s.w)), Drain(o, s);
    if s'.status.Looping? {
      var id := Offering(s1.w.procs, o(s.w.tick).drain).value;
      assert Sound(s'.w.procs[id]);
      var q := s'.w.procs[id];
      assert s'.w.procs == s1.w.procs[id := q] && !q.started;
      forall spec | spec in s.specs ensures InMapUnlessRetired(s', spec, Retired(s'.w.procs, spec)) {
        RetiredOneMore(s1.w.procs, id, q, spec);
        assert InMapUnlessRetired(s1, spec, Retired(s1.w.procs, spec));
      }
      forall i | 0 <= i < |s'.w.procs| ensures ListedIfRetired(s'.w.procs, s.specs, i) {
        assert ListedIfRetired(s1.w.procs, s.specs, i);
      }
    }
  }

  lemma RosterBackoff(o: Oracle, cfg: Config, s: Sys, source: Child)
    requires Roster(s) && s.status.Restarting? && s.status.source == source && DynSlice.DistinctNames(s.specs)
    requires cfg.strategy.OneForOne?
    ensures Roster(BackoffAndRestart(o, cfg, s, source))
  {
    RosterInterfere(o, s);
    RosterRestart(o, s, source);
    RosterRestart(o, s.(w := Interfere(o, s.w)), source);
  }

  lemma RosterIteration(o: Oracle, cfg: Config, s: Sys, source: Child, prev: Option<Error>)
    requires Roster(s) && s.status == Restarting(source, prev) && DynSlice.DistinctNames(s.specs)
             && cfg.strategy.OneForOne?
    ensures Roster(RestartIteration(o, cfg, s, source, prev))
  {
    if prev.None? {
      RosterBackoff(o, cfg, s, source);
    } else {
      var a := Tolerance.Admit(s.mgr, prev.value, o(s.w.tick).clock);
      var s1 := s.(w := Interfere(o, s.w), mgr := a.mgr);
      RosterInterfere(o, s);
      if a.ok {
        RosterBackoff(o, cfg, s1, source);
      } else {
        RosterShutdown(o, cfg, s1,
                       Some(GaveUp(source.spec.name, cfg.policy.max, cfg.policy.window, a.mgr.source, prev.value)));
      }
    }
  }

  lemma RosterTurn(o: Oracle, cfg: Config, s: Sys)
    requires Roster(s) && Good(s) && s.status.Looping? && !s.mapNil && FaultFree(LoopTurn(o, cfg, s).w.procs)
    requires DynSlice.DistinctNames(s.specs) && DynSlice.DistinctNames(LoopTurn(o, cfg, s).specs)
    ensures Roster(LoopTurn(o, cfg, s))
  {
    RosterInterfere(o, s);
    LedgerInterfere(o, s.w, s.children);
    var s1 := s.(w := Interfere(o, s.w));
    match o(s.w.tick).turn {
      case Shutdown => if s1.w.done { RosterShutdown(o, cfg, s1, None); }
      case Notify(id) => if id < |s1.w.procs| && s1.w.procs[id].phase.Exiting? { RosterNotification(s1, id); }
      case Spawn(spec) => RosterSpawn(o, s1, spec);
      case Stop(name) => RosterStop(o, s1, name);
    }
  }

  /** The claim concerns every supervisor that could start. */
  ghost predicate RosterOnceStarted(s: Sys) {
    s.status.StartAborted? || (Roster(s) && !s.mapNil && !s.status.Panicked?)
  }

  lemma RosterStep(o: Oracle, cfg: Config, s: Sys)
    requires cfg.strategy.OneForOne? && RosterOnceStarted(s) && Good(s) && Unharmed(cfg, s)
             && Unharmed(cfg, Step(o, cfg, s))
    ensures RosterOnceStarted(Step(o, cfg, s))
  {
    StepIsGood(o, cfg, s);
    NilMap.NilStepHolds(o, cfg, s);
    match s.status {
      case Looping => RosterTurn(o, cfg, s);
      case Restarting(source, prev) => RosterIteration(o, cfg, s, source, prev);
      case Draining => RosterDrain(o, s);
      case _ =>
    }
  }

  // ----- Start ----------------------------------------------------------------------------------------

  /** The goroutines after a start, whether it succeeds or not: a part of the specs, in start order. */
  ghost predicate StartedInOrder(procs: seq<Proc>, base: seq<Proc>, todo: seq<ChildSpec>) {
    && |base| <= |procs| <= |base| + |todo|
    && (forall id :: 0 <= id < |base| ==> procs[id].spec == base[id].spec)
    && (forall id :: |base| <= id < |procs| ==> procs[id].spec == todo[id - |base|])
  }

  lemma {:induction false} StartAllProcs(o: Oracle, w: World, order: Order, specs: seq<ChildSpec>,
                                         todo: seq<ChildSpec>, acc: map<string, Child>)
    ensures StartedInOrder(StartChildNodes(o, w, order, specs, todo, acc).w.procs, w.procs, todo)
    decreases |todo|
  {
    if todo != [] {
      var s := StartChildNode(o, w, todo[0]);
      SettleDrifts(w.procs, o(w.tick).exits);
      var l := StartChildNodes(o, w, order, specs, todo, acc);
      if s.err.Some? {
        StandingTerminateAll(o, s.w, SortTermination(order, specs), acc, None, map[]);
        forall id | 0 <= id < |l.w.procs| ensures l.w.procs[id].spec == s.w.procs[id].spec {
          assert SameStanding(s.w.procs[id], l.w.procs[id]);
        }
      } else {
        StartAllProcs(o, s.w, order, specs, todo[1..], acc[todo[0].name := s.child]);
        forall id | |w.procs| <= id < |l.w.procs| ensures l.w.procs[id].spec == todo[id - |w.procs|] {
          if id > |w.procs| { assert todo[id - |w.procs|] == todo[1..][id - |s.w.procs|]; }
        }
      }
    }
  }

  /** Nobody has been delivered yet after a start that succeeds, and the entries carry the specs. */
  lemma {:induction false} StartAllFresh(o: Oracle, w: World, order: Order, specs: seq<ChildSpec>,
                                         todo: seq<ChildSpec>, acc: map<string, Child>)
    requires StartChildNodes(o, w, order, specs, todo, acc).err.None?
    requires forall id :: 0 <= id < |w.procs| ==> !w.procs[id].phase.Gone?
    requires forall name :: name in acc ==> acc[name].spec in specs && acc[name].spec.name == name
    requires forall spec :: spec in todo ==> spec in specs
    ensures var l := StartChildNodes(o, w, order, specs, todo, acc);
            && (forall id :: 0 <= id < |l.w.procs| ==> !l.w.procs[id].phase.Gone?)
            && (forall name ::
                  name in l.children ==> l.children[name].spec in specs && l.children[name].spec.name == name)
    decreases |todo|
  {
    if todo != [] {
      var s := StartChildNode(o, w, todo[0]);
      SettleDrifts(w.procs, o(w.tick).exits);
      StartChildNodeGrows(o, w, todo[0]);
      assert todo[0] in todo;
      StartAllFresh(o, s.w, order, specs, todo[1..], acc[todo[0].name := s.child]);
    }
  }

  lemma RosterStart(o: Oracle, cfg: Config, specs: seq<ChildSpec>)
    requires DynSlice.DistinctNames(specs)
    ensures RosterOnceStarted(Start(o, cfg, specs))
  {
    var todo := SortStart(cfg.order, specs);
    var l := StartChildNodes(o, VOID, cfg.order, specs, todo, map[]);
    if l.err.None? {
      StopReversesStart(cfg.order, specs);
      StartAllFresh(o, VOID, cfg.order, specs, todo, map[]);
      StartAllEntries(o, VOID, cfg.order, specs, todo, map[]);
      NamesMembers(todo);
      RosterOfLaunch(l, Start(o, cfg, specs), todo);
    }
  }

  lemma RosterOfLaunch(l: Launch, s: Sys, todo: seq<ChildSpec>)
    requires s.w.procs == l.w.procs && s.children == l.children && s.status.Looping?
    requires forall id :: 0 <= id < |l.w.procs| ==> !l.w.procs[id].phase.Gone?
    requires forall name :: name in l.children <==> Named(todo, name)
    requires forall name ::
               name in l.children ==> l.children[name].spec in s.specs && l.children[name].spec.name == name
    requires forall spec :: spec in s.specs ==> spec in todo
    ensures Roster(s)
  {
    forall spec | spec in s.specs ensures InMapUnlessRetired(s, spec, Retired(s.w.procs, spec)) {
      assert spec in todo && Named(todo, spec.name);
    }
  }

  // ----- The roster over whole runs -----------------------------------------------------------------

  ghost predicate KeepsRoster(cfg: Config, step: Sys -> Sys) {
    forall s :: RosterOnceStarted(s) && Good(s) && Unharmed(cfg, s) && Unharmed(cfg, step(s))
      ==> RosterOnceStarted(step(s))
  }

  lemma {:induction false} RosterAlong(cfg: Config, step: Sys -> Sys, run: nat -> Sys, n: nat)
    requires Stepping.IsRun(step, run) && KeepsRoster(cfg, step) && KeepsGood(cfg, step)
    requires Good(run(0)) && RosterOnceStarted(run(0)) && forall k: nat :: k <= n ==> Unharmed(cfg, run(k))
    ensures RosterOnceStarted(run(n))
  {
    if n > 0 {
      RosterAlong(cfg, step, run, n - 1);
      GoodAlong(cfg, step, run, n - 1);
      assert run(n - 1 + 1) == step(run(n - 1));
      assert Unharmed(cfg, run(n - 1)) && Unharmed(cfg, run(n));
    }
  }

  lemma {:induction false} RosterAlways(o: Oracle, cfg: Config, specs: seq<ChildSpec>, n: nat)
    requires cfg.strategy.OneForOne? && NamesStayDistinct(o, cfg, specs, n) && FaultFree(Run(o, cfg, specs, n).w.procs)
    ensures RosterOnceStarted(Run(o, cfg, specs, n))
  {
    var step, run := Stepper(o, cfg), States(o, cfg, specs);
    StatesAreRun(o, cfg, specs);
    forall s | RosterOnceStarted(s) && Good(s) && Unharmed(cfg, s) && Unharmed(cfg, step(s))
      ensures RosterOnceStarted(step(s))
    {
      RosterStep(o, cfg, s);
    }
    GoodRun(o, cfg, specs, n);
    RosterBegins(o, cfg, specs, n);
    RosterAlong(cfg, step, run, n);
  }

  lemma {:induction false} RosterBegins(o: Oracle, cfg: Config, specs: seq<ChildSpec>, n: nat)
    requires NamesStayDistinct(o, cfg, specs, n)
    ensures RosterOnceStarted(Run(o, cfg, specs, 0))
  {
    assert DynSlice.DistinctNames(Run(o, cfg, specs, 0).specs);
    assert Run(o, cfg, specs, 0) == Start(o, cfg, specs);
    RosterStart(o, cfg, specs);
  }

  /** In every reachable state of a one-for-one supervisor that could start, static or dynamic, the entries of the
      children map are exactly the specs that have not retired. */
  lemma {:induction false} MapIsSpecsMinusRetired(o: Oracle, cfg: Config, specs: seq<ChildSpec>, n: nat)
    requires cfg.strategy.OneForOne? && NamesStayDistinct(o, cfg, specs, n) && FaultFree(Run(o, cfg, specs, n).w.procs)
    requires !Run(o, cfg, specs, n).status.StartAborted?
    ensures var s := Run(o, cfg, specs, n);
            && (forall spec :: spec in s.specs ==> (spec.name in s.children <==> !Retired(s.w.procs, spec)))
            && (forall name ::
                  name in s.children ==> s.children[name].spec in s.specs && s.children[name].spec.name == name)
  {
    RosterAlways(o, cfg, specs, n);
    RosterMeans(Run(o, cfg, specs, n));
  }

  lemma RosterMeans(s: Sys)
    requires Roster(s)
    ensures forall spec :: spec in s.specs ==> (spec.name in s.children <==> !Retired(s.w.procs, spec))
  {
    forall spec | spec in s.specs ensures spec.name in s.children <==> !Retired(s.w.procs, spec) {
      assert InMapUnlessRetired(s, spec, Retired(s.w.procs, spec));
    }
  }

  /** A retired child never comes back: its spec stays listed for ever, without an entry. */
  lemma {:induction false} RetiredNeverReturns(o: Oracle, cfg: Config, specs: seq<ChildSpec>, k: nat, n: nat,
                                               spec: ChildSpec)
    requires cfg.strategy.OneForOne? && k <= n
    requires NamesStayDistinct(o, cfg, specs, n) && FaultFree(Run(o, cfg, specs, n).w.procs)
    requires Retired(Run(o, cfg, specs, k).w.procs, spec) && !Run(o, cfg, specs, n).status.StartAborted?
    ensures spec in Run(o, cfg, specs, n).specs && spec.name !in Run(o, cfg, specs, n).children
  {
    RunContinues(o, cfg, specs, k, n);
    RetiredForEver(Run(o, cfg, specs, k).w, Run(o, cfg, specs, n).w, spec);
    RosterAlways(o, cfg, specs, n);
    RetiredIsListed(Run(o, cfg, specs, n), spec);
  }

  lemma RetiredIsListed(s: Sys, spec: ChildSpec)
    requires Roster(s) && Retired(s.w.procs, spec)
    ensures spec in s.specs && spec.name !in s.children
  {
    var id :| 0 <= id < |s.w.procs| && RetiredBy(s.w.procs[id], spec);
    assert ListedIfRetired(s.w.procs, s.specs, id);
    assert InMapUnlessRetired(s, spec, Retired(s.w.procs, spec));
  }

  // ----- Temporary children -------------------------------------------------------------------------------

  ghost predicate Once(procs: seq<Proc>, spec: ChildSpec) {
    forall i, j :: 0 <= i < j < |procs| && procs[i].spec == spec ==> procs[j].spec != spec
  }

  /** Every temporary spec has at most one goroutine, and nobody is about to restart one. */
  ghost predicate TemporaryOnce(s: Sys) {
    && (forall spec: ChildSpec :: spec.restart.Temporary? ==> Once(s.w.procs, spec))
    && (s.status.Restarting? ==> !s.status.source.spec.restart.Temporary?)
    && !s.status.Draining?
  }

  ghost predicate SameSpecs(a: seq<Proc>, b: seq<Proc>) {
    |a| == |b| && forall id :: 0 <= id < |a| ==> b[id].spec == a[id].spec
  }

  lemma OnceSame(a: seq<Proc>, b: seq<Proc>)
    requires SameSpecs(a, b)
    ensures forall spec: ChildSpec :: Once(a, spec) ==> Once(b, spec)
  {}

  lemma OnceShutdown(o: Oracle, cfg: Config, s: Sys, r: Option<GaveUp>)
    requires TemporaryOnce(s)
    ensures TemporaryOnce(TerminateSupervisor(o, cfg, s, r))
  {
    var todo := SortTermination(cfg.order, s.specs);
    var h := TerminateChildNodes(o, s.w, todo, s.children, None, map[]);
    StandingTerminateAll(o, s.w, todo, s.children, None, map[]);
    StandingInterfere(o, h.w);
    StandingTrans(s.w.procs, h.w.procs, Interfere(o, h.w).procs);
    StandingKeepsSpecs(s.w.procs, Interfere(o, h.w).procs);
    OnceSame(s.w.procs, Interfere(o, h.w).procs);
  }

  lemma StandingKeepsSpecs(a: seq<Proc>, b: seq<Proc>)
    requires AllSameStanding(a, b)
    ensures SameSpecs(a, b)
  {
    forall id | 0 <= id < |a| ensures b[id].spec == a[id].spec { assert SameStanding(a[id], b[id]); }
  }

  lemma OnceInterfere(o: Oracle, s: Sys)
    requires TemporaryOnce(s)
    ensures TemporaryOnce(s.(w := Interfere(o, s.w)))
  {
    StandingInterfere(o, s.w);
    StandingKeepsSpecs(s.w.procs, Interfere(o, s.w).procs);
    OnceSame(s.w.procs, Interfere(o, s.w).procs);
  }

  lemma OnceNotification(s: Sys, id: nat)
    requires TemporaryOnce(s) && s.status.Looping? && id < |s.w.procs| && s.w.procs[id].phase.Exiting?
    ensures TemporaryOnce(HandleNotification(s, id))
  {
    HandlingMeans(s, id);
    var s' := HandleNotification(s, id);
    OnceSame(s.w.procs, s'.w.procs);
    if s.w.procs[id].spec.name in s.children { HandlingRetires(s, id); }
  }

  lemma OnceRestart(o: Oracle, s: Sys, source: Child)
    requires TemporaryOnce(s) && s.status.Restarting? && s.status.source == source
    ensures TemporaryOnce(OneForOneRestart(o, s, source))
  {
    OnceInterfere(o, s);
    var w1, s' := Interfere(o, s.w), OneForOneRestart(o, s, source);
    assert s'.w.procs[..|w1.procs|] == w1.procs && |s'.w.procs| == |w1.procs| + 1
           && s'.w.procs[|w1.procs|].spec == source.spec;
    forall spec: ChildSpec | spec.restart.Temporary? ensures Once(s'.w.procs, spec) {
      assert Once(w1.procs, spec);
      forall i, j | 0 <= i < j < |s'.w.procs| && s'.w.procs[i].spec == spec ensures s'.w.procs[j].spec != spec {
        if j < |w1.procs| { assert w1.procs[i] == s'.w.procs[i] && w1.procs[j] == s'.w.procs[j]; }
      }
    }
  }

  lemma OnceBackoff(o: Oracle, cfg: Config, s: Sys, source: Child)
    requires TemporaryOnce(s) && s.status.Restarting? && s.status.source == source && cfg.strategy.OneForOne?
    ensures TemporaryOnce(BackoffAndRestart(o, cfg, s, source))
  {
    OnceInterfere(o, s);
    OnceRestart(o, s, source);
    OnceRestart(o, s.(w := Interfere(o, s.w)), source);
  }

  lemma OnceIteration(o: Oracle, cfg: Config, s: Sys, source: Child, prev: Option<Error>)
    requires TemporaryOnce(s) && s.status == Restarting(source, prev) && cfg.strategy.OneForOne?
    ensures TemporaryOnce(RestartIteration(o, cfg, s, source, prev))
  {
    if prev.None? {
      OnceBackoff(o, cfg, s, source);
    } else {
      var a := Tolerance.Admit(s.mgr, prev.value, o(s.w.tick).clock);
      var s1 := s.(w := Interfere(o, s.w), mgr := a.mgr);
      OnceInterfere(o, s);
      if a.ok {
        OnceBackoff(o, cfg, s1, source);
      } else {
        OnceShutdown(o, cfg, s1,
                     Some(GaveUp(source.spec.name, cfg.policy.max, cfg.policy.window, a.mgr.source, prev.value)));
      }
    }
  }

  lemma OnceStep(o: Oracle, cfg: Config, s: Sys)
    requires Static(o) && cfg.strategy.OneForOne? && TemporaryOnce(s)
    ensures TemporaryOnce(Step(o, cfg, s))
  {
    match s.status {
      case Looping =>
        OnceInterfere(o, s);
        var s1 := s.(w := Interfere(o, s.w));
        match o(s.w.tick).turn {
          case Shutdown => if s1.w.done { OnceShutdown(o, cfg, s1, None); }
          case Notify(id) => if id < |s1.w.procs| && s1.w.procs[id].phase.Exiting? { OnceNotification(s1, id); }
          case _ =>
        }
      case Restarting(source, prev) => OnceIteration(o, cfg, s, source, prev);
      case _ =>
    }
  }

  lemma OnceStart(o: Oracle, cfg: Config, specs: seq<ChildSpec>)
    requires DynSlice.DistinctNames(specs)
    ensures TemporaryOnce(Start(o, cfg, specs))
  {
    var todo := SortStart(cfg.order, specs);
    SortedNames(cfg.order, specs);
    StartAllProcs(o, VOID, cfg.order, specs, todo, map[]);
    OnceInOrder(StartChildNodes(o, VOID, cfg.order, specs, todo, map[]).w.procs, todo);
  }

  lemma {:induction false} OnceInOrder(procs: seq<Proc>, todo: seq<ChildSpec>)
    requires StartedInOrder(procs, VOID.procs, todo) && DynSlice.DistinctNames(todo)
    ensures forall spec :: Once(procs, spec)
  {}

  /** A temporary child of a static one-for-one supervisor has at most one goroutine in the supervisor's whole life,
      whatever fails, and whether the supervisor runs, has finished or could not start. */
  lemma {:induction false} TemporaryStartsOnce(o: Oracle, cfg: Config, specs: seq<ChildSpec>, n: nat, spec: ChildSpec)
    requires Static(o) && cfg.strategy.OneForOne? && DynSlice.DistinctNames(specs) && spec.restart.Temporary?
    ensures Once(Run(o, cfg, specs, n).w.procs, spec)
  {
    var step, run, keeps := Stepper(o, cfg), States(o, cfg, specs), (s: Sys) => TemporaryOnce(s);
    StatesAreRun(o, cfg, specs);
    OnceStart(o, cfg, specs);
    assert Run(o, cfg, specs, 0) == Start(o, cfg, specs);
    forall s | keeps(s) ensures keeps(step(s)) { OnceStep(o, cfg, s); }
    Stepping.Along(step, run, keeps, 0, n);
  }
}
