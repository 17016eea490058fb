/** Counting live goroutines against the children map, without assuming that starts succeed.  This
    tells exactly when a static supervisor loses track of a child. */
module Conservation {
  import opened Types
  import opened Ordering
  import opened Engine
  import opened Ledger
  import opened Operations
  import opened Runs
  import DynSlice
  import Stepping
  import Tolerance

  predicate IsLive(p: Proc) { p.started && Undelivered(p) }

  function One(b: bool): nat { if b then 1 else 0 }

  function LiveCount(procs: seq<Proc>): nat {
    if procs == [] then 0 else LiveCount(procs[..|procs| - 1]) + One(IsLive(procs[|procs| - 1]))
  }

  /** How many notifications have been taken for somebody else's. */
  function MisreadCount(procs: seq<Proc>): nat {
    if procs == [] then 0 else MisreadCount(procs[..|procs| - 1]) + One(procs[|procs| - 1].misread)
  }

  /** On how many goroutines a shutdown timer has fired. */
  function TimedCount(procs: seq<Proc>): nat {
    if procs == [] then 0 else TimedCount(procs[..|procs| - 1]) + One(procs[|procs| - 1].timedOut)
  }

  /** The live goroutines, less the timers fired. */
  function LiveUntimed(procs: seq<Proc>): int { LiveCount(procs) - TimedCount(procs) }

  predicate SameMarks(p: Proc, q: Proc) { IsLive(p) == IsLive(q) && p.misread == q.misread && p.timedOut == q.timedOut }

  lemma {:induction false} CountsSame(a: seq<Proc>, b: seq<Proc>)
    requires |a| == |b| && forall id :: 0 <= id < |a| ==> SameMarks(a[id], b[id])
    ensures LiveCount(a) == LiveCount(b) && MisreadCount(a) == MisreadCount(b) && TimedCount(a) == TimedCount(b)
  {
    if a != [] {
      assert SameMarks(a[|a| - 1], b[|b| - 1]);
      CountsSame(a[..|a| - 1], b[..|b| - 1]);
    }
  }

  lemma {:induction false} CountsUpdate(procs: seq<Proc>, id: nat, p: Proc)
    requires id < |procs|
    ensures LiveCount(procs[id := p]) + One(IsLive(procs[id])) == LiveCount(procs) + One(IsLive(p))
    ensures MisreadCount(procs[id := p]) + One(procs[id].misread) == MisreadCount(procs) + One(p.misread)
    ensures TimedCount(procs[id := p]) + One(procs[id].timedOut) == TimedCount(procs) + One(p.timedOut)
  {
    var n := |procs| - 1;
    if id == n {
      assert procs[id := p][..n] == procs[..n];
    } else {
      assert procs[id := p][..n] == procs[..n][id := p];
      CountsUpdate(procs[..n], id, p);
    }
  }

  lemma {:induction false} CountsAppend(procs: seq<Proc>, p: Proc)
    ensures LiveCount(procs + [p]) == LiveCount(procs) + One(IsLive(p))
    ensures MisreadCount(procs + [p]) == MisreadCount(procs) + One(p.misread)
    ensures TimedCount(procs + [p]) == TimedCount(procs) + One(p.timedOut)
  {
    assert (procs + [p])[..|procs|] == procs;
  }

  lemma CountsInterfere(o: Oracle, w: World)
    ensures LiveCount(Interfere(o, w).procs) == LiveCount(w.procs)
    ensures MisreadCount(Interfere(o, w).procs) == MisreadCount(w.procs)
    ensures TimedCount(Interfere(o, w).procs) == TimedCount(w.procs)
  {
    SettleDrifts(w.procs, o(w.tick).exits);
    CountsSame(w.procs, Interfere(o, w).procs);
  }

  // ----- Entries of the map -----------------------------------------------------------------------------

  /** A child the supervisor can count on: started under that name, not delivered, and no timer has fired on it. */
  predicate Sure(procs: seq<Proc>, ch: Child, name: string) {
    && ch.spec.name == name && ch.id < |procs| && procs[ch.id].spec == ch.spec
    && IsLive(procs[ch.id]) && !procs[ch.id].timedOut
  }

  /** Every entry but that of `skip` is sure. */
  ghost predicate AllSure(procs: seq<Proc>, children: map<string, Child>, skip: Option<string>) {
    forall name :: name in children && Some(name) != skip ==> Sure(procs, children[name], name)
  }

  lemma SureAfterInterfere(o: Oracle, w: World, children: map<string, Child>, skip: Option<string>)
    requires AllSure(w.procs, children, skip)
    ensures AllSure(Interfere(o, w).procs, children, skip)
  {
    SettleDrifts(w.procs, o(w.tick).exits);
    forall name | name in children && Some(name) != skip ensures Sure(Interfere(o, w).procs, children[name], name) {
      assert Sure(w.procs, children[name], name);
    }
  }

  // ----- How each operation moves the counts --------------------------------------------------------

  /** Stopping a sure child lowers that number by exactly one, whichever way it ends: it is delivered, or its timer
      fires. */
  lemma CountsTerminate(o: Oracle, w: World, ch: Child)
    requires Sure(w.procs, ch, ch.spec.name)
    ensures var h := TerminateChildNode(o, w, ch);
            LiveUntimed(h.w.procs) == LiveUntimed(w.procs) - 1 && MisreadCount(h.w.procs) == MisreadCount(w.procs)
  {
    CountsInterfere(o, w);
    SettleDrifts(w.procs, o(w.tick).exits);
    var w1 := Interfere(o, w);
    var h := TerminateChildNode(o, w, ch);
    CountsUpdate(w1.procs, ch.id, h.w.procs[ch.id]);
    assert h.w.procs == w1.procs[ch.id := h.w.procs[ch.id]];
  }

  /** Stopping one child leaves the others sure. */
  lemma SureAfterTerminate(o: Oracle, w: World, children: map<string, Child>, skip: Option<string>, name: string)
    requires AllSure(w.procs, children, skip) && name in children && Some(name) != skip
    ensures AllSure(TerminateChildNode(o, w, children[name]).w.procs, children - {name}, skip)
  {
    SureAfterInterfere(o, w, children, skip);
    var ch := children[name];
    var w1 := Interfere(o, w);
    var h := TerminateChildNode(o, w, ch);
    assert Sure(w1.procs, ch, name);
    forall n | n in children - {name} && Some(n) != skip ensures Sure(h.w.procs, (children - {name})[n], n) {
      assert Sure(w1.procs, children[n], n);
    }
  }

  /** The entries that a stop over `todo` visits. */
  ghost predicate CoversAll(todo: seq<ChildSpec>, children: map<string, Child>, skip: Option<string>) {
    forall name :: name in children && Some(name) != skip ==> Named(todo, name)
  }

  lemma {:induction false} VisitSame(o: Oracle, w: World, todo: seq<ChildSpec>, children: map<string, Child>,
                                     children': map<string, Child>, skip: Option<string>, errs: map<string, Error>)
    requires forall spec :: spec in todo && Some(spec.name) != skip ==>
               (spec.name in children <==> spec.name in children')
               && (spec.name in children ==> children[spec.name] == children'[spec.name])
    ensures TerminateChildNodes(o, w, todo, children, skip, errs)
            == TerminateChildNodes(o, w, todo, children', skip, errs)
    decreases |todo|
  {
    if todo != [] {
      assert todo[0] in todo;
      var name := todo[0].name;
      if Some(name) == skip || name !in children {
        VisitSame(o, w, todo[1..], children, children', skip, errs);
      } else {
        var h := TerminateChildNode(o, w, children[name]);
        VisitSame(o, h.w, todo[1..], children, children', skip,
                  if h.err.Some? then errs[name := h.err.value] else errs);
      }
    }
  }

  /** How many entries a stop visits. */
  function Visited(children: map<string, Child>, skip: Option<string>): nat {
    match skip
    case None => |children|
    case Some(name) => |children - {name}|
  }

  /** A group stop that meets every sure entry once takes exactly as many. */
  lemma {:induction false} CountsTerminateAll(o: Oracle, w: World, todo: seq<ChildSpec>, children: map<string, Child>,
                                              skip: Option<string>, errs: map<string, Error>)
    requires DynSlice.DistinctNames(todo) && CoversAll(todo, children, skip) && AllSure(w.procs, children, skip)
    ensures var h := TerminateChildNodes(o, w, todo, children, skip, errs);
            && LiveUntimed(h.w.procs) == LiveUntimed(w.procs) - Visited(children, skip)
            && MisreadCount(h.w.procs) == MisreadCount(w.procs)
    decreases |todo|
  {
    if todo == [] {
      NothingToVisit(children, skip);
    } else {
      var name := todo[0].name;
      DistinctCons(todo);
      if Some(name) == skip || name !in children {
        forall n | n in children && Some(n) != skip ensures Named(todo[1..], n) { NamedTail(todo, n); }
        CountsTerminateAll(o, w, todo[1..], children, skip, errs);
      } else {
        assert Sure(w.procs, children[name], name);
        var h := TerminateChildNode(o, w, children[name]);
        var errs' := if h.err.Some? then errs[name := h.err.value] else errs;
        CountsTerminate(o, w, children[name]);
        SureAfterTerminate(o, w, children, skip, name);
        forall n | n in children - {name} && Some(n) != skip ensures Named(todo[1..], n) { NamedTail(todo, n); }
        CountsTerminateAll(o, h.w, todo[1..], children - {name}, skip, errs');
        forall spec | spec in todo[1..] ensures spec.name != name {
          assert !Named(todo[1..], name);
        }
        VisitSame(o, h.w, todo[1..], children, children - {name}, skip, errs');
        OneVisit(children, skip, name);
      }
    }
  }

  lemma NothingToVisit(children: map<string, Child>, skip: Option<string>)
    requires forall name :: name in children ==> Some(name) == skip
    ensures Visited(children, skip) == 0
  {
    match skip {
      case None => assert children == map[];
      case Some(name) => assert children - {name} == map[];
    }
  }

  lemma OneVisit(children: map<string, Child>, skip: Option<string>, name: string)
    requires name in children && Some(name) != skip
    ensures Visited(children - {name}, skip) == Visited(children, skip) - 1
  {
    match skip {
      case None => MapSizes(children, name, children[name]);
      case Some(other) =>
        assert (children - {name}) - {other} == (children - {other}) - {name};
        MapSizes(children - {other}, name, children[name]);
    }
  }

  lemma CountsStart(o: Oracle, w: World, spec: ChildSpec)
    ensures var s := DoStart(o, w, spec);
            && LiveCount(s.w.procs) == LiveCount(w.procs) + One(s.err.None?)
            && TimedCount(s.w.procs) == TimedCount(w.procs) && MisreadCount(s.w.procs) == MisreadCount(w.procs)
            && StartChildNode(o, w, spec).w.procs == s.w.procs && StartChildNode(o, w, spec).err == s.err
  {
    CountsInterfere(o, w);
    CountsAppend(Interfere(o, w).procs, DoStart(o, w, spec).w.procs[|Interfere(o, w).procs|]);
  }

  /** A successful start adds a sure entry. */
  lemma SureAfterStart(o: Oracle, w: World, spec: ChildSpec, children: map<string, Child>, skip: Option<string>)
    requires AllSure(w.procs, children, skip)
    ensures var s := DoStart(o, w, spec);
            && (s.err.Some? ==> AllSure(s.w.procs, children, skip))
            && (s.err.None?
                ==> AllSure(s.w.procs, children[spec.name := s.child], if skip == Some(spec.name) then None else skip))
  {
    SureAfterInterfere(o, w, children, skip);
    var w1 := Interfere(o, w);
    var s := DoStart(o, w, spec);
    forall name | name in children && Some(name) != skip ensures Sure(s.w.procs, children[name], name) {
      assert Sure(w1.procs, children[name], name);
    }
  }

  /** A group start: as many sure entries as specs, or nothing but what was there before. */
  lemma {:induction false} CountsStartAll(o: Oracle, w: World, order: Order, specs: seq<ChildSpec>,
                                          todo: seq<ChildSpec>, acc: map<string, Child>)
    requires DynSlice.DistinctNames(specs) && DynSlice.DistinctNames(todo) && AllSure(w.procs, acc, None)
             && Covered(specs, acc)
    requires forall spec :: spec in todo ==> spec.name !in acc && Named(specs, spec.name)
    ensures var l := StartChildNodes(o, w, order, specs, todo, acc);
            && MisreadCount(l.w.procs) == MisreadCount(w.procs) && AllSure(l.w.procs, l.children, None)
            && Covered(specs, l.children)
            && LiveUntimed(l.w.procs) - |l.children| == LiveUntimed(w.procs) - |acc|
            && (l.err.Some? ==> l.children == map[])
    decreases |todo|
  {
    if todo != [] {
      var s := StartChildNode(o, w, todo[0]);
      CountsStart(o, w, todo[0]);
      SureAfterStart(o, w, todo[0], acc, None);
      assert todo[0] in todo;
      if s.err.Some? {
        SortedNames(order, specs);
        CountsTerminateAll(o, s.w, SortTermination(order, specs), acc, None, map[]);
      } else {
        ReadyForRest(specs, todo, acc, s.child);
        CountsStartAll(o, s.w, order, specs, todo[1..], acc[todo[0].name := s.child]);
      }
    }
  }

  lemma ReadyForRest(specs: seq<ChildSpec>, todo: seq<ChildSpec>, acc: map<string, Child>, child: Child)
    requires todo != [] && DynSlice.DistinctNames(todo) && Covered(specs, acc)
    requires forall spec :: spec in todo ==> spec.name !in acc && Named(specs, spec.name)
    ensures var acc' := acc[todo[0].name := child];
            && DynSlice.DistinctNames(todo[1..]) && Covered(specs, acc') && |acc'| == |acc| + 1
            && forall spec :: spec in todo[1..] ==> spec.name !in acc' && Named(specs, spec.name)
  {
    var acc' := acc[todo[0].name := child];
    assert todo[0] in todo;
    MapSizes(acc, todo[0].name, child);
    assert acc - {todo[0].name} == acc;
    DistinctCons(todo);
    forall spec | spec in todo[1..] ensures spec.name !in acc' && Named(specs, spec.name) {
      assert spec in todo && !Named(todo[1..], todo[0].name);
    }
  }

  // ----- The law ----------------------------------------------------------------------------------

  /** No control message is ever processed: a static supervisor. */
  ghost predicate Static(o: Oracle) { forall t: nat :: !o(t).turn.Spawn? && !o(t).turn.Stop? }

  /** The name whose entry is known to be dead, in the restart loop. */
  function Dead(s: Sys): Option<string> {
    if s.status.Restarting? then Some(s.status.source.spec.name) else None
  }

  function Entries(s: Sys): nat { Visited(s.children, Dead(s)) }

  /** The supervisor is at one of its loops, or reads after a failed spawn. */
  predicate Counts(st: Status) { st.Looping? || st.Restarting? || st.Draining? }

  /** While the context is not done: the live goroutines are exactly the entries of the map, but for the dead one in
      the restart loop, plus the notifications misread, plus the goroutines on which a timer fired. */
  ghost predicate Law(s: Sys) {
    && Booked(s)
    && (!s.w.done && Counts(s.status) ==>
          && AllSure(s.w.procs, s.children, Dead(s))
          && LiveCount(s.w.procs) == Entries(s) + MisreadCount(s.w.procs) + TimedCount(s.w.procs))
  }

  /** Entries and the source of a restart carry spec names. */
  ghost predicate Booked(s: Sys) {
    && Covered(s.specs, s.children) && Keyed(s.children)
    && (s.status.Restarting? ==> Named(s.specs, s.status.source.spec.name))
  }

  ghost predicate Keyed(children: map<string, Child>) {
    forall name :: name in children ==> children[name].spec.name == name
  }

  lemma {:induction false} StartAllBooked(o: Oracle, w: World, order: Order, specs: seq<ChildSpec>,
                                          todo: seq<ChildSpec>, acc: map<string, Child>)
    requires Keyed(acc) && Covered(specs, acc) && forall spec :: spec in todo ==> Named(specs, spec.name)
    ensures var l := StartChildNodes(o, w, order, specs, todo, acc); Keyed(l.children) && Covered(specs, l.children)
    decreases |todo|
  {
    if todo != [] {
      var s := StartChildNode(o, w, todo[0]);
      InterfereKeeps(o, w);
      assert todo[0] in todo;
      StartAllBooked(o, s.w, order, specs, todo[1..], acc[todo[0].name := s.child]);
    }
  }

  lemma SortedAreNamed(order: Order, specs: seq<ChildSpec>)
    ensures forall spec :: spec in SortStart(order, specs) ==> Named(specs, spec.name)
  {
    StopReversesStart(order, specs);
  }

  ghost predicate AllProper(procs: seq<Proc>) { forall id :: 0 <= id < |procs| ==> Proper(procs[id]) }

  lemma ProperContinues(a: World, b: World)
    requires Continues(a, b) && AllProper(a.procs)
    ensures AllProper(b.procs)
  {
    forall id | 0 <= id < |b.procs| ensures Proper(b.procs[id]) {
      if id < |a.procs| { assert Grown(a.procs[id], b.procs[id]) && Proper(a.procs[id]); }
    }
  }

  lemma MapSizes<K, V>(m: map<K, V>, k: K, v: V)
    ensures |m[k := v]| == |m - {k}| + 1
    ensures k in m ==> |m - {k}| == |m| - 1
  {
    assert m[k := v].Keys == (m - {k}).Keys + {k};
    assert |m[k := v].Keys| == |(m - {k}).Keys| + 1;
    if k in m {
      assert m.Keys == (m - {k}).Keys + {k};
      assert |m.Keys| == |(m - {k}).Keys| + 1;
    }
  }

  lemma LawAfterNotification(s: Sys, id: nat)
    requires Law(s) && s.status.Looping? && AllProper(s.w.procs)
    requires id < |s.w.procs| && s.w.procs[id].phase.Exiting?
    ensures Law(HandleNotification(s, id))
  {
    var p := s.w.procs[id];
    assert Proper(p);
    HandlingMeans(s, id);
    CountsUpdate(s.w.procs, id, Receive(s.w, id, !p.started).procs[id]);
    if p.spec.name in s.children && !s.w.done {
      MapSizes(s.children, p.spec.name, s.children[p.spec.name]);
      SureAfterReceive(s, id, HandleNotification(s, id));
    }
  }

  /** Whoever ended under a name, the entries of the other names stay sure. */
  lemma SureAfterReceive(s: Sys, id: nat, s': Sys)
    requires AllSure(s.w.procs, s.children, None) && id < |s.w.procs| && s.w.procs[id].phase.Exiting?
    requires var p := s.w.procs[id];
             && p.spec.name in s.children && s.children[p.spec.name].spec.name == p.spec.name
             && s'.w.procs == Receive(s.w, id, !p.started).procs
             && if s'.status.Looping? then s'.children == s.children - {p.spec.name}
                else s'.status.Restarting? && s'.status.source == s.children[p.spec.name] && s'.children == s.children
    ensures AllSure(s'.w.procs, s'.children, Dead(s'))
  {
    forall name | name in s'.children && Some(name) != Dead(s') ensures Sure(s'.w.procs, s'.children[name], name) {
      assert Sure(s.w.procs, s.children[name], name);
    }
  }

  lemma LawAfterOneForOne(o: Oracle, s: Sys, source: Child)
    requires Law(s) && s.status.Restarting? && s.status.source == source
    ensures Law(OneForOneRestart(o, s, source))
  {
    CountsStart(o, s.w, source.spec);
    var r := DoStart(o, s.w, source.spec);
    if !s.w.done { SureAfterStart(o, s.w, source.spec, s.children, Dead(s)); }
    LawOfStart(s, source, r, OneForOneRestart(o, s, source));
  }

  lemma LawOfStart(s: Sys, source: Child, r: Spawned, s': Sys)
    requires Law(s) && s.status.Restarting? && s.status.source == source
    requires s'.w.procs == r.w.procs && s'.w.done == r.w.done && s'.specs == s.specs && r.child.spec == source.spec
    requires s.w.done ==> r.w.done
    requires if r.err.Some? then s'.status == Restarting(source, r.err) && s'.children == s.children
             else s'.status == Looping && s'.children == s.children[source.spec.name := r.child]
    requires LiveCount(r.w.procs) == LiveCount(s.w.procs) + One(r.err.None?)
    requires TimedCount(r.w.procs) == TimedCount(s.w.procs) && MisreadCount(r.w.procs) == MisreadCount(s.w.procs)
    requires !s.w.done ==> AllSure(r.w.procs, s'.children, Dead(s'))
    ensures Law(s')
  {
    MapSizes(s.children, source.spec.name, r.child);
  }

  lemma LawAfterOneForAll(o: Oracle, cfg: Config, s: Sys, source: Child)
    requires Law(s) && s.status.Restarting? && s.status.source == source && DynSlice.DistinctNames(s.specs)
    ensures Law(OneForAllRestart(o, cfg, s, source))
  {
    var todo, up := SortTermination(cfg.order, s.specs), SortStart(cfg.order, s.specs);
    var skip := Some(source.spec.name);
    var h := TerminateChildNodes(o, s.w, todo, s.children, skip, map[]);
    var l := StartChildNodes(o, h.w, cfg.order, s.specs, up, map[]);
    TerminateChildNodesGrows(o, s.w, todo, s.children, skip, map[]);
    StartChildNodesGrows(o, h.w, cfg.order, s.specs, up, map[]);
    SortedAreNamed(cfg.order, s.specs);
    StartAllBooked(o, h.w, cfg.order, s.specs, up, map[]);
    if !l.w.done {
      SortedNames(cfg.order, s.specs);
      CountsTerminateAll(o, s.w, todo, s.children, skip, map[]);
      CountsStartAll(o, h.w, cfg.order, s.specs, up, map[]);
      LawOfLaunch(s, l, source, OneForAllRestart(o, cfg, s, source));
    }
  }

  lemma LawOfLaunch(s: Sys, l: Launch, source: Child, s': Sys)
    requires s' == s.(w := l.w, children := l.children, mapNil := l.err.Some?,
                      status := if l.err.Some? then Restarting(source, l.err) else Looping)
    requires Booked(s) && s.status.Restarting? && s.status.source == source && Keyed(l.children)
             && Covered(s.specs, l.children)
    requires AllSure(l.w.procs, l.children, None) && (l.err.Some? ==> l.children == map[])
    requires LiveUntimed(l.w.procs) - |l.children| == MisreadCount(l.w.procs)
    ensures Law(s')
  {
    if l.err.Some? { assert l.children - {source.spec.name} == map[]; }
  }

  lemma LawAfterExec(o: Oracle, cfg: Config, s: Sys, source: Child)
    requires Law(s) && s.status.Restarting? && s.status.source == source && DynSlice.DistinctNames(s.specs)
    ensures Law(ExecRestart(o, cfg, s, source))
  {
    if cfg.strategy.OneForOne? { LawAfterOneForOne(o, s, source); } else { LawAfterOneForAll(o, cfg, s, source); }
  }

  lemma LawInterfere(o: Oracle, s: Sys)
    requires Law(s)
    ensures Law(s.(w := Interfere(o, s.w)))
  {
    CountsInterfere(o, s.w);
    if !Interfere(o, s.w).done && Counts(s.status) {
      SureAfterInterfere(o, s.w, s.children, Dead(s));
    }
  }

  lemma LawAfterBackoff(o: Oracle, cfg: Config, s: Sys, source: Child)
    requires Law(s) && s.status.Restarting? && s.status.source == source && DynSlice.DistinctNames(s.specs)
    ensures Law(BackoffAndRestart(o, cfg, s, source))
  {
    LawInterfere(o, s);
    LawAfterExec(o, cfg, s, source);
    LawAfterExec(o, cfg, s.(w := Interfere(o, s.w)), source);
  }

  lemma LawAfterSpawn(o: Oracle, s: Sys, spec: ChildSpec)
    requires Law(s) && s.status.Looping? && DynSlice.DistinctNames(SpawnChild(o, s, spec).specs)
    ensures Law(SpawnChild(o, s, spec))
  {
    var r := StartChildNode(o, s.w, spec);
    CountsStart(o, s.w, spec);
    if !s.w.done { SureAfterStart(o, s.w, spec, s.children, None); }
    if r.err.None? && !s.mapNil {
      LawOfEntry(s, r, spec);
    } else {
      LawOfNoEntry(s, r, SpawnChild(o, s, spec));
    }
  }

  /** A spawned child, with its spec and its entry. */
  lemma LawOfEntry(s: Sys, r: Spawned, spec: ChildSpec)
    requires Law(s) && s.status.Looping? && DynSlice.DistinctNames(s.specs + [spec]) && r.child.spec == spec
    requires LiveCount(r.w.procs) == LiveCount(s.w.procs) + 1
    requires TimedCount(r.w.procs) == TimedCount(s.w.procs) && MisreadCount(r.w.procs) == MisreadCount(s.w.procs)
    requires s.w.done ==> r.w.done
    requires !s.w.done ==> AllSure(r.w.procs, s.children[spec.name := r.child], None)
    ensures Law(s.(w := r.w, specs := s.specs + [spec], children := s.children[spec.name := r.child]))
  {
    NewName(s.specs, spec);
    BookedEntry(s.specs, s.children, spec, r.child);
    NewSize(s.children, spec.name, r.child);
    var s' := s.(w := r.w, specs := s.specs + [spec], children := s.children[spec.name := r.child]);
    assert Entries(s') == Entries(s) + 1;
  }

  lemma BookedEntry(specs: seq<ChildSpec>, children: map<string, Child>, spec: ChildSpec, ch: Child)
    requires Covered(specs, children) && Keyed(children) && ch.spec == spec
    ensures Covered(specs + [spec], children[spec.name := ch]) && Keyed(children[spec.name := ch])
  {
    forall n | n in children[spec.name := ch] ensures Named(specs + [spec], n) { NamedMore(specs, spec, n); }
  }

  lemma NewSize<K, V>(m: map<K, V>, k: K, v: V)
    requires k !in m
    ensures |m[k := v]| == |m| + 1
  {
    MapSizes(m, k, v);
    assert m - {k} == m;
  }

  /** A spawn that failed, or whose entry a nil map refused. */
  lemma LawOfNoEntry(s: Sys, r: Spawned, s': Sys)
    requires Law(s) && s.status.Looping? && s' == s.(w := r.w, status := s'.status)
    requires s'.status.Draining? || s'.status.Panicked?
    requires s'.status.Draining? ==> LiveCount(r.w.procs) == LiveCount(s.w.procs)
    requires TimedCount(r.w.procs) == TimedCount(s.w.procs) && MisreadCount(r.w.procs) == MisreadCount(s.w.procs)
    requires s.w.done ==> r.w.done
    requires !s.w.done && s'.status.Draining? ==> AllSure(r.w.procs, s.children, None)
    ensures Law(s')
  {}

  lemma NewName(specs: seq<ChildSpec>, spec: ChildSpec)
    requires DynSlice.DistinctNames(specs + [spec])
    ensures !Named(specs, spec.name)
  {
    var more := specs + [spec];
    forall x | x in specs ensures x.name != spec.name {
      var i :| 0 <= i < |specs| && specs[i] == x;
      assert more[i] == x && more[|specs|] == spec;
    }
  }

  lemma NamedMore(specs: seq<ChildSpec>, spec: ChildSpec, name: string)
    requires Named(specs, name) || name == spec.name
    ensures Named(specs + [spec], name)
  {
    if Named(specs, name) {
      var x :| x in specs && x.name == name;
      assert x in specs + [spec];
    } else {
      assert spec in specs + [spec];
    }
  }

  lemma LawAfterStop(o: Oracle, s: Sys, name: string)
    requires Law(s) && s.status.Looping? && DynSlice.DistinctNames(s.specs)
    ensures Law(StopChild(o, s, name))
  {
    if name in s.children {
      var s' := StopChild(o, s, name);
      DynSlice.DeleteWithDistinctNames(s.specs, name);
      assert Named(s.specs, name);
      forall n | n in s'.children ensures Named(s'.specs, n) {
        var x :| x in s.specs && x.name == n;
        assert x in s'.specs;
      }
      TerminateChildNodeGrows(o, s.w, s.children[name]);
      if !s'.w.done {
        assert Sure(s.w.procs, s.children[name], name);
        CountsTerminate(o, s.w, s.children[name]);
        SureAfterTerminate(o, s.w, s.children, None, name);
        MapSizes(s.children, name, s.children[name]);
      }
    }
  }

  /** No failed spawn has drained the exit of a started child. */
  ghost predicate NoneDrained(procs: seq<Proc>) {
    forall id :: 0 <= id < |procs| && procs[id].misread ==> !procs[id].started
  }

  lemma LawAfterDrain(o: Oracle, s: Sys)
    requires Law(s) && s.status.Draining? && AllProper(s.w.procs) && NoneDrained(Drain(o, s).w.procs)
    ensures Law(Drain(o, s))
  {
    LawInterfere(o, s);
    InterfereContinues(o, s.w);
    var s1, s' := s.(w := Interfere(o, s.w)), Drain(o, s);
    ProperContinues(s.w, s1.w);
    if s'.status.Looping? {
      var id := Offering(s1.w.procs, o(s.w.tick).drain).value;
      assert Proper(s1.w.procs[id]);
      assert !s'.w.procs[id].started;
      LawOfQuietDrain(s1, id, s'.w.procs[id]);
    }
  }

  /** Taking the notification of a failed start. */
  lemma LawOfQuietDrain(s: Sys, id: nat, p: Proc)
    requires Law(s) && s.status.Draining? && id < |s.w.procs|
    requires !p.started && !p.misread && p == s.w.procs[id].(phase := p.phase)
    ensures Law(s.(w := s.w.(procs := s.w.procs[id := p]), status := Looping))
  {
    CountsUpdate(s.w.procs, id, p);
    if !s.w.done {
      forall name | name in s.children ensures Sure(s.w.procs[id := p], s.children[name], name) {
        assert Sure(s.w.procs, s.children[name], name);
      }
    }
  }

  lemma LawAfterTurn(o: Oracle, cfg: Config, s: Sys)
    requires Law(s) && AllProper(s.w.procs) && s.status.Looping?
    requires DynSlice.DistinctNames(s.specs) && DynSlice.DistinctNames(LoopTurn(o, cfg, s).specs)
    ensures Law(LoopTurn(o, cfg, s))
  {
    LawInterfere(o, s);
    var s1 := s.(w := Interfere(o, s.w));
    InterfereContinues(o, s.w);
    ProperContinues(s.w, s1.w);
    match o(s.w.tick).turn {
      case Notify(id) => if id < |s1.w.procs| && s1.w.procs[id].phase.Exiting? { LawAfterNotification(s1, id); }
      case Spawn(spec) => LawAfterSpawn(o, s1, spec);
      case Stop(name) => LawAfterStop(o, s1, name);
      case Shutdown =>
    }
  }

  /** A static supervisor keeps its specs and never drains. */
  lemma StaticStep(o: Oracle, cfg: Config, s: Sys)
    requires Static(o) && !s.status.Draining?
    ensures var s' := Step(o, cfg, s); s'.specs == s.specs && !s'.status.Draining?
  {
    match s.status {
      case Looping =>
        var s1 := s.(w := Interfere(o, s.w));
        match o(s.w.tick).turn {
          case Notify(id) => if id < |s1.w.procs| && s1.w.procs[id].phase.Exiting? { HandlingMeans(s1, id); }
          case _ =>
        }
      case _ =>
    }
  }

  lemma LawAfterIteration(o: Oracle, cfg: Config, s: Sys, source: Child, prev: Option<Error>)
    requires Law(s) && s.status == Restarting(source, prev) && DynSlice.DistinctNames(s.specs)
    ensures var s' := RestartIteration(o, cfg, s, source, prev);
            Law(s')
  {
    if prev.None? {
      LawAfterBackoff(o, cfg, s, source);
    } else {
      LawInterfere(o, s);
      var a := Tolerance.Admit(s.mgr, prev.value, o(s.w.tick).clock);
      LawAfterBackoff(o, cfg, s.(w := Interfere(o, s.w), mgr := a.mgr), source);
    }
  }

  // ----- Over whole runs ------------------------------------------------------------------------------

  lemma {:induction false} CountsOfNothing(w: World)
    requires w.procs == []
    ensures LiveCount(w.procs) == 0 && MisreadCount(w.procs) == 0
  {}

  /** Starting a list of specs with pairwise distinct, unused names makes one entry for each. */
  lemma {:induction false} StartAllEntries(o: Oracle, w: World, order: Order, specs: seq<ChildSpec>,
                                           todo: seq<ChildSpec>, acc: map<string, Child>)
    requires StartChildNodes(o, w, order, specs, todo, acc).err.None?
    ensures StartChildNodes(o, w, order, specs, todo, acc).children.Keys == acc.Keys + Names(todo)
    decreases |todo|
  {
    if todo != [] {
      var s := StartChildNode(o, w, todo[0]);
      var acc' := acc[todo[0].name := s.child];
      StartAllEntries(o, s.w, order, specs, todo[1..], acc');
      assert acc'.Keys == acc.Keys + {todo[0].name};
    }
  }

  function Names(specs: seq<ChildSpec>): set<string> {
    if specs == [] then {} else {specs[0].name} + Names(specs[1..])
  }

  lemma {:induction false} NamesMembers(specs: seq<ChildSpec>)
    ensures forall n :: n in Names(specs) <==> Named(specs, n)
  {
    if specs != [] {
      NamesMembers(specs[1..]);
      forall n ensures n in Names(specs) <==> Named(specs, n) {
        NamedTail(specs, n);
      }
    }
  }

  /** As many names as specs exactly when no name occurs twice. */
  lemma {:induction false} NamesCountExactly(specs: seq<ChildSpec>)
    ensures |Names(specs)| <= |specs|
    ensures |Names(specs)| == |specs| <==> DynSlice.DistinctNames(specs)
  {
    if specs != [] {
      var tail := specs[1..];
      NamesCountExactly(tail);
      NamesMembers(tail);
      DistinctCons(specs);
      if Named(tail, specs[0].name) {
        assert Names(specs) == Names(tail);
      } else {
        assert |Names(specs)| == |Names(tail)| + 1;
      }
    }
  }

  lemma DistinctCons(specs: seq<ChildSpec>)
    requires specs != []
    ensures DynSlice.DistinctNames(specs) <==> DynSlice.DistinctNames(specs[1..]) && !Named(specs[1..], specs[0].name)
  {
    var tail := specs[1..];
    if DynSlice.DistinctNames(specs) {
      forall i, j | 0 <= i < j < |tail| ensures tail[i].name != tail[j].name {
        assert tail[i] == specs[i + 1] && tail[j] == specs[j + 1];
      }
      forall x | x in tail ensures x.name != specs[0].name {
        var i :| 0 <= i < |tail| && tail[i] == x;
        assert specs[i + 1] == x;
      }
    }
    if DynSlice.DistinctNames(tail) && !Named(tail, specs[0].name) {
      forall i, j | 0 <= i < j < |specs| ensures specs[i].name != specs[j].name {
        assert specs[j] == tail[j - 1] && tail[j - 1] in tail;
        if i > 0 { assert specs[i] == tail[i - 1]; }
      }
    }
  }

  lemma {:induction false} NamesOfSorted(order: Order, specs: seq<ChildSpec>)
    ensures Names(SortStart(order, specs)) == Names(specs)
  {
    NamesMembers(specs);
    NamesMembers(SortStart(order, specs));
    StopReversesStart(order, specs);
    forall n ensures n in Names(SortStart(order, specs)) <==> n in Names(specs) {
      if Named(specs, n) { var x :| x in specs && x.name == n; assert x in SortStart(order, specs); }
      if Named(SortStart(order, specs), n) { var x :| x in SortStart(order, specs) && x.name == n; assert x in specs; }
    }
  }

  lemma {:induction false} NobodyIsSure(specs: seq<ChildSpec>)
    ensures AllSure([], map[], None) && Covered(specs, map[]) && Keyed(map[]) && LiveUntimed([]) == 0
            && MisreadCount([]) == 0
  {}

  lemma LawAtStart(o: Oracle, cfg: Config, specs: seq<ChildSpec>)
    requires DynSlice.DistinctNames(specs)
    ensures Law(Start(o, cfg, specs))
  {
    var todo := SortStart(cfg.order, specs);
    NobodyIsSure(specs);
    SortedNames(cfg.order, specs);
    SortedAreNamed(cfg.order, specs);
    CountsStartAll(o, VOID, cfg.order, specs, todo, map[]);
    StartAllBooked(o, VOID, cfg.order, specs, todo, map[]);
  }

  lemma StartIsProper(o: Oracle, cfg: Config, specs: seq<ChildSpec>)
    ensures AllProper(Start(o, cfg, specs).w.procs)
  {
    StartChildNodesGrows(o, VOID, cfg.order, specs, SortStart(cfg.order, specs), map[]);
    ProperContinues(VOID, Start(o, cfg, specs).w);
  }

  lemma LawAfterStep(o: Oracle, cfg: Config, s: Sys)
    requires Law(s) && AllProper(s.w.procs)
    requires DynSlice.DistinctNames(s.specs) && DynSlice.DistinctNames(Step(o, cfg, s).specs)
    requires s.status.Draining? ==> NoneDrained(Step(o, cfg, s).w.procs)
    ensures Law(Step(o, cfg, s)) && AllProper(Step(o, cfg, s).w.procs)
  {
    StepContinues(o, cfg, s);
    ProperContinues(s.w, Step(o, cfg, s).w);
    match s.status {
      case Looping => LawAfterTurn(o, cfg, s);
      case Restarting(source, prev) => LawAfterIteration(o, cfg, s, source, prev);
      case Draining => LawAfterDrain(o, s);
      case _ =>
    }
  }

  /** What a static supervisor keeps from step to step. */
  ghost predicate Kept(specs: seq<ChildSpec>, s: Sys) {
    Law(s) && AllProper(s.w.procs) && s.specs == specs && !s.status.Draining?
  }

  /** In every run of a static supervisor, under either strategy and however its starts, exits and timers turn out,
      the law holds: at any loop head and in the restart loop, before the context is done, the live
      goroutines are exactly the entries of the map, the notifications misread and the timers fired so far. */
  lemma {:induction false} LawAlways(o: Oracle, cfg: Config, specs: seq<ChildSpec>, n: nat)
    requires Static(o) && DynSlice.DistinctNames(specs)
    ensures Kept(specs, Run(o, cfg, specs, n))
  {
    var step, run, keeps := Stepper(o, cfg), States(o, cfg, specs), (s: Sys) => Kept(specs, s);
    StatesAreRun(o, cfg, specs);
    LawAtStart(o, cfg, specs);
    StartIsProper(o, cfg, specs);
    assert Run(o, cfg, specs, 0) == Start(o, cfg, specs);
    forall s | keeps(s) ensures keeps(step(s)) {
      StaticStep(o, cfg, s);
      LawAfterStep(o, cfg, s);
    }
    Stepping.Along(step, run, keeps, 0, n);
  }

  // ----- Supervisors that take control messages --------------------------------------------------------

  /** Steps that keep the law as long as names are distinct and nothing started is drained. */
  ghost predicate KeepsLaw(step: Sys -> Sys) {
    forall s ::
      && Law(s) && AllProper(s.w.procs) && Steady(s) && Steady(step(s))
      ==> Law(step(s)) && AllProper(step(s).w.procs)
  }

  ghost predicate Steady(s: Sys) { DynSlice.DistinctNames(s.specs) && NoneDrained(s.w.procs) }

  lemma {:induction false} LawAlong(step: Sys -> Sys, run: nat -> Sys, n: nat)
    requires Stepping.IsRun(step, run) && KeepsLaw(step) && Law(run(0)) && AllProper(run(0).w.procs)
    requires forall k: nat :: k <= n ==> Steady(run(k))
    ensures Law(run(n)) && AllProper(run(n).w.procs)
  {
    if n > 0 {
      LawAlong(step, run, n - 1);
      assert run(n - 1 + 1) == step(run(n - 1));
      assert Steady(run(n - 1)) && Steady(run(n));
    }
  }

  lemma NoneDrainedBefore(a: World, b: World)
    requires Continues(a, b) && NoneDrained(b.procs)
    ensures NoneDrained(a.procs)
  {
    forall id | 0 <= id < |a.procs| && a.procs[id].misread ensures !a.procs[id].started {
      assert Grown(a.procs[id], b.procs[id]);
    }
  }

  /** The same law for every supervisor, with control messages: it holds in every run with distinct names in which no
      failed spawn has drained the exit of a started child. */
  lemma {:induction false} LawOfRuns(o: Oracle, cfg: Config, specs: seq<ChildSpec>, n: nat)
    requires NamesStayDistinct(o, cfg, specs, n) && NoneDrained(Run(o, cfg, specs, n).w.procs)
    ensures Law(Run(o, cfg, specs, n))
  {
    var step, run := Stepper(o, cfg), States(o, cfg, specs);
    StatesAreRun(o, cfg, specs);
    forall k: nat | k <= n ensures Steady(run(k)) {
      RunContinues(o, cfg, specs, k, n);
      NoneDrainedBefore(run(k).w, run(n).w);
      assert DynSlice.DistinctNames(Run(o, cfg, specs, k).specs);
    }
    assert run(0) == Start(o, cfg, specs) && Steady(run(0));
    StartHasSpecs(o, cfg, specs);
    LawAtStart(o, cfg, specs);
    StartIsProper(o, cfg, specs);
    forall s | Law(s) && AllProper(s.w.procs) && Steady(s) && Steady(step(s))
      ensures Law(step(s)) && AllProper(step(s).w.procs)
    {
      LawAfterStep(o, cfg, s);
    }
    LawAlong(step, run, n);
  }

  lemma StartHasSpecs(o: Oracle, cfg: Config, specs: seq<ChildSpec>)
    ensures Start(o, cfg, specs).specs == specs
  {}

  /** Without orphans there are at most as many live goroutines as entries. */
  lemma {:induction false} NoOrphansBound(procs: seq<Proc>, children: map<string, Child>)
    requires NoOrphans(procs, children)
    ensures LiveCount(procs) <= |children|
  {
    NoOrphansPrefix(procs, children, |procs|);
    assert procs[..|procs|] == procs;
    var below := set n | n in children && children[n].id < |procs|;
    SubsetSize(below, children.Keys);
    assert |children.Keys| == |children|;
  }

  lemma SubsetSize<T>(a: set<T>, b: set<T>)
    requires a <= b
    ensures |a| <= |b|
  {
    assert b == a + (b - a);
    assert |b| == |a| + |b - a|;
  }

  lemma {:induction false} NoOrphansPrefix(procs: seq<Proc>, children: map<string, Child>, k: nat)
    requires NoOrphans(procs, children) && k <= |procs|
    ensures LiveCount(procs[..k]) <= |set n | n in children && children[n].id < k|
  {
    if k > 0 {
      NoOrphansPrefix(procs, children, k - 1);
      assert procs[..k][..k - 1] == procs[..k - 1];
      var before := set n | n in children && children[n].id < k - 1;
      var now := set n | n in children && children[n].id < k;
      if IsLive(procs[k - 1]) {
        assert Accounted(procs, children, k - 1);
        SubsetSize(before + {procs[k - 1].spec.name}, now);
      } else {
        SubsetSize(before, now);
      }
    }
  }

  /** Exactly when the children map is right, at any loop head of a static supervisor with distinct names
      before its context is done: no accident has happened, that is the loop has never taken the notification of a
      goroutine whose start had failed, and no shutdown timer has fired.  So a failed restart alone does no harm;
      its leftover notification, once read, and a timeout always do, and nothing later can repair it. */
  lemma {:induction false} NoOrphansExactly(o: Oracle, cfg: Config, specs: seq<ChildSpec>, n: nat)
    requires Static(o) && DynSlice.DistinctNames(specs)
    requires var s := Run(o, cfg, specs, n); s.status.Looping? && !s.w.done
    ensures var s := Run(o, cfg, specs, n); NoOrphans(s.w.procs, s.children) <==> FaultFree(s.w.procs)
  {
    LawAlways(o, cfg, specs, n);
    OrphansMeanAccidents(Run(o, cfg, specs, n));
    if FaultFree(Run(o, cfg, specs, n).w.procs) {
      StaticNames(o, cfg, specs, n);
      ReachableIsGood(o, cfg, specs, n);
    }
  }

  /** The same for every supervisor, with control messages, as long as no failed spawn has drained the exit of a
      started child. */
  lemma {:induction false} NoOrphansOfRunsExactly(o: Oracle, cfg: Config, specs: seq<ChildSpec>, n: nat)
    requires NamesStayDistinct(o, cfg, specs, n) && NoneDrained(Run(o, cfg, specs, n).w.procs)
    requires var s := Run(o, cfg, specs, n); (s.status.Looping? || s.status.Draining?) && !s.w.done
    ensures var s := Run(o, cfg, specs, n); NoOrphans(s.w.procs, s.children) <==> FaultFree(s.w.procs)
  {
    LawOfRuns(o, cfg, specs, n);
    OrphansMeanAccidents(Run(o, cfg, specs, n));
    if FaultFree(Run(o, cfg, specs, n).w.procs) { ReachableIsGood(o, cfg, specs, n); }
  }

  lemma OrphansMeanAccidents(s: Sys)
    requires Law(s) && (s.status.Looping? || s.status.Draining?) && !s.w.done
    ensures NoOrphans(s.w.procs, s.children) ==> FaultFree(s.w.procs)
  {
    if NoOrphans(s.w.procs, s.children) {
      NoOrphansBound(s.w.procs, s.children);
      NoAccidents(s.w.procs);
    }
  }

  lemma {:induction false} NoAccidents(procs: seq<Proc>)
    ensures MisreadCount(procs) == 0 && TimedCount(procs) == 0 ==> FaultFree(procs)
  {
    if procs != [] {
      var n := |procs| - 1;
      NoAccidents(procs[..n]);
      if MisreadCount(procs) == 0 && TimedCount(procs) == 0 {
        forall id | 0 <= id < |procs| ensures Sound(procs[id]) {
          if id < n { assert Sound(procs[..n][id]); }
        }
      }
    }
  }

  /** A static supervisor's names never change. */
  lemma StaticNames(o: Oracle, cfg: Config, specs: seq<ChildSpec>, n: nat)
    requires Static(o) && DynSlice.DistinctNames(specs)
    ensures NamesStayDistinct(o, cfg, specs, n)
  {
    forall k | 0 <= k <= n ensures DynSlice.DistinctNames(Run(o, cfg, specs, k).specs) {
      LawAlways(o, cfg, specs, k);
    }
  }

  /** Exactly when a successful start records every child it started: the names are distinct. */
  lemma StartRecordsAllExactly(o: Oracle, cfg: Config, specs: seq<ChildSpec>)
    requires Start(o, cfg, specs).status.Looping?
    ensures var s := Start(o, cfg, specs);
            NoOrphans(s.w.procs, s.children) <==> DynSlice.DistinctNames(specs)
  {
    var s := Start(o, cfg, specs);
    var todo := SortStart(cfg.order, specs);
    NamesCountExactly(specs);
    NamesOfSorted(cfg.order, specs);
    StartAllEntries(o, VOID, cfg.order, specs, todo, map[]);
    assert |s.children.Keys| == |s.children|;
    CountsOfNothing(VOID);
    StartAllCounts(o, VOID, cfg.order, specs, todo, map[]);
    if NoOrphans(s.w.procs, s.children) {
      NoOrphansBound(s.w.procs, s.children);
    }
    if DynSlice.DistinctNames(specs) {
      StartIsSound(o, cfg, specs);
      StartIsGood(o, cfg, specs);
    }
  }

  /** A successful start, whatever the names: everybody started is live. */
  lemma {:induction false} StartAllCounts(o: Oracle, w: World, order: Order, specs: seq<ChildSpec>,
                                          todo: seq<ChildSpec>, acc: map<string, Child>)
    requires StartChildNodes(o, w, order, specs, todo, acc).err.None?
    ensures LiveCount(StartChildNodes(o, w, order, specs, todo, acc).w.procs) == LiveCount(w.procs) + |todo|
    ensures FaultFree(w.procs) ==> FaultFree(StartChildNodes(o, w, order, specs, todo, acc).w.procs)
    decreases |todo|
  {
    if todo != [] {
      var s := StartChildNode(o, w, todo[0]);
      CountsStart(o, w, todo[0]);
      SettleDrifts(w.procs, o(w.tick).exits);
      StartChildNodeGrows(o, w, todo[0]);
      if FaultFree(w.procs) {
        forall id | 0 <= id < |s.w.procs| ensures Sound(s.w.procs[id]) {
          if id < |w.procs| { assert Sound(w.procs[id]); }
        }
      }
      StartAllCounts(o, s.w, order, specs, todo[1..], acc[todo[0].name := s.child]);
    }
  }

  lemma StartIsSound(o: Oracle, cfg: Config, specs: seq<ChildSpec>)
    requires Start(o, cfg, specs).status.Looping?
    ensures FaultFree(Start(o, cfg, specs).w.procs)
  {
    StartAllCounts(o, VOID, cfg.order, specs, SortStart(cfg.order, specs), map[]);
  }
}
