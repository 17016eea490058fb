/** A calm environment, in which no shutdown timer fires and no start fails, causes no accident; so
    in it every theorem about fault-free runs applies outright. */
module Environment {
  import opened Types
  import opened Ordering
  import opened Engine
  import opened Ledger
  import opened Runs
  import Tolerance

  ghost predicate Calm(o: Oracle) { forall t: nat :: !o(t).timer && o(t).startErr.None? }

  predicate Flawless(p: Proc) { p.started && Sound(p) }

  ghost predicate AllFlawless(procs: seq<Proc>) { forall id :: 0 <= id < |procs| ==> Flawless(procs[id]) }

  lemma CalmInterfere(o: Oracle, w: World)
    requires AllFlawless(w.procs)
    ensures AllFlawless(Interfere(o, w).procs)
  {
    SettleDrifts(w.procs, o(w.tick).exits);
    forall id | 0 <= id < |w.procs| ensures Flawless(Interfere(o, w).procs[id]) {
      assert Flawless(w.procs[id]);
    }
  }

  lemma CalmStop(o: Oracle, w: World, ch: Child)
    requires Calm(o) && AllFlawless(w.procs)
    ensures AllFlawless(TerminateChildNode(o, w, ch).w.procs)
  {
    CalmInterfere(o, w);
    var w1 := Interfere(o, w);
    if ch.id < |w1.procs| { assert Flawless(w1.procs[ch.id]); }
  }

  lemma {:induction false} CalmStopAll(o: Oracle, w: World, todo: seq<ChildSpec>, children: map<string, Child>,
                                       skip: Option<string>, errs: map<string, Error>)
    requires Calm(o) && AllFlawless(w.procs)
    ensures AllFlawless(TerminateChildNodes(o, w, todo, children, skip, errs).w.procs)
    decreases |todo|
  {
    if todo != [] {
      var name := todo[0].name;
      if Some(name) == skip || name !in children {
        CalmStopAll(o, w, todo[1..], children, skip, errs);
      } else {
        var h := TerminateChildNode(o, w, children[name]);
        CalmStop(o, w, children[name]);
        CalmStopAll(o, h.w, todo[1..], children, skip, if h.err.Some? then errs[name := h.err.value] else errs);
      }
    }
  }

  lemma CalmStart(o: Oracle, w: World, spec: ChildSpec)
    requires Calm(o) && AllFlawless(w.procs)
    ensures AllFlawless(StartChildNode(o, w, spec).w.procs) && AllFlawless(DoStart(o, w, spec).w.procs)
    ensures StartChildNode(o, w, spec).err.None?
  {
    CalmInterfere(o, w);
    assert o(w.tick).startErr.None?;
  }

  lemma {:induction false} CalmStartAll(o: Oracle, w: World, order: Order, specs: seq<ChildSpec>,
                                        todo: seq<ChildSpec>, acc: map<string, Child>)
    requires Calm(o) && AllFlawless(w.procs)
    ensures AllFlawless(StartChildNodes(o, w, order, specs, todo, acc).w.procs)
    decreases |todo|
  {
    if todo != [] {
      var s := StartChildNode(o, w, todo[0]);
      CalmStart(o, w, todo[0]);
      CalmStartAll(o, s.w, order, specs, todo[1..], acc[todo[0].name := s.child]);
    }
  }

  lemma CalmShutdown(o: Oracle, cfg: Config, s: Sys, r: Option<GaveUp>)
    requires Calm(o) && AllFlawless(s.w.procs)
    ensures AllFlawless(TerminateSupervisor(o, cfg, s, r).w.procs)
  {
    var todo := SortTermination(cfg.order, s.specs);
    CalmStopAll(o, s.w, todo, s.children, None, map[]);
    CalmInterfere(o, TerminateChildNodes(o, s.w, todo, s.children, None, map[]).w);
  }

  lemma CalmExec(o: Oracle, cfg: Config, s: Sys, source: Child)
    requires Calm(o) && AllFlawless(s.w.procs)
    ensures AllFlawless(ExecRestart(o, cfg, s, source).w.procs)
  {
    if cfg.strategy.OneForOne? {
      CalmStart(o, s.w, source.spec);
    } else {
      var todo := SortTermination(cfg.order, s.specs);
      var h := TerminateChildNodes(o, s.w, todo, s.children, Some(source.spec.name), map[]);
      CalmStopAll(o, s.w, todo, s.children, Some(source.spec.name), map[]);
      CalmStartAll(o, h.w, cfg.order, s.specs, SortStart(cfg.order, s.specs), map[]);
    }
  }

  lemma CalmBackoff(o: Oracle, cfg: Config, s: Sys, source: Child)
    requires Calm(o) && AllFlawless(s.w.procs)
    ensures AllFlawless(BackoffAndRestart(o, cfg, s, source).w.procs)
    ensures !BackoffAndRestart(o, cfg, s, source).status.Draining?
  {
    CalmInterfere(o, s.w);
    CalmExec(o, cfg, s, source);
    CalmExec(o, cfg, s.(w := Interfere(o, s.w)), source);
  }

  lemma CalmNotification(s: Sys, id: nat)
    requires AllFlawless(s.w.procs) && id < |s.w.procs| && s.w.procs[id].phase.Exiting? && s.status.Looping?
    ensures AllFlawless(HandleNotification(s, id).w.procs) && !HandleNotification(s, id).status.Draining?
  {
    assert Flawless(s.w.procs[id]);
    assert HandleNotification(s, id).w.procs == Receive(s.w, id, false).procs;
  }

  lemma CalmStep(o: Oracle, cfg: Config, s: Sys)
    requires Calm(o) && AllFlawless(s.w.procs) && !s.status.Draining?
    ensures AllFlawless(Step(o, cfg, s).w.procs) && !Step(o, cfg, s).status.Draining?
  {
    CalmInterfere(o, s.w);
    var s1 := s.(w := Interfere(o, s.w));
    match s.status {
      case Looping =>
        match o(s.w.tick).turn {
          case Shutdown => if s1.w.done { CalmShutdown(o, cfg, s1, None); }
          case Notify(id) => if id < |s1.w.procs| && s1.w.procs[id].phase.Exiting? { CalmNotification(s1, id); }
          case Spawn(spec) => CalmStart(o, s1.w, spec);
          case Stop(name) => if name in s1.children { CalmStop(o, s1.w, s1.children[name]); }
        }
      case Restarting(source, prev) =>
        if prev.None? {
          CalmBackoff(o, cfg, s, source);
        } else {
          var a := Tolerance.Admit(s.mgr, prev.value, o(s.w.tick).clock);
          if a.ok {
            CalmBackoff(o, cfg, s1.(mgr := a.mgr), source);
          } else {
            CalmShutdown(o, cfg, s1.(mgr := a.mgr),
              Some(GaveUp(source.spec.name, cfg.policy.max, cfg.policy.window, a.mgr.source, prev.value)));
          }
        }
      case _ =>
    }
  }

  ghost predicate CalmAt(o: Oracle, cfg: Config, specs: seq<ChildSpec>, n: nat) {
    AllFlawless(Run(o, cfg, specs, n).w.procs) && !Run(o, cfg, specs, n).status.Draining?
  }

  lemma CalmOneMore(o: Oracle, cfg: Config, specs: seq<ChildSpec>, n: nat)
    requires n > 0 && Calm(o) && CalmAt(o, cfg, specs, n - 1)
    ensures CalmAt(o, cfg, specs, n)
  {
    CalmStep(o, cfg, Run(o, cfg, specs, n - 1));
  }

  lemma CalmAtStart(o: Oracle, cfg: Config, specs: seq<ChildSpec>)
    requires Calm(o)
    ensures CalmAt(o, cfg, specs, 0)
  {
    CalmStartAll(o, VOID, cfg.order, specs, SortStart(cfg.order, specs), map[]);
  }

  lemma {:induction false} CalmAlways(o: Oracle, cfg: Config, specs: seq<ChildSpec>, n: nat)
    requires Calm(o)
    ensures CalmAt(o, cfg, specs, n)
  {
    if n == 0 {
      CalmAtStart(o, cfg, specs);
    } else {
      CalmAlways(o, cfg, specs, n - 1);
      CalmOneMore(o, cfg, specs, n);
    }
  }

  /** The plain form of the main theorem: distinct names, no shutdown timeout and no failed start are enough,
      in every interleaving, for the ledger to balance at every step. */
  lemma {:induction false} CalmRunsAreGood(o: Oracle, cfg: Config, specs: seq<ChildSpec>, n: nat)
    requires Calm(o) && NamesStayDistinct(o, cfg, specs, n)
    ensures Good(Run(o, cfg, specs, n))
  {
    CalmAlways(o, cfg, specs, n);
    var s := Run(o, cfg, specs, n);
    forall id | 0 <= id < |s.w.procs| ensures Sound(s.w.procs[id]) {
      assert Flawless(s.w.procs[id]);
    }
    ReachableIsGood(o, cfg, specs, n);
  }
}
