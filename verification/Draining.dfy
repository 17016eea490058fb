/** What a failed spawn drains.  It reads one notification from the channel that all goroutines share, and that
    need not be the one of its own goroutine (internal/s/dyn_supervisor.go). */
module Draining {
  import opened Types
  import opened Ordering
  import opened Engine
  import opened Ledger
  import opened Operations
  import opened Runs
  import Stepping
  import Tolerance

  // ----- Waiting for a notification ---------------------------------------------------------------------

  /** Whose notification a draining supervisor takes in its next step, if any is on offer then. */
  function Drained(o: Oracle, s: Sys): Option<nat> { Offering(Interfere(o, s.w).procs, o(s.w.tick).drain) }

  ghost predicate NoOffer(procs: seq<Proc>) { forall id :: 0 <= id < |procs| ==> !procs[id].phase.Exiting? }

  /** An exit that makes a goroutine of `procs` end. */
  predicate Ends(procs: seq<Proc>, x: Exit) { x.id < |procs| && procs[x.id].phase.Running? }

  /** From `w` on nobody offers a notification: none is on offer, and no goroutine that is still running ever ends. */
  ghost predicate SilentForEver(o: Oracle, w: World) {
    NoOffer(w.procs) && forall t: nat, x :: t >= w.tick && x in o(t).exits ==> !Ends(w.procs, x)
  }

  lemma {:induction false} SettleIdle(procs: seq<Proc>, exits: seq<Exit>)
    requires forall x :: x in exits ==> !Ends(procs, x)
    ensures Settle(procs, exits) == procs
    decreases |exits|
  {
    if exits != [] {
      assert exits[0] in exits;
      SettleIdle(procs, exits[1..]);
    }
  }

  lemma {:induction false} SettleEnds(procs: seq<Proc>, exits: seq<Exit>, x: Exit)
    requires x in exits && Ends(procs, x)
    ensures x.id < |Settle(procs, exits)| && Settle(procs, exits)[x.id].phase.Exiting?
    decreases |exits|
  {
    var y := exits[0];
    var next := if y.id < |procs| && procs[y.id].phase.Running?
                then procs[y.id := procs[y.id].(phase := Exiting(y.err))] else procs;
    if y.id == x.id {
      SettleDrifts(next, exits[1..]);
      assert Drifted(next[x.id], Settle(next, exits[1..])[x.id]);
    } else {
      assert exits == [y] + exits[1..];
      SettleEnds(next, exits[1..], x);
    }
  }

  /** What a step of a draining supervisor comes to. */
  ghost predicate DrainStep(o: Oracle, s: Sys, s': Sys) {
    s.status.Draining? ==>
      var w1 := Interfere(o, s.w);
      && (s'.status.Draining? <==> NoOffer(w1.procs))
      && (s'.status.Draining? ==> s'.w == w1)
  }

  lemma DrainSteps(o: Oracle, cfg: Config, s: Sys)
    ensures DrainStep(o, s, Step(o, cfg, s))
  {}

  /** One tick without an offer: nobody has ended. */
  lemma QuietTick(o: Oracle, w: World)
    requires NoOffer(Interfere(o, w).procs)
    ensures Interfere(o, w).procs == w.procs && NoOffer(w.procs)
    ensures forall x :: x in o(w.tick).exits ==> !Ends(w.procs, x)
  {
    var procs := Interfere(o, w).procs;
    SettleDrifts(w.procs, o(w.tick).exits);
    forall id | 0 <= id < |w.procs| ensures procs[id] == w.procs[id] && !w.procs[id].phase.Exiting? {
      assert Drifted(w.procs[id], procs[id]);
    }
    forall x | x in o(w.tick).exits ensures !Ends(w.procs, x) {
      if Ends(w.procs, x) { SettleEnds(w.procs, o(w.tick).exits, x); }
    }
  }

  /** While it waits, only the tick and the context change. */
  lemma {:induction false} WaitsQuietly(o: Oracle, step: Sys -> Sys, run: nat -> Sys, k: nat, n: nat)
    requires Stepping.IsRun(step, run) && (forall s :: DrainStep(o, s, step(s))) && k <= n
    requires forall m: nat :: k <= m <= n ==> run(m).status.Draining?
    ensures run(n).w.procs == run(k).w.procs && run(n).w.tick == run(k).w.tick + (n - k)
    decreases n
  {
    if k < n {
      WaitsQuietly(o, step, run, k, n - 1);
      assert DrainStep(o, run(n - 1), step(run(n - 1))) && run(n - 1 + 1) == step(run(n - 1));
      QuietTick(o, run(n - 1).w);
    }
  }

  lemma {:induction false} SilenceKeepsWaiting(o: Oracle, step: Sys -> Sys, run: nat -> Sys, k: nat, n: nat)
    requires Stepping.IsRun(step, run) && (forall s :: DrainStep(o, s, step(s))) && k <= n
    requires run(k).status.Draining? && SilentForEver(o, run(k).w)
    ensures run(n).status.Draining? && SilentForEver(o, run(n).w)
    decreases n
  {
    if k < n {
      SilenceKeepsWaiting(o, step, run, k, n - 1);
      var w := run(n - 1).w;
      SettleIdle(w.procs, o(w.tick).exits);
      assert DrainStep(o, run(n - 1), step(run(n - 1))) && run(n - 1 + 1) == step(run(n - 1));
    }
  }

  lemma WaitingIsSilent(o: Oracle, step: Sys -> Sys, run: nat -> Sys, k: nat)
    requires Stepping.IsRun(step, run) && (forall s :: DrainStep(o, s, step(s)))
    requires forall n: nat :: k <= n ==> run(n).status.Draining?
    ensures SilentForEver(o, run(k).w)
  {
    var w := run(k).w;
    forall t: nat, x | t >= w.tick && x in o(t).exits ensures !Ends(w.procs, x) {
      var n := k + (t - w.tick);
      WaitsQuietly(o, step, run, k, n);
      NoOfferAt(o, step, run, n);
    }
    NoOfferAt(o, step, run, k);
  }

  lemma NoOfferAt(o: Oracle, step: Sys -> Sys, run: nat -> Sys, n: nat)
    requires Stepping.IsRun(step, run) && (forall s :: DrainStep(o, s, step(s)))
    requires run(n).status.Draining? && run(n + 1).status.Draining?
    ensures NoOffer(run(n).w.procs) && forall x :: x in o(run(n).w.tick).exits ==> !Ends(run(n).w.procs, x)
  {
    assert DrainStep(o, run(n), step(run(n))) && run(n + 1) == step(run(n));
    QuietTick(o, run(n).w);
  }

  /** A draining supervisor waits for ever exactly when no notification is on offer and none of its goroutines that
      still run ever ends.  Its context plays no part. */
  lemma {:induction false} DrainsForEverExactly(o: Oracle, cfg: Config, specs: seq<ChildSpec>, k: nat)
    requires Run(o, cfg, specs, k).status.Draining?
    ensures (forall n: nat :: k <= n ==> States(o, cfg, specs)(n).status.Draining?)
            <==> SilentForEver(o, States(o, cfg, specs)(k).w)
  {
    var step, run := Stepper(o, cfg), States(o, cfg, specs);
    StatesAreRun(o, cfg, specs);
    forall s ensures DrainStep(o, s, step(s)) { DrainSteps(o, cfg, s); }
    if SilentForEver(o, run(k).w) {
      forall n: nat | k <= n ensures run(n).status.Draining? { SilenceKeepsWaiting(o, step, run, k, n); }
    }
    if forall n: nat :: k <= n ==> run(n).status.Draining? { WaitingIsSilent(o, step, run, k); }
  }

  /** A dynamic supervisor whose first spawn fails, and whose context is then done, while the goroutine that the
      failed start left behind goes on. */
  ghost predicate LingeringScript(o: Oracle) {
    && o(0).turn.Spawn? && o(0).exits == [] && o(1).exits == [] && o(1).startErr.Some? && o(2).cancel
    && forall t: nat :: t >= 2 ==> o(t).exits == []
  }

  /** That supervisor never stops: its context is done and it waits for ever. */
  lemma {:induction false} DoneIsIgnoredWhileDraining(o: Oracle, cfg: Config, n: nat)
    requires LingeringScript(o) && n >= 2
    ensures var s := States(o, cfg, [])(n); s.status.Draining? && s.w.done
  {
    var step, run := Stepper(o, cfg), States(o, cfg, []);
    StatesAreRun(o, cfg, []);
    LingeringBegins(o, cfg);
    forall s | Lingering(s) ensures Lingering(step(s)) { LingersOn(o, cfg, s); }
    Stepping.Along(step, run, (s: Sys) => Lingering(s), 2, n);
  }

  /** Nobody offers anything, and nobody is going to. */
  ghost predicate Lingering(s: Sys) {
    && s.status.Draining? && s.w.done && s.w.tick >= 2
    && forall id :: 0 <= id < |s.w.procs| ==> s.w.procs[id].phase.Running?
  }

  lemma LingersOn(o: Oracle, cfg: Config, s: Sys)
    requires LingeringScript(o) && Lingering(s)
    ensures Lingering(Step(o, cfg, s))
  {
    SettleIdle(s.w.procs, o(s.w.tick).exits);
  }

  lemma {:induction false} LingeringBegins(o: Oracle, cfg: Config)
    requires LingeringScript(o)
    ensures Lingering(States(o, cfg, [])(2))
  {
    var none: seq<ChildSpec> := [];
    assert SortStart(cfg.order, none) == none;
    var s0 := Run(o, cfg, [], 0);
    assert s0.w.procs == [] && s0.w.tick == 0 && s0.status.Looping?;
    FirstSpawnFails(o, cfg, s0);
    assert Run(o, cfg, [], 1) == Step(o, cfg, s0);
    CancelledWhileDraining(o, cfg, Step(o, cfg, s0));
    assert Run(o, cfg, [], 2) == Step(o, cfg, Run(o, cfg, [], 1));
  }

  lemma CancelledWhileDraining(o: Oracle, cfg: Config, s1: Sys)
    requires LingeringScript(o)
    requires s1.status.Draining? && s1.w.tick == 2 && |s1.w.procs| == 1 && s1.w.procs[0].phase.Running?
    ensures Lingering(Step(o, cfg, s1))
  {
    SettleIdle(s1.w.procs, o(2).exits);
  }

  lemma FirstSpawnFails(o: Oracle, cfg: Config, s0: Sys)
    requires LingeringScript(o) && s0.w.procs == [] && s0.w.tick == 0 && s0.status.Looping?
    ensures var s1 := Step(o, cfg, s0);
            s1.status.Draining? && s1.w.tick == 2 && |s1.w.procs| == 1 && s1.w.procs[0].phase.Running?
  {}

  // ----- What is lost ---------------------------------------------------------------------------------------

  /** The drain keeps the books exactly when what it reads need not be reported, for it reports nothing: a failed
      start, or a subtree that has completed. */
  lemma DrainIsGoodExactly(o: Oracle, s: Sys)
    requires Good(s) && s.status.Draining? && Drained(o, s).Some?
    ensures var p := Interfere(o, s.w).procs[Drained(o, s).value];
            Good(Drain(o, s)) <==> !p.started || (p.spec.tag.Supervisor? && p.phase.err == None)
  {
    var w1, id := Interfere(o, s.w), Drained(o, s).value;
    var p, s' := w1.procs[id], Drain(o, s);
    LedgerInterfere(o, s.w, s.children);
    assert s'.w.trace == w1.trace;
    if p.started && ExitReport(s'.w.procs[id], id) != [] {
      assert Told(w1.procs, Story(w1.trace, id), id);
      assert !Told(s'.w.procs, Story(s'.w.trace, id), id);
    } else {
      DrainedQuietly(w1, s'.w, s.children, id);
    }
  }

  /** Taking the notification of a failed start or of a subtree. */
  lemma DrainedQuietly(w: World, w': World, owner: map<string, Child>, id: nat)
    requires Balanced(w, owner) && id < |w.procs| && w.procs[id].phase.Exiting?
    requires !w.procs[id].started || (w.procs[id].spec.tag.Supervisor? && w.procs[id].phase.err == None)
    requires w' == Receive(w, id, w.procs[id].started)
    ensures Balanced(w', owner)
  {
    forall i | 0 <= i < |w'.procs| ensures Accounted(w'.procs, owner, i) { assert Accounted(w.procs, owner, i); }
    forall n ensures ExpectedName(w'.procs, owner, n) == ExpectedName(w.procs, owner, n) {
      if n in owner { assert Recorded(w.procs, owner, n); }
    }
    forall n | n in owner ensures Recorded(w'.procs, owner, n) { assert Recorded(w.procs, owner, n); }
    forall i: nat ensures ExpectedId(w'.procs, i) == ExpectedId(w.procs, i) {}
    forall i: nat ensures Told(w'.procs, Story(w'.trace, i), i) { assert Told(w.procs, Story(w.trace, i), i); }
  }

  /** The map is keyed by name and still holds `ch`, though no goroutine of that name is left, nor is one on its way. */
  ghost predicate Forgotten(s: Sys, ch: Child) {
    && (forall n :: n in s.children ==> s.children[n].spec.name == n)
    && ch.spec.name in s.children && s.children[ch.spec.name] == ch
    && Extinct(s.w.procs, ch.spec.name)
    && (s.status.Restarting? ==> s.status.source.spec.name != ch.spec.name)
  }

  ghost predicate Extinct(procs: seq<Proc>, name: string) {
    forall id :: 0 <= id < |procs| && procs[id].spec.name == name ==> procs[id].phase.Gone?
  }

  /** No control message is about `name`. */
  ghost predicate Unmentioned(o: Oracle, name: string) {
    forall t: nat :: o(t).turn != Stop(name) && (o(t).turn.Spawn? ==> o(t).turn.spec.name != name)
  }

  lemma ExtinctGrows(a: seq<Proc>, b: seq<Proc>, name: string)
    requires Extinct(a, name) && Grows(a, b)
    requires forall id :: |a| <= id < |b| ==> b[id].spec.name != name
    ensures Extinct(b, name)
  {
    forall id | 0 <= id < |b| && b[id].spec.name == name ensures b[id].phase.Gone? {
      assert Grown(a[id], b[id]);
    }
  }

  lemma StoppedStaysForgotten(o: Oracle, cfg: Config, s: Sys, r: Option<GaveUp>, ch: Child)
    requires Forgotten(s, ch)
    ensures Forgotten(TerminateSupervisor(o, cfg, s, r), ch)
  {
    var todo := SortTermination(cfg.order, s.specs);
    var h := TerminateChildNodes(o, s.w, todo, s.children, None, map[]);
    TerminateChildNodesGrows(o, s.w, todo, s.children, None, map[]);
    InterfereKeeps(o, h.w);
    ExtinctGrows(s.w.procs, h.w.procs, ch.spec.name);
    ExtinctGrows(h.w.procs, Interfere(o, h.w).procs, ch.spec.name);
  }

  lemma RestartLeavesForgotten(o: Oracle, s: Sys, source: Child, ch: Child)
    requires Forgotten(s, ch) && source.spec.name != ch.spec.name
    ensures Forgotten(OneForOneRestart(o, s, source), ch)
  {
    InterfereKeeps(o, s.w);
    ExtinctGrows(s.w.procs, Interfere(o, s.w).procs, ch.spec.name);
  }

  lemma WaitLeavesForgotten(o: Oracle, cfg: Config, s: Sys, source: Child, ch: Child)
    requires cfg.strategy.OneForOne? && Forgotten(s, ch) && source.spec.name != ch.spec.name
    ensures Forgotten(BackoffAndRestart(o, cfg, s, source), ch)
  {
    var s1 := s.(w := Interfere(o, s.w));
    InterfereKeeps(o, s.w);
    ExtinctGrows(s.w.procs, s1.w.procs, ch.spec.name);
    RestartLeavesForgotten(o, s, source, ch);
    RestartLeavesForgotten(o, s1, source, ch);
  }

  lemma IterationLeavesForgotten(o: Oracle, cfg: Config, s: Sys, ch: Child)
    requires cfg.strategy.OneForOne? && Forgotten(s, ch) && s.status.Restarting?
    ensures Forgotten(Step(o, cfg, s), ch)
  {
    var source, prev := s.status.source, s.status.prev;
    if prev.None? {
      WaitLeavesForgotten(o, cfg, s, source, ch);
    } else {
      var a := Tolerance.Admit(s.mgr, prev.value, o(s.w.tick).clock);
      var s1 := s.(w := Interfere(o, s.w), mgr := a.mgr);
      InterfereKeeps(o, s.w);
      ExtinctGrows(s.w.procs, s1.w.procs, ch.spec.name);
      if a.ok {
        WaitLeavesForgotten(o, cfg, s1, source, ch);
      } else {
        StoppedStaysForgotten(o, cfg, s1,
          Some(GaveUp(source.spec.name, cfg.policy.max, cfg.policy.window, a.mgr.source, prev.value)), ch);
      }
    }
  }

  lemma NotificationLeavesForgotten(s: Sys, id: nat, ch: Child)
    requires Forgotten(s, ch) && id < |s.w.procs| && s.w.procs[id].phase.Exiting? && s.status.Looping?
    ensures Forgotten(HandleNotification(s, id), ch)
  {
    var p := s.w.procs[id];
    assert p.spec.name != ch.spec.name;
    HandledProcs(s, id);
    ExtinctGrows(s.w.procs, HandleNotification(s, id).w.procs, ch.spec.name);
    HandlingMeans(s, id);
  }

  lemma SpawnLeavesForgotten(o: Oracle, s: Sys, spec: ChildSpec, ch: Child)
    requires Forgotten(s, ch) && spec.name != ch.spec.name && s.status.Looping?
    ensures Forgotten(SpawnChild(o, s, spec), ch)
  {
    InterfereKeeps(o, s.w);
    ExtinctGrows(s.w.procs, Interfere(o, s.w).procs, ch.spec.name);
  }

  lemma StopLeavesForgotten(o: Oracle, s: Sys, name: string, ch: Child)
    requires Forgotten(s, ch) && name != ch.spec.name && s.status.Looping?
    ensures Forgotten(StopChild(o, s, name), ch)
  {
    if name in s.children {
      TerminateChildNodeGrows(o, s.w, s.children[name]);
      ExtinctGrows(s.w.procs, StopChild(o, s, name).w.procs, ch.spec.name);
    }
  }

  /** One-for-one: no step brings a forgotten child back. */
  lemma StaysForgotten(o: Oracle, cfg: Config, s: Sys, ch: Child)
    requires cfg.strategy.OneForOne? && Forgotten(s, ch) && Unmentioned(o, ch.spec.name)
    ensures Forgotten(Step(o, cfg, s), ch)
  {
    var s1 := s.(w := Interfere(o, s.w));
    InterfereKeeps(o, s.w);
    ExtinctGrows(s.w.procs, s1.w.procs, ch.spec.name);
    match s.status {
      case Looping =>
        match o(s.w.tick).turn {
          case Shutdown => if s1.w.done { StoppedStaysForgotten(o, cfg, s1, None, ch); }
          case Notify(id) =>
            if id < |s1.w.procs| && s1.w.procs[id].phase.Exiting? { NotificationLeavesForgotten(s1, id, ch); }
          case Spawn(spec) => SpawnLeavesForgotten(o, s1, spec, ch);
          case Stop(name) => StopLeavesForgotten(o, s1, name, ch);
        }
      case Restarting(_, _) => IterationLeavesForgotten(o, cfg, s, ch);
      case Draining => DrainLeavesForgotten(o, s, ch);
      case _ =>
    }
  }

  lemma DrainLeavesForgotten(o: Oracle, s: Sys, ch: Child)
    requires Forgotten(s, ch) && s.status.Draining?
    ensures Forgotten(Drain(o, s), ch)
  {
    InterfereKeeps(o, s.w);
    ExtinctGrows(s.w.procs, Interfere(o, s.w).procs, ch.spec.name);
  }

  /** No failed start of that name has left a goroutine behind. */
  ghost predicate NoneFailedToStart(procs: seq<Proc>, name: string) {
    forall id :: 0 <= id < |procs| && procs[id].spec.name == name && !procs[id].started ==> procs[id].phase.Gone?
  }

  /** A failed spawn that reads the exit of a live child: its entry stays in the map and, unless a control message
      names it, no one-for-one supervisor ever starts it again, whatever its restart policy. */
  lemma {:induction false} DrainedChildNeverReturns(o: Oracle, cfg: Config, specs: seq<ChildSpec>, k: nat, n: nat)
      returns (ch: Child)
    requires cfg.strategy.OneForOne? && NamesStayDistinct(o, cfg, specs, k) && FaultFree(Run(o, cfg, specs, k).w.procs)
    requires var s := Run(o, cfg, specs, k);
             && s.status.Draining? && Drained(o, s).Some?
             && var p := Interfere(o, s.w).procs[Drained(o, s).value];
                && p.started && Unmentioned(o, p.spec.name)
                && NoneFailedToStart(s.w.procs, p.spec.name)
    requires k < n
    ensures var s := Run(o, cfg, specs, k);
            ch == Child(Drained(o, s).value, Interfere(o, s.w).procs[Drained(o, s).value].spec)
    ensures var s := Run(o, cfg, specs, n);
            && ch.spec.name in s.children && s.children[ch.spec.name] == ch
            && forall id ::
                 0 <= id < |s.w.procs| && s.w.procs[id].spec.name == ch.spec.name ==> s.w.procs[id].phase.Gone?
  {
    ReachableIsGood(o, cfg, specs, k);
    ch := DrainForgets(o, Run(o, cfg, specs, k));
    var step, run := Stepper(o, cfg), States(o, cfg, specs);
    StatesAreRun(o, cfg, specs);
    assert run(k + 1) == Drain(o, run(k));
    forall s | Forgotten(s, ch) ensures Forgotten(step(s), ch) { StaysForgotten(o, cfg, s, ch); }
    Stepping.Along(step, run, (s: Sys) => Forgotten(s, ch), k + 1, n);
  }

  lemma DrainForgets(o: Oracle, s: Sys) returns (ch: Child)
    requires Good(s) && s.status.Draining? && Drained(o, s).Some?
    requires var p := Interfere(o, s.w).procs[Drained(o, s).value];
             p.started && NoneFailedToStart(s.w.procs, p.spec.name)
    ensures ch == Child(Drained(o, s).value, Interfere(o, s.w).procs[Drained(o, s).value].spec)
    ensures Forgotten(Drain(o, s), ch)
  {
    var w1, drained := Interfere(o, s.w), Drained(o, s).value;
    var p, s' := w1.procs[drained], Drain(o, s);
    var name := p.spec.name;
    ch := Child(drained, p.spec);
    InterfereKeeps(o, s.w);
    LedgerInterfere(o, s.w, s.children);
    assert Accounted(w1.procs, s.children, drained);
    assert Recorded(w1.procs, s.children, name);
    forall n | n in s'.children ensures s'.children[n].spec.name == n { assert Recorded(w1.procs, s.children, n); }
    forall id | 0 <= id < |s'.w.procs| && s'.w.procs[id].spec.name == name ensures s'.w.procs[id].phase.Gone? {
      assert Grown(s.w.procs[id], w1.procs[id]);
      assert Accounted(w1.procs, s.children, id);
    }
  }
}
