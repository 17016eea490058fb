/** The siblings of one supervisor: what the engine does to them is what the tree model does to them, event by event,
    for every oracle (internal/s/monitor.go). */
module Siblings {
  import opened Types
  import opened Ordering
  import opened Engine
  import opened Ledger
  import DynSlice
  import Trees

  type Path = Trees.Path

  /** The part of a child that its parent reports: a failed start, the start of a worker, and the exit.  A subtree
      reports its own start, and the starts and exits below it, by itself. */
  function Reported(spec: ChildSpec, startFails: bool, stopFails: bool, path: Path): Trees.Outcome {
    var own := path + [spec.name];
    var start := if startFails then [Trees.Ev(StartFailed, own)]
                 else if spec.tag.Worker? then [Trees.Ev(Started, own)] else [];
    Trees.Outcome(spec.name, start, startFails, [Trees.Ev(if stopFails then Failed else Terminated, own)], stopFails)
  }

  /** The outcomes of siblings of which `bad` fail to start and `stuck` fail to stop. */
  function Outcomes(specs: seq<ChildSpec>, bad: set<string>, stuck: set<string>, path: Path): (os: seq<Trees.Outcome>)
    ensures |os| == |specs|
    ensures forall i ::
              0 <= i < |specs| ==> os[i] == Reported(specs[i], specs[i].name in bad, specs[i].name in stuck, path)
  {
    seq(|specs|, i requires 0 <= i < |specs| => Reported(specs[i], specs[i].name in bad, specs[i].name in stuck, path))
  }

  /** Events of the engine as events of the tree whose supervisor has the path `path`. */
  function Seen(trace: seq<Event>, path: Path): (evs: seq<Trees.Ev>)
    ensures |evs| == |trace|
    ensures forall i :: 0 <= i < |trace| ==> evs[i] == Trees.Ev(trace[i].kind, path + [trace[i].name])
  {
    seq(|trace|, i requires 0 <= i < |trace| => Trees.Ev(trace[i].kind, path + [trace[i].name]))
  }

  /** What `b` has reported since `a`. */
  function Since(a: World, b: World, path: Path): seq<Trees.Ev>
    requires a.trace <= b.trace
  {
    Seen(b.trace[|a.trace|..], path)
  }

  lemma SinceTwice(a: World, b: World, c: World, path: Path)
    requires a.trace <= b.trace && b.trace <= c.trace
    ensures Since(a, c, path) == Since(a, b, path) + Since(b, c, path)
  {
    assert c.trace[|a.trace|..] == b.trace[|a.trace|..] + c.trace[|b.trace|..];
  }

  // ----- Stopping -------------------------------------------------------------------------------------------

  /** Every entry of the map has its own goroutine, whose exit nobody has taken yet. */
  ghost predicate Ready(procs: seq<Proc>, children: map<string, Child>) {
    && (forall n :: n in children ==> ReadyEntry(procs, children, n))
    && (forall m, n :: m in children && n in children && m != n ==> children[m].id != children[n].id)
  }

  ghost predicate ReadyEntry(procs: seq<Proc>, children: map<string, Child>, n: string)
    requires n in children
  {
    children[n].spec.name == n && children[n].id < |procs| && Undelivered(procs[children[n].id])
  }

  lemma StopsOne(o: Oracle, w: World, children: map<string, Child>, name: string, path: Path)
    requires Ready(w.procs, children) && name in children
    ensures var h := TerminateChildNode(o, w, children[name]);
            && w.trace <= h.w.trace
            && Since(w, h.w, path) == [Trees.Ev(if h.err.Some? then Failed else Terminated, path + [name])]
            && Ready(h.w.procs, children - {name})
  {
    InterfereKeeps(o, w);
    var h, w1 := TerminateChildNode(o, w, children[name]), Interfere(o, w);
    assert ReadyEntry(w.procs, children, name);
    forall n | n in children - {name} ensures ReadyEntry(h.w.procs, children - {name}, n) {
      assert ReadyEntry(w.procs, children, n);
      assert h.w.procs[children[n].id] == w1.procs[children[n].id];
    }
  }

  lemma OutcomesTail(specs: seq<ChildSpec>, bad: set<string>, stuck: set<string>, path: Path)
    requires specs != []
    ensures Outcomes(specs, bad, stuck, path)[1..] == Outcomes(specs[1..], bad, stuck, path)
  {}

  /** The tree's stop over the same children: entries that are not visited any more make no difference. */
  lemma {:induction false} StopKidsWithout(todo: seq<Trees.Outcome>, up: set<string>, name: string)
    requires forall x :: x in todo ==> x.name != name
    ensures Trees.StopKids(todo, up - {name}) == Trees.StopKids(todo, up)
  {
    if todo != [] {
      assert todo[0] in todo;
      StopKidsWithout(todo[1..], up, name);
    }
  }

  ghost predicate Unnamed(todo: seq<ChildSpec>, names: set<string>) { forall x :: x in todo ==> x.name !in names }

  /** Stopping siblings reports what the tree model says, and its error map names exactly those that fail. */
  lemma {:induction false} StopRefines(o: Oracle, w: World, todo: seq<ChildSpec>, children: map<string, Child>,
                                       errs: map<string, Error>, bad: set<string>, path: Path)
    requires DynSlice.DistinctNames(todo) && Ready(w.procs, children) && Unnamed(todo, errs.Keys)
    ensures var h := TerminateChildNodes(o, w, todo, children, None, errs);
            && w.trace <= h.w.trace
            && Since(w, h.w, path) == Trees.StopKids(Outcomes(todo, bad, h.errs.Keys, path), children.Keys)
            && (forall n :: Unnamed(todo, {n}) ==> (n in h.errs <==> n in errs))
    decreases |todo|
  {
    var h := TerminateChildNodes(o, w, todo, children, None, errs);
    if todo != [] {
      var name, tail := todo[0].name, todo[1..];
      if name !in children {
        OutcomesTail(todo, bad, h.errs.Keys, path);
        StopRefines(o, w, tail, children, errs, bad, path);
      } else {
        var one := TerminateChildNode(o, w, children[name]);
        var errs' := if one.err.Some? then errs[name := one.err.value] else errs;
        StopsOne(o, w, children, name, path);
        StopLater(o, one.w, tail, children, name, errs');
        StopRefines(o, one.w, tail, children - {name}, errs', bad, path);
        StoppedHead(w, one, h, todo, children, errs, bad, path);
      }
    }
  }

  lemma StoppedHead(w: World, one: Halt, h: Halts, todo: seq<ChildSpec>, children: map<string, Child>,
                    errs: map<string, Error>, bad: set<string>, path: Path)
    requires todo != [] && DynSlice.DistinctNames(todo) && todo[0].name in children && todo[0].name !in errs
    requires w.trace <= one.w.trace <= h.w.trace
    requires Since(w, one.w, path) == Reported(todo[0], false, one.err.Some?, path).stop
    requires Since(one.w, h.w, path)
             == Trees.StopKids(Outcomes(todo[1..], bad, h.errs.Keys, path), children.Keys - {todo[0].name})
    requires forall n ::
               Unnamed(todo[1..], {n}) ==> (n in h.errs <==> n in errs || (n == todo[0].name && one.err.Some?))
    ensures Since(w, h.w, path) == Trees.StopKids(Outcomes(todo, bad, h.errs.Keys, path), children.Keys)
    ensures forall n :: Unnamed(todo, {n}) ==> (n in h.errs <==> n in errs)
  {
    var name, tail := todo[0].name, todo[1..];
    OutcomesTail(todo, bad, h.errs.Keys, path);
    SinceTwice(w, one.w, h.w, path);
    assert Unnamed(tail, {name});
    StopKidsWithout(Outcomes(tail, bad, h.errs.Keys, path), children.Keys, name);
    forall n | Unnamed(todo, {n}) ensures n in h.errs <==> n in errs {
      assert todo[0] in todo && Unnamed(tail, {n});
    }
  }

  /** The entry of a child that has been visited is not looked at again. */
  lemma {:induction false} StopLater(o: Oracle, w: World, todo: seq<ChildSpec>, children: map<string, Child>,
                                     name: string, errs: map<string, Error>)
    requires Unnamed(todo, {name})
    ensures TerminateChildNodes(o, w, todo, children - {name}, None, errs)
            == TerminateChildNodes(o, w, todo, children, None, errs)
    decreases |todo|
  {
    if todo != [] {
      assert todo[0].name != name;
      if todo[0].name !in children {
        StopLater(o, w, todo[1..], children, name, errs);
      } else {
        var h := TerminateChildNode(o, w, children[todo[0].name]);
        StopLater(o, h.w, todo[1..], children, name, if h.err.Some? then errs[todo[0].name := h.err.value] else errs);
      }
    }
  }

  // ----- Starting -------------------------------------------------------------------------------------------

  /** The child that failed to start, and those that then failed to stop. */
  function Bad(l: Launch): set<string> {
    if l.err.Some? && l.err.value.StartError? then {l.err.value.node} else {}
  }

  function Stuck(l: Launch): set<string> {
    if l.err.Some? && l.err.value.StartError? then l.err.value.stuck.Keys else {}
  }

  lemma StartsOne(o: Oracle, w: World, spec: ChildSpec, acc: map<string, Child>, path: Path)
    requires Ready(w.procs, acc)
    ensures var s := StartChildNode(o, w, spec);
            && w.trace <= s.w.trace
            && Since(w, s.w, path) == Reported(spec, s.err.Some?, false, path).start
            && Ready(s.w.procs, if s.err.Some? then acc else acc[spec.name := s.child])
  {
    InterfereKeeps(o, w);
    var s := StartChildNode(o, w, spec);
    var acc' := if s.err.Some? then acc else acc[spec.name := s.child];
    forall n | n in acc' ensures ReadyEntry(s.w.procs, acc', n) {
      if n in acc { assert ReadyEntry(w.procs, acc, n); }
    }
    forall m, n | m in acc' && n in acc' && m != n ensures acc'[m].id != acc'[n].id {
      if m in acc { assert ReadyEntry(w.procs, acc, m); }
      if n in acc { assert ReadyEntry(w.procs, acc, n); }
    }
  }

  ghost predicate StartAgrees(w: World, l: Launch, todo: seq<ChildSpec>, all: seq<ChildSpec>, up: set<string>,
                              path: Path) {
    && w.trace <= l.w.trace
    && Since(w, l.w, path)
       == Trees.StartKids(Outcomes(todo, Bad(l), Stuck(l), path), Outcomes(all, Bad(l), Stuck(l), path), up)
    && (l.err.None? <==> Bad(l) == {})
    && (forall n :: n in Bad(l) ==> !Unnamed(todo, {n}))
  }

  lemma {:induction false} StartRefinesFrom(o: Oracle, w: World, order: Order, specs: seq<ChildSpec>,
                                            todo: seq<ChildSpec>, acc: map<string, Child>, path: Path)
    requires DynSlice.DistinctNames(SortTermination(order, specs)) && DynSlice.DistinctNames(todo)
             && Ready(w.procs, acc)
    ensures StartAgrees(w, StartChildNodes(o, w, order, specs, todo, acc), todo, SortTermination(order, specs),
                        acc.Keys, path)
    decreases |todo|
  {
    var l, all := StartChildNodes(o, w, order, specs, todo, acc), SortTermination(order, specs);
    if todo != [] {
      var s := StartChildNode(o, w, todo[0]);
      StartsOne(o, w, todo[0], acc, path);
      if s.err.Some? {
        var h := TerminateChildNodes(o, s.w, all, acc, None, map[]);
        StopRefines(o, s.w, all, acc, map[], {todo[0].name}, path);
        FailedHead(w, s, h, todo, all, acc, path);
      } else {
        var acc' := acc[todo[0].name := s.child];
        assert acc'.Keys == acc.Keys + {todo[0].name};
        StartRefinesFrom(o, s.w, order, specs, todo[1..], acc', path);
        StartedHead(w, s, l, todo, all, acc, path);
      }
    }
  }

  lemma FailedHead(w: World, s: Spawned, h: Halts, todo: seq<ChildSpec>, all: seq<ChildSpec>, acc: map<string, Child>,
                   path: Path)
    requires todo != [] && s.err.Some? && w.trace <= s.w.trace <= h.w.trace
    requires Since(w, s.w, path) == Reported(todo[0], true, false, path).start
    requires Since(s.w, h.w, path) == Trees.StopKids(Outcomes(all, {todo[0].name}, h.errs.Keys, path), acc.Keys)
    ensures StartAgrees(w, Launch(h.w, map[], Some(StartError(todo[0].name, s.err.value, h.errs))), todo, all,
                        acc.Keys, path)
  {
    SinceTwice(w, s.w, h.w, path);
    assert todo[0] in todo;
  }

  lemma StartedHead(w: World, s: Spawned, l: Launch, todo: seq<ChildSpec>, all: seq<ChildSpec>, acc: map<string, Child>,
                    path: Path)
    requires todo != [] && DynSlice.DistinctNames(todo) && w.trace <= s.w.trace
    requires Since(w, s.w, path) == Reported(todo[0], false, false, path).start
    requires StartAgrees(s.w, l, todo[1..], all, acc.Keys + {todo[0].name}, path)
    ensures StartAgrees(w, l, todo, all, acc.Keys, path)
  {
    SinceTwice(w, s.w, l.w, path);
    OutcomesTail(todo, Bad(l), Stuck(l), path);
    assert Unnamed(todo[1..], {todo[0].name});
    assert todo[0].name !in Bad(l);
    forall n | n in Bad(l) ensures !Unnamed(todo, {n}) {
      var x :| x in todo[1..] && x.name == n;
      assert x in todo;
    }
  }

  lemma SortedOutcomes(order: Order, specs: seq<ChildSpec>, bad: set<string>, stuck: set<string>, path: Path)
    ensures Outcomes(SortStart(order, specs), bad, stuck, path) == SortStart(order, Outcomes(specs, bad, stuck, path))
    ensures Outcomes(SortTermination(order, specs), bad, stuck, path)
            == SortTermination(order, Outcomes(specs, bad, stuck, path))
  {
    ReversedOutcomes(specs, bad, stuck, path);
  }

  lemma {:induction false} ReversedOutcomes(specs: seq<ChildSpec>, bad: set<string>, stuck: set<string>, path: Path)
    ensures Outcomes(Reverse(specs), bad, stuck, path) == Reverse(Outcomes(specs, bad, stuck, path))
  {
    var l, r := Outcomes(Reverse(specs), bad, stuck, path), Reverse(Outcomes(specs, bad, stuck, path));
    forall i | 0 <= i < |l| ensures l[i] == r[i] {}
  }

  lemma SortedDistinct(order: Order, specs: seq<ChildSpec>)
    requires DynSlice.DistinctNames(specs)
    ensures DynSlice.DistinctNames(SortStart(order, specs)) && DynSlice.DistinctNames(SortTermination(order, specs))
  {}

  lemma FailsIffBad(specs: seq<ChildSpec>, bad: set<string>, stuck: set<string>, path: Path)
    ensures Trees.StartFails(Outcomes(specs, bad, stuck, path))
            <==> exists i :: 0 <= i < |specs| && specs[i].name in bad
  {
    var os := Outcomes(specs, bad, stuck, path);
    if i :| 0 <= i < |specs| && specs[i].name in bad { assert os[i].startFails; }
  }

  /** For every oracle, starting the children of a supervisor reports what the tree model says of siblings with the
      outcomes that came up, and it fails exactly when the tree model does. */
  lemma {:induction false} StartRefines(o: Oracle, w: World, order: Order, specs: seq<ChildSpec>, path: Path)
    requires DynSlice.DistinctNames(specs)
    ensures var l := StartChildNodes(o, w, order, specs, SortStart(order, specs), map[]);
            var os := Outcomes(specs, Bad(l), Stuck(l), path);
            && w.trace <= l.w.trace
            && Since(w, l.w, path) == Trees.StartKids(SortStart(order, os), SortTermination(order, os), {})
            && (l.err.Some? <==> Trees.StartFails(os))
  {
    var l := StartChildNodes(o, w, order, specs, SortStart(order, specs), map[]);
    SortedDistinct(order, specs);
    var none: map<string, Child> := map[];
    StartRefinesFrom(o, w, order, specs, SortStart(order, specs), none, path);
    SortedOutcomes(order, specs, Bad(l), Stuck(l), path);
    assert none.Keys == {};
    FailsIffBad(specs, Bad(l), Stuck(l), path);
    if l.err.Some? { SomebodyIsBad(order, specs, Bad(l)); }
  }

  lemma SomebodyIsBad(order: Order, specs: seq<ChildSpec>, bad: set<string>)
    requires bad != {} && forall n :: n in bad ==> !Unnamed(SortStart(order, specs), {n})
    ensures exists i :: 0 <= i < |specs| && specs[i].name in bad
  {
    var n :| n in bad;
    var x :| x in SortStart(order, specs) && x.name == n;
    StopReversesStart(order, specs);
    assert x in specs;
  }

  // ----- The parent's part of a whole tree --------------------------------------------------------------------

  /** An event that the supervisor `own` reports: about a child of its own, and a start only if that is a worker. */
  predicate Direct(ev: Trees.Ev, own: Path, workers: set<string>) {
    |ev.path| == |own| + 1 && (ev.kind.Started? ==> ev.path[|own|] in workers)
  }

  /** The events of a tree that the supervisor `own` reports. */
  function Part(evs: seq<Trees.Ev>, own: Path, workers: set<string>): seq<Trees.Ev> {
    if evs == [] then []
    else (if Direct(evs[0], own, workers) then [evs[0]] else []) + Part(evs[1..], own, workers)
  }

  lemma PartCons(evs: seq<Trees.Ev>, own: Path, workers: set<string>) returns (head: seq<Trees.Ev>)
    requires evs != []
    ensures head == if Direct(evs[0], own, workers) then [evs[0]] else []
    ensures Part(evs, own, workers) == head + Part(evs[1..], own, workers)
  {
    head := if Direct(evs[0], own, workers) then [evs[0]] else [];
  }

  lemma {:induction false} PartConcat(a: seq<Trees.Ev>, b: seq<Trees.Ev>, own: Path, workers: set<string>)
    ensures Part(a + b, own, workers) == Part(a, own, workers) + Part(b, own, workers)
  {
    if a == [] {
      assert a + b == b;
    } else {
      PartConcat(a[1..], b, own, workers);
      ConsConcat(a, b, own, workers);
    }
  }

  lemma {:induction false} ConsConcat(a: seq<Trees.Ev>, b: seq<Trees.Ev>, own: Path, workers: set<string>)
    requires a != [] && Part(a[1..] + b, own, workers) == Part(a[1..], own, workers) + Part(b, own, workers)
    ensures Part(a + b, own, workers) == Part(a, own, workers) + Part(b, own, workers)
  {
    FirstOfConcat(a, b);
    var head := PartCons(a, own, workers);
    var same := PartCons(a + b, own, workers);
    Regroup(Part(a + b, own, workers), Part(a, own, workers), Part(a[1..], own, workers), Part(b, own, workers), head);
  }

  lemma FirstOfConcat<T>(a: seq<T>, b: seq<T>)
    requires a != []
    ensures (a + b)[0] == a[0] && (a + b)[1..] == a[1..] + b
  {}

  lemma Regroup<T>(all: seq<T>, front: seq<T>, rest: seq<T>, back: seq<T>, head: seq<T>)
    requires all == head + (rest + back) && front == head + rest
    ensures all == front + back
  {}

  lemma {:induction false} PartOfDeeper(evs: seq<Trees.Ev>, own: Path, workers: set<string>)
    requires forall ev :: ev in evs ==> |ev.path| > |own| + 1
    ensures Part(evs, own, workers) == []
  {
    if evs != [] {
      assert evs[0] in evs;
      PartOfDeeper(evs[1..], own, workers);
    }
  }

  /** What a supervisor reports of a child, out of everything that happens in the child. */
  function View(x: Trees.Outcome, own: Path, workers: set<string>): Trees.Outcome {
    x.(start := Part(x.start, own, workers), stop := Part(x.stop, own, workers))
  }

  function Views(os: seq<Trees.Outcome>, own: Path, workers: set<string>): (r: seq<Trees.Outcome>)
    ensures |r| == |os| && forall i :: 0 <= i < |os| ==> r[i] == View(os[i], own, workers)
  {
    seq(|os|, i requires 0 <= i < |os| => View(os[i], own, workers))
  }

  lemma {:induction false} StopKidsPart(todo: seq<Trees.Outcome>, up: set<string>, own: Path, workers: set<string>)
    ensures Trees.StopKids(Views(todo, own, workers), up) == Part(Trees.StopKids(todo, up), own, workers)
  {
    if todo != [] {
      StopKidsPart(todo[1..], up, own, workers);
      assert Views(todo, own, workers)[1..] == Views(todo[1..], own, workers);
      PartConcat(if todo[0].name in up then todo[0].stop else [], Trees.StopKids(todo[1..], up), own, workers);
    }
  }

  lemma {:induction false} StartKidsPart(todo: seq<Trees.Outcome>, all: seq<Trees.Outcome>, up: set<string>, own: Path,
                                         workers: set<string>)
    ensures Trees.StartKids(Views(todo, own, workers), Views(all, own, workers), up)
            == Part(Trees.StartKids(todo, all, up), own, workers)
  {
    if todo != [] {
      assert Views(todo, own, workers)[1..] == Views(todo[1..], own, workers);
      if todo[0].startFails {
        StopKidsPart(all, up, own, workers);
        PartConcat(todo[0].start, Trees.StopKids(all, up), own, workers);
      } else {
        StartKidsPart(todo[1..], all, up + {todo[0].name}, own, workers);
        PartConcat(todo[0].start, Trees.StartKids(todo[1..], all, up + {todo[0].name}), own, workers);
      }
    }
  }

  /** Every event of an outcome is about a process at depth `n` or below. */
  ghost predicate Deep(x: Trees.Outcome, n: nat) {
    (forall ev :: ev in x.start ==> |ev.path| >= n) && (forall ev :: ev in x.stop ==> |ev.path| >= n)
  }

  ghost predicate AllDeep(os: seq<Trees.Outcome>, n: nat) { forall i :: 0 <= i < |os| ==> Deep(os[i], n) }

  lemma {:induction false} StopKidsDeep(todo: seq<Trees.Outcome>, up: set<string>, n: nat)
    requires AllDeep(todo, n)
    ensures forall ev :: ev in Trees.StopKids(todo, up) ==> |ev.path| >= n
  {
    if todo != [] {
      assert Deep(todo[0], n);
      forall i | 0 <= i < |todo[1..]| ensures Deep(todo[1..][i], n) { assert Deep(todo[i + 1], n); }
      StopKidsDeep(todo[1..], up, n);
    }
  }

  lemma {:induction false} StartKidsDeep(todo: seq<Trees.Outcome>, all: seq<Trees.Outcome>, up: set<string>, n: nat)
    requires AllDeep(todo, n) && AllDeep(all, n)
    ensures forall ev :: ev in Trees.StartKids(todo, all, up) ==> |ev.path| >= n
  {
    if todo != [] {
      assert Deep(todo[0], n);
      StopKidsDeep(all, up, n);
      if !todo[0].startFails {
        forall i | 0 <= i < |todo[1..]| ensures Deep(todo[1..][i], n) { assert Deep(todo[i + 1], n); }
        StartKidsDeep(todo[1..], all, up + {todo[0].name}, n);
      }
    }
  }

  lemma SortedDeep(order: Order, os: seq<Trees.Outcome>, n: nat)
    requires AllDeep(os, n)
    ensures AllDeep(SortStart(order, os), n) && AllDeep(SortTermination(order, os), n)
  {}

  lemma {:induction false} PlayIsDeep(t: Trees.Tree, path: Path)
    ensures Deep(Trees.Play(t, path), |path| + 1)
    decreases t
  {
    if t.Node? {
      var own := path + [t.name];
      var os := Trees.PlayAll(t.kids, own);
      forall i | 0 <= i < |os| ensures Deep(os[i], |own| + 1) {
        Trees.PlayAllAt(t.kids, own, i);
        PlayIsDeep(t.kids[i], own);
      }
      KidsAreDeep(t.order, os, |own| + 1);
    }
  }

  lemma KidsAreDeep(order: Order, os: seq<Trees.Outcome>, n: nat)
    requires AllDeep(os, n)
    ensures forall ev :: ev in Trees.StartKids(SortStart(order, os), SortTermination(order, os), {}) ==> |ev.path| >= n
    ensures forall ev :: ev in Trees.StopKids(SortTermination(order, os), Trees.Names(os)) ==> |ev.path| >= n
  {
    SortedDeep(order, os, n);
    StartKidsDeep(SortStart(order, os), SortTermination(order, os), {}, n);
    StopKidsDeep(SortTermination(order, os), Trees.Names(os), n);
  }

  /** Out of everything that happens in a worker or in a whole subtree, its parent reports what the engine reports. */
  lemma {:induction false} ParentReports(spec: ChildSpec, t: Trees.Tree, own: Path, workers: set<string>)
    requires spec.name == t.name && (spec.tag.Worker? <==> t.Leaf?) && (t.name in workers <==> t.Leaf?)
    ensures var x := Trees.Play(t, own);
            View(x, own, workers) == Reported(spec, x.startFails, x.stopFails, own)
  {
    var x, path := Trees.Play(t, own), own + [t.name];
    if t.Node? {
      var os := Trees.PlayAll(t.kids, path);
      forall i | 0 <= i < |os| ensures Deep(os[i], |path| + 1) {
        Trees.PlayAllAt(t.kids, path, i);
        PlayIsDeep(t.kids[i], path);
      }
      KidsAreDeep(t.order, os, |path| + 1);
      var start := if t.build.Some? then []
                   else Trees.StartKids(SortStart(t.order, os), SortTermination(t.order, os), {});
      var stop := Trees.StopKids(SortTermination(t.order, os), Trees.Names(os));
      LastOnly(start, Trees.Ev(if x.startFails then StartFailed else Started, path), own, workers);
      LastOnly(stop, Trees.Ev(if x.stopFails then Failed else Terminated, path), own, workers);
    } else {
      LastOnly([], x.start[0], own, workers);
      LastOnly([], x.stop[0], own, workers);
      assert [] + x.start == x.start && [] + x.stop == x.stop;
    }
  }

  lemma {:induction false} LastOnly(evs: seq<Trees.Ev>, last: Trees.Ev, own: Path, workers: set<string>)
    requires forall ev :: ev in evs ==> |ev.path| > |own| + 1
    ensures Part(evs + [last], own, workers) == if Direct(last, own, workers) then [last] else []
  {
    PartOfDeeper(evs, own, workers);
    PartConcat(evs, [last], own, workers);
    assert [last][1..] == [];
  }

  /** The specs of a supervisor describe `kids`, which come up and go down as the engine has seen it. */
  ghost predicate Describes(specs: seq<ChildSpec>, kids: seq<Trees.Tree>, l: Launch, own: Path) {
    && |specs| == |kids|
    && forall i :: 0 <= i < |specs| ==>
         var x := Trees.Play(kids[i], own);
         && specs[i].name == kids[i].name && (specs[i].tag.Worker? <==> kids[i].Leaf?)
         && (x.startFails <==> specs[i].name in Bad(l)) && (x.stopFails <==> specs[i].name in Stuck(l))
  }

  function Workers(specs: seq<ChildSpec>): set<string> { set x | x in specs && x.tag.Worker? :: x.name }

  lemma {:induction false} ViewsAreOutcomes(specs: seq<ChildSpec>, kids: seq<Trees.Tree>, l: Launch, own: Path)
    requires DynSlice.DistinctNames(specs) && Describes(specs, kids, l, own)
    ensures Views(Trees.PlayAll(kids, own), own, Workers(specs)) == Outcomes(specs, Bad(l), Stuck(l), own)
  {
    forall i | 0 <= i < |specs|
      ensures Views(Trees.PlayAll(kids, own), own, Workers(specs))[i] == Outcomes(specs, Bad(l), Stuck(l), own)[i]
    {
      Trees.PlayAllAt(kids, own, i);
      assert specs[i] in specs;
      ParentReports(specs[i], kids[i], own, Workers(specs));
    }
  }

  lemma SortedViews(order: Order, os: seq<Trees.Outcome>, own: Path, workers: set<string>)
    ensures Views(SortStart(order, os), own, workers) == SortStart(order, Views(os, own, workers))
    ensures Views(SortTermination(order, os), own, workers) == SortTermination(order, Views(os, own, workers))
  {
    ReversedViews(os, own, workers);
  }

  lemma {:induction false} ReversedViews(os: seq<Trees.Outcome>, own: Path, workers: set<string>)
    ensures Views(Reverse(os), own, workers) == Reverse(Views(os, own, workers))
  {
    PointwiseReverse(os, Views(os, own, workers), Views(Reverse(os), own, workers), x => View(x, own, workers));
  }

  /** Reversing commutes with applying a function to each element. */
  lemma {:induction false} PointwiseReverse<T, U>(xs: seq<T>, ys: seq<U>, zs: seq<U>, f: T -> U)
    requires |xs| == |ys| == |zs|
    requires forall i :: 0 <= i < |xs| ==> ys[i] == f(xs[i]) && zs[i] == f(Reverse(xs)[i])
    ensures zs == Reverse(ys)
  {
    forall i | 0 <= i < |zs| ensures zs[i] == Reverse(ys)[i] {
      assert zs[i] == f(xs[|xs| - 1 - i]) == ys[|ys| - 1 - i];
    }
  }

  /** For every oracle and all subtrees whose outcomes it plays: what a supervisor reports while it starts its
      children, and stops them again if one fails, is its part of the trace of the whole tree. */
  lemma {:induction false} EngineReportsItsPart(o: Oracle, w: World, order: Order, specs: seq<ChildSpec>,
                                                kids: seq<Trees.Tree>, own: Path)
    requires DynSlice.DistinctNames(specs)
    requires Describes(specs, kids, StartChildNodes(o, w, order, specs, SortStart(order, specs), map[]), own)
    ensures var l := StartChildNodes(o, w, order, specs, SortStart(order, specs), map[]);
            var os := Trees.PlayAll(kids, own);
            && w.trace <= l.w.trace
            && Since(w, l.w, own)
               == Part(Trees.StartKids(SortStart(order, os), SortTermination(order, os), {}), own, Workers(specs))
            && (l.err.Some? <==> Trees.StartFails(os))
  {
    var l := StartChildNodes(o, w, order, specs, SortStart(order, specs), map[]);
    var os, workers := Trees.PlayAll(kids, own), Workers(specs);
    StartRefines(o, w, order, specs, own);
    ViewsAreOutcomes(specs, kids, l, own);
    SortedViews(order, os, own, workers);
    StartKidsPart(SortStart(order, os), SortTermination(order, os), {}, own, workers);
    SameFailures(os, own, workers);
  }

  lemma SameFailures(os: seq<Trees.Outcome>, own: Path, workers: set<string>)
    ensures Trees.StartFails(Views(os, own, workers)) <==> Trees.StartFails(os)
  {
    var views := Views(os, own, workers);
    if i :| 0 <= i < |os| && os[i].startFails { assert views[i].startFails; }
  }
}
