/** Whole supervision trees: starting, rolling back a failed start and stopping, recursively over an
    arbitrary finite tree (internal/s/root.go, subtree.go, monitor.go, spec.go). */
module Trees {
  import opened Types
  import opened Ordering

  /** A process with what it does: a worker may fail to start or to stop, a supervisor may fail to build
      its children list or to clean up. */
  datatype Tree =
    | Leaf(name: string, start: Option<Error>, stop: Option<Error>)
    | Node(name: string, order: Order, build: Option<Error>, kids: seq<Tree>, cleanup: Option<Error>)

  type Path = seq<string>

  datatype Ev = Ev(kind: EventKind, path: Path)

  // ----- What the code does -------------------------------------------------------------------------

  /** Everything a child can show to its parent: the events of starting it and whether that fails, and
      the events of stopping it and whether that fails. */
  datatype Outcome = Outcome(name: string, start: seq<Ev>, startFails: bool, stop: seq<Ev>, stopFails: bool)

  /** `terminateChildNodes` over `todo`, with `up` as the keys of the children map. */
  function StopKids(todo: seq<Outcome>, up: set<string>): seq<Ev> {
    if todo == [] then []
    else (if todo[0].name in up then todo[0].stop else []) + StopKids(todo[1..], up)
  }

  predicate StopFails(todo: seq<Outcome>, up: set<string>) {
    exists i :: 0 <= i < |todo| && todo[i].name in up && todo[i].stopFails
  }

  /** `startChildNodes` over `todo`: the first failure rolls back, over `all`, whatever is up. */
  function StartKids(todo: seq<Outcome>, all: seq<Outcome>, up: set<string>): seq<Ev> {
    if todo == [] then []
    else if todo[0].startFails then todo[0].start + StopKids(all, up)
    else todo[0].start + StartKids(todo[1..], all, up + {todo[0].name})
  }

  predicate StartFails(todo: seq<Outcome>) { exists i :: 0 <= i < |todo| && todo[i].startFails }

  function Names(os: seq<Outcome>): set<string> { set o | o in os :: o.name }

  /** One process under the parent path `path`.  A supervisor reports its own start once its children are
      up, and its parent reports its failed start and its stop. */
  function Play(t: Tree, path: Path): Outcome
    decreases t, 1
  {
    var own := path + [t.name];
    match t
    case Leaf(name, start, stop) =>
      Outcome(name, [Ev(if start.Some? then StartFailed else Started, own)], start.Some?,
              [Ev(if stop.Some? then Failed else Terminated, own)], stop.Some?)
    case Node(name, order, build, kids, cleanup) =>
      var os := PlayAll(kids, own);
      var startFails := build.Some? || StartFails(os);
      var started := if build.Some? then [] else StartKids(SortStart(order, os), SortTermination(order, os), {});
      var stopFails := cleanup.Some? || StopFails(os, Names(os));
      Outcome(name,
              started + [Ev(if startFails then StartFailed else Started, own)], startFails,
              StopKids(SortTermination(order, os), Names(os)) + [Ev(if stopFails then Failed else Terminated, own)],
              stopFails)
  }

  function PlayAll(kids: seq<Tree>, path: Path): (os: seq<Outcome>)
    ensures |os| == |kids|
    decreases kids, 0
  {
    if kids == [] then [] else [Play(kids[0], path)] + PlayAll(kids[1..], path)
  }

  lemma {:induction false} PlayAllAt(kids: seq<Tree>, path: Path, i: nat)
    requires i < |kids|
    ensures PlayAll(kids, path)[i] == Play(kids[i], path)
  {
    if i > 0 { PlayAllAt(kids[1..], path, i - 1); }
  }

  // ----- Reference: traversals -------------------------------------------------------------------------

  function Flatten<T>(xs: seq<seq<T>>): seq<T> {
    if xs == [] then [] else xs[0] + Flatten(xs[1..])
  }

  function PostOrder(t: Tree, path: Path): seq<Path>
    decreases t, 1
  {
    var own := path + [t.name];
    match t
    case Leaf(_, _, _) => [own]
    case Node(_, order, _, kids, _) => Flatten(SortStart(order, PostOrders(kids, own))) + [own]
  }

  function PostOrders(kids: seq<Tree>, path: Path): (r: seq<seq<Path>>)
    ensures |r| == |kids|
    decreases kids, 0
  {
    if kids == [] then [] else [PostOrder(kids[0], path)] + PostOrders(kids[1..], path)
  }

  lemma {:induction false} PostOrdersAt(kids: seq<Tree>, path: Path, i: nat)
    requires i < |kids|
    ensures PostOrders(kids, path)[i] == PostOrder(kids[i], path)
  {
    if i > 0 { PostOrdersAt(kids[1..], path, i - 1); }
  }

  function Flip(o: Order): Order { if o.LeftToRight? then RightToLeft else LeftToRight }

  /** The mirror image: every supervisor starts its children in the opposite order. */
  function Mirror(t: Tree): Tree
    decreases t, 1
  {
    match t
    case Leaf(_, _, _) => t
    case Node(name, order, build, kids, cleanup) => Node(name, Flip(order), build, Mirrors(kids), cleanup)
  }

  function Mirrors(kids: seq<Tree>): (r: seq<Tree>)
    ensures |r| == |kids|
    decreases kids, 0
  {
    if kids == [] then [] else [Mirror(kids[0])] + Mirrors(kids[1..])
  }

  lemma {:induction false} MirrorsAt(kids: seq<Tree>, i: nat)
    requires i < |kids|
    ensures Mirrors(kids)[i] == Mirror(kids[i])
  {
    if i > 0 { MirrorsAt(kids[1..], i - 1); }
  }

  /** Names are distinct among siblings, everywhere in the tree. */
  ghost predicate DistinctSiblings(t: Tree) {
    t.Node? ==>
      && (forall i, j :: 0 <= i < j < |t.kids| ==> t.kids[i].name != t.kids[j].name)
      && (forall i :: 0 <= i < |t.kids| ==> DistinctSiblings(t.kids[i]))
  }

  // ----- Facts about lists ---------------------------------------------------------------------------

  lemma {:induction false} FlattenConcat<T>(a: seq<seq<T>>, b: seq<seq<T>>)
    ensures Flatten(a + b) == Flatten(a) + Flatten(b)
  {
    if a == [] {
      assert a + b == b;
    } else {
      assert (a + b)[1..] == a[1..] + b;
      FlattenConcat(a[1..], b);
    }
  }

  lemma FlattenOne<T>(x: seq<T>)
    ensures Flatten([x]) == x
  {
    assert [x][1..] == [];
  }

  lemma {:induction false} FlattenReverse<T>(xs: seq<seq<T>>)
    ensures multiset(Flatten(Reverse(xs))) == multiset(Flatten(xs))
  {
    if xs != [] {
      FlattenReverse(xs[1..]);
      FlattenConcat(Reverse(xs[1..]), [xs[0]]);
      FlattenOne(xs[0]);
    }
  }

  /** Visiting distinct names, all of them up, stops everybody. */
  lemma {:induction false} StopEverybody(todo: seq<Outcome>, up: set<string>)
    requires forall o :: o in todo ==> o.name in up
    ensures StopKids(todo, up) == Flatten(Stops(todo))
  {
    if todo != [] {
      assert todo[0] in todo;
      StopEverybody(todo[1..], up);
      assert Stops(todo)[1..] == Stops(todo[1..]);
    }
  }

  lemma {:induction false} StopNobody(todo: seq<Outcome>, up: set<string>)
    requires forall o :: o in todo ==> o.name !in up
    ensures StopKids(todo, up) == []
  {
    if todo != [] {
      assert todo[0] in todo;
      StopNobody(todo[1..], up);
    }
  }

  lemma {:induction false} StopKidsConcat(a: seq<Outcome>, b: seq<Outcome>, up: set<string>)
    ensures StopKids(a + b, up) == StopKids(a, up) + StopKids(b, up)
  {
    if a == [] {
      assert a + b == b;
    } else {
      assert (a + b)[1..] == a[1..] + b;
      StopKidsConcat(a[1..], b, up);
    }
  }

  function Stops(os: seq<Outcome>): (r: seq<seq<Ev>>)
    ensures |r| == |os| && forall i :: 0 <= i < |os| ==> r[i] == os[i].stop
  {
    seq(|os|, i requires 0 <= i < |os| => os[i].stop)
  }

  function Starts(os: seq<Outcome>): (r: seq<seq<Ev>>)
    ensures |r| == |os| && forall i :: 0 <= i < |os| ==> r[i] == os[i].start
  {
    seq(|os|, i requires 0 <= i < |os| => os[i].start)
  }

  // ----- Siblings ------------------------------------------------------------------------------------

  ghost predicate DistinctOutcomes(os: seq<Outcome>) {
    forall i, j :: 0 <= i < j < |os| ==> os[i].name != os[j].name
  }

  /** The position of the first sibling of `os` that fails to start. */
  function FirstFailure(os: seq<Outcome>): (k: nat)
    requires StartFails(os)
    ensures k < |os| && os[k].startFails && forall i :: 0 <= i < k ==> !os[i].startFails
  {
    if os[0].startFails then 0
    else
      assert StartFails(os[1..]) by {
        var i :| 0 <= i < |os| && os[i].startFails;
        assert os[1..][i - 1] == os[i];
      }
      var k := FirstFailure(os[1..]);
      assert forall i :: 1 <= i < k + 1 ==> os[i] == os[1..][i - 1];
      k + 1
  }

  /** Siblings that all start: their start events, one after the other. */
  lemma {:induction false} StartKidsAll(todo: seq<Outcome>, all: seq<Outcome>, up: set<string>)
    requires !StartFails(todo)
    ensures StartKids(todo, all, up) == Flatten(Starts(todo))
  {
    if todo != [] {
      assert !todo[0].startFails;
      forall i | 0 <= i < |todo[1..]| ensures !todo[1..][i].startFails { assert todo[1..][i] == todo[i + 1]; }
      StartKidsAll(todo[1..], all, up + {todo[0].name});
      assert Starts(todo)[1..] == Starts(todo[1..]);
    }
  }

  /** Rolling back stops exactly the siblings that are up, in reverse. */
  lemma {:induction false} StopPrefix(before: seq<Outcome>, todo: seq<Outcome>)
    requires DistinctOutcomes(before + todo)
    ensures StopKids(Reverse(before + todo), Names(before)) == Flatten(Stops(Reverse(before)))
  {
    var all := before + todo;
    ReverseConcat(before, todo);
    StopKidsConcat(Reverse(todo), Reverse(before), Names(before));
    SameElements(todo);
    SameElements(before);
    forall o | o in Reverse(todo) ensures o.name !in Names(before) {
      assert o in todo;
      var i :| 0 <= i < |todo| && todo[i] == o;
      assert all[|before| + i] == o;
      forall b | b in before ensures b.name != o.name {
        var j :| 0 <= j < |before| && before[j] == b;
        assert all[j] == b;
      }
    }
    StopNobody(Reverse(todo), Names(before));
    StopEverybody(Reverse(before), Names(before));
  }

  /** What a start does whose first failure is sibling `k`: the earlier ones start, it fails, and the earlier
      ones, after those already up before, stop in reverse. */
  function Rollback(before: seq<Outcome>, todo: seq<Outcome>, k: nat): seq<Ev>
    requires k < |todo|
  {
    Flatten(Starts(todo[..k])) + todo[k].start + Flatten(Stops(Reverse(before + todo[..k])))
  }

  lemma RollbackShift(before: seq<Outcome>, todo: seq<Outcome>, k: nat)
    requires 0 < k < |todo|
    ensures Rollback(before, todo, k) == todo[0].start + Rollback(before + [todo[0]], todo[1..], k - 1)
  {
    var head, tail := todo[0], todo[1..];
    assert before + [head] + tail[..k - 1] == before + todo[..k];
    assert Starts(todo[..k])[0] == head.start && Starts(todo[..k])[1..] == Starts(tail[..k - 1]);
  }

  lemma {:induction false} RollbackNow(before: seq<Outcome>, todo: seq<Outcome>)
    requires todo != [] && todo[0].startFails && DistinctOutcomes(before + todo)
    ensures StartKids(todo, Reverse(before + todo), Names(before)) == Rollback(before, todo, 0)
  {
    StopPrefix(before, todo);
    assert before + todo[..0] == before && Starts(todo[..0]) == [];
    assert Flatten(Starts(todo[..0])) + todo[0].start == todo[0].start;
  }

  lemma {:induction false} StartKidsRollback(before: seq<Outcome>, todo: seq<Outcome>)
    requires StartFails(todo) && DistinctOutcomes(before + todo)
    ensures StartKids(todo, Reverse(before + todo), Names(before)) == Rollback(before, todo, FirstFailure(todo))
    decreases |todo|
  {
    if todo[0].startFails {
      RollbackNow(before, todo);
    } else {
      var head, tail := todo[0], todo[1..];
      assert before + todo == (before + [head]) + tail;
      FirstFailureTail(todo);
      StartKidsRollback(before + [head], tail);
      assert Names(before + [head]) == Names(before) + {head.name};
      RollbackShift(before, todo, FirstFailure(todo));
    }
  }

  lemma {:induction false} FirstFailureTail(os: seq<Outcome>)
    requires StartFails(os) && !os[0].startFails
    ensures StartFails(os[1..]) && FirstFailure(os) == FirstFailure(os[1..]) + 1
  {
    var i :| 0 <= i < |os| && os[i].startFails;
    assert os[1..][i - 1] == os[i];
  }

  // ----- Paths of events -------------------------------------------------------------------------------

  function PathsOf(evs: seq<Ev>): (r: seq<Path>)
    ensures |r| == |evs| && forall i :: 0 <= i < |evs| ==> r[i] == evs[i].path
  {
    seq(|evs|, i requires 0 <= i < |evs| => evs[i].path)
  }

  function PathLists(xs: seq<seq<Ev>>): (r: seq<seq<Path>>)
    ensures |r| == |xs| && forall i :: 0 <= i < |xs| ==> r[i] == PathsOf(xs[i])
  {
    seq(|xs|, i requires 0 <= i < |xs| => PathsOf(xs[i]))
  }

  lemma {:induction false} FlattenPaths(xs: seq<seq<Ev>>)
    ensures PathsOf(Flatten(xs)) == Flatten(PathLists(xs))
  {
    if xs != [] {
      FlattenPaths(xs[1..]);
      assert PathLists(xs)[1..] == PathLists(xs[1..]);
      assert PathsOf(xs[0] + Flatten(xs[1..])) == PathsOf(xs[0]) + PathsOf(Flatten(xs[1..]));
    }
  }

  predicate IsExit(k: EventKind) { k.Terminated? || k.Failed? }

  ghost predicate Only(evs: seq<Ev>, kinds: set<EventKind>) { forall i :: 0 <= i < |evs| ==> evs[i].kind in kinds }

  lemma {:induction false} FlattenOnly(xs: seq<seq<Ev>>, kinds: set<EventKind>)
    requires forall i :: 0 <= i < |xs| ==> Only(xs[i], kinds)
    ensures Only(Flatten(xs), kinds)
  {
    if xs != [] {
      assert Only(xs[0], kinds);
      forall i | 0 <= i < |xs[1..]| ensures Only(xs[1..][i], kinds) { assert Only(xs[i + 1], kinds); }
      FlattenOnly(xs[1..], kinds);
    }
  }

  // ----- Clean starts and stops --------------------------------------------------------------------------

  /** Siblings that all start, in start order, whatever their traversals are. */
  lemma StartSiblings(order: Order, os: seq<Outcome>, lists: seq<seq<Path>>)
    requires |os| == |lists|
    requires forall i :: 0 <= i < |os| ==> !os[i].startFails && Only(os[i].start, {Started})
    requires forall i :: 0 <= i < |os| ==> PathsOf(os[i].start) == lists[i]
    ensures var evs := StartKids(SortStart(order, os), SortTermination(order, os), {});
            PathsOf(evs) == Flatten(SortStart(order, lists)) && Only(evs, {Started})
  {
    var sorted := SortStart(order, os);
    assert !StartFails(sorted);
    StartKidsAll(sorted, SortTermination(order, os), {});
    FlattenPaths(Starts(sorted));
    assert PathLists(Starts(sorted)) == SortStart(order, lists);
    FlattenOnly(Starts(sorted), {Started});
  }

  /** A start that succeeds, whatever happens at the stop: every process of the tree reports exactly its
      start, in post-order of the start order. */
  lemma {:induction false} StartIsPostOrder(t: Tree, path: Path)
    requires !Play(t, path).startFails
    ensures PathsOf(Play(t, path).start) == PostOrder(t, path) && Only(Play(t, path).start, {Started})
    decreases t
  {
    if t.Node? {
      var own := path + [t.name];
      var os := PlayAll(t.kids, own);
      assert !StartFails(os);
      forall i | 0 <= i < |os|
        ensures !os[i].startFails && PathsOf(os[i].start) == PostOrders(t.kids, own)[i] && Only(os[i].start, {Started})
      {
        PlayAllAt(t.kids, own, i);
        PostOrdersAt(t.kids, own, i);
        StartIsPostOrder(t.kids[i], own);
      }
      StartSiblings(t.order, os, PostOrders(t.kids, own));
      var evs := StartKids(SortStart(t.order, os), SortTermination(t.order, os), {});
      assert Play(t, path).start == evs + [Ev(Started, own)];
      assert PathsOf(evs + [Ev(Started, own)]) == PathsOf(evs) + [own];
    }
  }

  const EXITS: set<EventKind> := {Terminated, Failed}

  /** Siblings that are all up are all stopped, in the order opposite to the start order. */
  lemma StopSiblings(order: Order, os: seq<Outcome>, lists: seq<seq<Path>>)
    requires |os| == |lists|
    requires forall i :: 0 <= i < |os| ==> Only(os[i].stop, EXITS)
    requires forall i :: 0 <= i < |os| ==> PathsOf(os[i].stop) == lists[i]
    ensures var evs := StopKids(SortTermination(order, os), Names(os));
            PathsOf(evs) == Flatten(SortStart(Flip(order), lists)) && Only(evs, EXITS)
  {
    var todo := SortTermination(order, os);
    SameElements(os);
    StopEverybody(todo, Names(os));
    FlattenPaths(Stops(todo));
    assert PathLists(Stops(todo)) == SortStart(Flip(order), lists);
    FlattenOnly(Stops(todo), EXITS);
  }

  /** Stopping a tree that is up, whatever fails while doing so: every process reports exactly one exit, in
      post-order of the mirror image. */
  lemma {:induction false} StopIsMirrorPostOrder(t: Tree, path: Path)
    ensures PathsOf(Play(t, path).stop) == PostOrder(Mirror(t), path) && Only(Play(t, path).stop, EXITS)
    decreases t
  {
    if t.Node? {
      var own := path + [t.name];
      var os := PlayAll(t.kids, own);
      forall i | 0 <= i < |os|
        ensures PathsOf(os[i].stop) == PostOrders(Mirrors(t.kids), own)[i] && Only(os[i].stop, EXITS)
      {
        PlayAllAt(t.kids, own, i);
        MirrorsAt(t.kids, i);
        PostOrdersAt(Mirrors(t.kids), own, i);
        StopIsMirrorPostOrder(t.kids[i], own);
      }
      StopSiblings(t.order, os, PostOrders(Mirrors(t.kids), own));
      NodeStop(t, path);
    } else {
      assert Mirror(t) == t;
    }
  }

  /** A supervisor's own exit closes its stop events. */
  lemma {:induction false} NodeStop(t: Tree, path: Path)
    requires t.Node?
    ensures var own := path + [t.name];
            var os := PlayAll(t.kids, own);
            var evs := StopKids(SortTermination(t.order, os), Names(os));
            && PathsOf(Play(t, path).stop) == PathsOf(evs) + [own]
            && (Only(evs, EXITS) ==> Only(Play(t, path).stop, EXITS))
            && PostOrder(Mirror(t), path) == Flatten(SortStart(Flip(t.order), PostOrders(Mirrors(t.kids), own))) + [own]
  {
    var own := path + [t.name];
    var os := PlayAll(t.kids, own);
    var evs := StopKids(SortTermination(t.order, os), Names(os));
    var kind := if t.cleanup.Some? || StopFails(os, Names(os)) then Failed else Terminated;
    assert Play(t, path).stop == evs + [Ev(kind, own)];
    assert PathsOf(evs + [Ev(kind, own)]) == PathsOf(evs) + [own];
  }

  // ----- The same processes, once each ---------------------------------------------------------------------

  lemma {:induction false} FlattenSameBags<T>(xs: seq<seq<T>>, ys: seq<seq<T>>)
    requires |xs| == |ys| && forall i :: 0 <= i < |xs| ==> multiset(xs[i]) == multiset(ys[i])
    ensures multiset(Flatten(xs)) == multiset(Flatten(ys))
  {
    if xs != [] {
      FlattenSameBags(xs[1..], ys[1..]);
    }
  }

  lemma {:induction false} MirrorSameProcesses(t: Tree, path: Path)
    ensures multiset(PostOrder(Mirror(t), path)) == multiset(PostOrder(t, path))
    decreases t
  {
    if t.Node? {
      var own := path + [t.name];
      var xs, ys := PostOrders(Mirrors(t.kids), own), PostOrders(t.kids, own);
      forall i | 0 <= i < |xs| ensures multiset(xs[i]) == multiset(ys[i]) {
        MirrorsAt(t.kids, i);
        PostOrdersAt(Mirrors(t.kids), own, i);
        PostOrdersAt(t.kids, own, i);
        MirrorSameProcesses(t.kids[i], own);
      }
      FlattenSameBags(xs, ys);
      FlattenReverse(xs);
      FlattenReverse(ys);
      assert multiset(Flatten(SortStart(Flip(t.order), xs))) == multiset(Flatten(SortStart(t.order, ys)));
    }
  }

  ghost predicate NoDuplicates<T>(s: seq<T>) { forall i, j :: 0 <= i < j < |s| ==> s[i] != s[j] }

  ghost predicate Below(paths: seq<Path>, root: Path) { forall i :: 0 <= i < |paths| ==> root <= paths[i] }

  lemma {:induction false} PostOrderBelow(t: Tree, path: Path)
    ensures Below(PostOrder(t, path), path + [t.name])
    decreases t
  {
    if t.Node? {
      var own := path + [t.name];
      var xs := SortStart(t.order, PostOrders(t.kids, own));
      forall i | 0 <= i < |t.kids| ensures Below(PostOrders(t.kids, own)[i], own) {
        PostOrdersAt(t.kids, own, i);
        PostOrderBelow(t.kids[i], own);
        BelowWeaken(PostOrder(t.kids[i], own), own, t.kids[i].name);
      }
      FlattenBelow(xs, own);
    }
  }

  lemma BelowWeaken(paths: seq<Path>, root: Path, name: string)
    requires Below(paths, root + [name])
    ensures Below(paths, root)
  {
    forall i | 0 <= i < |paths| ensures root <= paths[i] { assert root <= root + [name] <= paths[i]; }
  }

  lemma {:induction false} FlattenBelow(xs: seq<seq<Path>>, root: Path)
    requires forall i :: 0 <= i < |xs| ==> Below(xs[i], root)
    ensures Below(Flatten(xs), root)
  {
    if xs != [] {
      assert Below(xs[0], root);
      forall i | 0 <= i < |xs[1..]| ensures Below(xs[1..][i], root) { assert Below(xs[i + 1], root); }
      FlattenBelow(xs[1..], root);
    }
  }

  /** Lists under pairwise different children of one root flatten without duplicates. */
  lemma {:induction false} FlattenDistinct(xs: seq<seq<Path>>, root: Path, names: seq<string>)
    requires |names| == |xs| && NoDuplicates(names)
    requires forall i :: 0 <= i < |xs| ==> NoDuplicates(xs[i]) && Below(xs[i], root + [names[i]])
    ensures NoDuplicates(Flatten(xs))
    ensures forall p :: p in Flatten(xs) ==> |p| > |root| && root <= p && p[|root|] in names
  {
    if xs != [] {
      var tail, rest := xs[1..], names[1..];
      forall i | 0 <= i < |tail| ensures NoDuplicates(tail[i]) && Below(tail[i], root + [rest[i]]) {
        assert NoDuplicates(xs[i + 1]) && Below(xs[i + 1], root + [names[i + 1]]);
      }
      FlattenDistinct(tail, root, rest);
      assert NoDuplicates(xs[0]) && Below(xs[0], root + [names[0]]);
      forall p | p in xs[0] ensures |p| > |root| && root <= p && p[|root|] == names[0] {
        var i :| 0 <= i < |xs[0]| && xs[0][i] == p;
        assert root + [names[0]] <= p;
        assert p[|root|] == (root + [names[0]])[|root|];
        assert p[..|root|] == (root + [names[0]])[..|root|] == root;
      }
      assert names[0] !in rest;
    }
  }

  lemma {:induction false} EachProcessOnce(t: Tree, path: Path)
    requires DistinctSiblings(t)
    ensures NoDuplicates(PostOrder(t, path))
    decreases t
  {
    if t.Node? {
      var own := path + [t.name];
      var lists := PostOrders(t.kids, own);
      var names := seq(|t.kids|, i requires 0 <= i < |t.kids| => t.kids[i].name);
      forall i | 0 <= i < |lists| ensures NoDuplicates(lists[i]) && Below(lists[i], own + [names[i]]) {
        PostOrdersAt(t.kids, own, i);
        EachProcessOnce(t.kids[i], own);
        PostOrderBelow(t.kids[i], own);
      }
      assert NoDuplicates(names);
      FlattenDistinct(SortStart(t.order, lists), own, SortStart(t.order, names));
    }
  }

  /** A clean life of a whole tree: started in post-order of the start order, stopped in post-order of the
      mirror image, the same processes in both, each exactly once. */
  lemma {:induction false} CleanLife(t: Tree)
    requires DistinctSiblings(t) && !Play(t, []).startFails
    ensures var o := Play(t, []);
            && Only(o.start, {Started}) && PathsOf(o.start) == PostOrder(t, [])
            && Only(o.stop, EXITS) && PathsOf(o.stop) == PostOrder(Mirror(t), [])
            && multiset(PathsOf(o.stop)) == multiset(PathsOf(o.start))
            && NoDuplicates(PathsOf(o.start))
  {
    StartIsPostOrder(t, []);
    StopIsMirrorPostOrder(t, []);
    MirrorSameProcesses(t, []);
    EachProcessOnce(t, []);
  }

  // ----- A start that fails ----------------------------------------------------------------------------------

  function FirstSome<T>(xs: seq<Option<T>>): Option<T> {
    if xs == [] then None else if xs[0].Some? then xs[0] else FirstSome(xs[1..])
  }

  /** Reference: the process whose own failure a start of the tree meets first. */
  function Culprit(t: Tree, path: Path): Option<Path>
    decreases t, 1
  {
    var own := path + [t.name];
    match t
    case Leaf(_, start, _) => if start.Some? then Some(own) else None
    case Node(_, order, build, kids, _) =>
      if build.Some? then Some(own) else FirstSome(SortStart(order, Culprits(kids, own)))
  }

  function Culprits(kids: seq<Tree>, path: Path): (r: seq<Option<Path>>)
    ensures |r| == |kids|
    decreases kids, 0
  {
    if kids == [] then [] else [Culprit(kids[0], path)] + Culprits(kids[1..], path)
  }

  lemma {:induction false} CulpritsAt(kids: seq<Tree>, path: Path, i: nat)
    requires i < |kids|
    ensures Culprits(kids, path)[i] == Culprit(kids[i], path)
  {
    if i > 0 { CulpritsAt(kids[1..], path, i - 1); }
  }

  /** A process and its ancestors, from the process up to the one whose path has length `n`. */
  function Chain(c: Path, n: nat): seq<Path>
    requires n <= |c|
  {
    if n == |c| then [c] else [c] + Chain(c[..|c| - 1], n)
  }

  lemma {:induction false} ChainEnd(c: Path, n: nat)
    requires n < |c|
    ensures Chain(c, n) == Chain(c, n + 1) + [c[..n]]
    decreases |c|
  {
    var up := c[..|c| - 1];
    if n < |up| {
      ChainEnd(up, n);
      assert up[..n] == c[..n];
    } else {
      assert up == c[..n];
    }
  }

  /** The paths of the events of the given kinds, in order. */
  function Select(evs: seq<Ev>, kinds: set<EventKind>): seq<Path> {
    if evs == [] then []
    else (if evs[0].kind in kinds then [evs[0].path] else []) + Select(evs[1..], kinds)
  }

  lemma {:induction false} SelectConcat(a: seq<Ev>, b: seq<Ev>, kinds: set<EventKind>)
    ensures Select(a + b, kinds) == Select(a, kinds) + Select(b, kinds)
  {
    if a == [] {
      assert a + b == b;
    } else {
      assert (a + b)[1..] == a[1..] + b;
      SelectConcat(a[1..], b, kinds);
    }
  }

  lemma {:induction false} SelectAll(evs: seq<Ev>, kinds: set<EventKind>)
    requires Only(evs, kinds)
    ensures Select(evs, kinds) == PathsOf(evs)
  {
    if evs != [] {
      SelectAll(evs[1..], kinds);
      assert PathsOf(evs) == [evs[0].path] + PathsOf(evs[1..]);
    }
  }

  lemma {:induction false} SelectNone(evs: seq<Ev>, kinds: set<EventKind>, others: set<EventKind>)
    requires Only(evs, others) && kinds !! others
    ensures Select(evs, kinds) == []
  {
    if evs != [] { SelectNone(evs[1..], kinds, others); }
  }

  /** The first `k` events are the starts of the first `k` processes of `order`, the next one is the failed
      start of `culprit`, nothing starts any more, and exactly those `k` processes exit. */
  ghost predicate Cut(evs: seq<Ev>, k: nat, order: seq<Path>, culprit: Path) {
    && k < |evs| && k <= |order|
    && PathsOf(evs[..k]) == order[..k] && Only(evs[..k], {Started})
    && evs[k] == Ev(StartFailed, culprit) && Only(evs[k..], EXITS + {StartFailed})
    && multiset(Select(evs, EXITS)) == multiset(order[..k])
  }

  /** A failed start that leaves nothing behind and blames `culprit` and its ancestors, up to `own`. */
  ghost predicate RolledBack(evs: seq<Ev>, order: seq<Path>, culprit: Path, own: Path) {
    && own <= culprit
    && Select(evs, {StartFailed}) == Chain(culprit, |own|)
    && (exists k: nat :: Cut(evs, k, order, culprit))
  }

  /** A whole subtree, seen by its parent. */
  ghost predicate Fits(o: Outcome, order: seq<Path>, culprit: Option<Path>, path: Path) {
    && (o.startFails <==> culprit.Some?)
    && (!o.startFails ==> Only(o.start, {Started}) && PathsOf(o.start) == order)
    && (o.startFails ==> RolledBack(o.start, order, culprit.value, path + [o.name]))
    && Only(o.stop, EXITS) && multiset(PathsOf(o.stop)) == multiset(order)
  }

  lemma CutGlue(a: seq<Ev>, b: seq<Ev>, c: seq<Ev>, own: Path, first: seq<Path>, order: seq<Path>, rest: seq<Path>,
                culprit: Path, k: nat)
    requires Only(a, {Started}) && PathsOf(a) == first
    requires Only(c, EXITS) && multiset(PathsOf(c)) == multiset(first)
    requires Cut(b, k, order, culprit)
    ensures Cut(a + b + c + [Ev(StartFailed, own)], |a| + k, first + order + rest, culprit)
  {
    var d := [Ev(StartFailed, own)];
    var evs, all := a + b + c + d, first + order + rest;
    assert evs[..|a| + k] == a + b[..k];
    assert all[..|a| + k] == first + order[..k];
    assert PathsOf(a + b[..k]) == PathsOf(a) + PathsOf(b[..k]);
    assert evs[|a| + k..] == b[k..] + c + d;
    ExitsGlue(a, b, c, own);
  }

  lemma {:induction false} ExitsGlue(a: seq<Ev>, b: seq<Ev>, c: seq<Ev>, own: Path)
    requires Only(a, {Started}) && Only(c, EXITS)
    ensures Select(a + b + c + [Ev(StartFailed, own)], EXITS) == Select(b, EXITS) + PathsOf(c)
  {
    var d := [Ev(StartFailed, own)];
    SelectConcat(a + b + c, d, EXITS);
    SelectConcat(a + b, c, EXITS);
    SelectConcat(a, b, EXITS);
    SelectNone(a, EXITS, {Started});
    SelectAll(c, EXITS);
    SelectNone(d, EXITS, {StartFailed});
  }

  lemma {:induction false} FailuresGlue(a: seq<Ev>, b: seq<Ev>, c: seq<Ev>, own: Path)
    requires Only(a, {Started}) && Only(c, EXITS)
    ensures Select(a + b + c + [Ev(StartFailed, own)], {StartFailed}) == Select(b, {StartFailed}) + [own]
  {
    var d := [Ev(StartFailed, own)];
    var failed: set<EventKind> := {StartFailed};
    SelectConcat(a + b + c, d, failed);
    SelectConcat(a + b, c, failed);
    SelectConcat(a, b, failed);
    SelectNone(a, failed, {Started});
    SelectNone(c, failed, EXITS);
    SelectAll(d, failed);
  }

  lemma RolledBackGlue(a: seq<Ev>, b: seq<Ev>, c: seq<Ev>, own: Path, name: string,
                       first: seq<Path>, order: seq<Path>, rest: seq<Path>, culprit: Path)
    requires Only(a, {Started}) && PathsOf(a) == first
    requires Only(c, EXITS) && multiset(PathsOf(c)) == multiset(first)
    requires RolledBack(b, order, culprit, own + [name])
    ensures RolledBack(a + b + c + [Ev(StartFailed, own)], first + order + rest, culprit, own)
  {
    FailuresGlue(a, b, c, own);
    assert own <= own + [name] <= culprit;
    assert own == culprit[..|own|];
    ChainEnd(culprit, |own|);
    var k: nat :| Cut(b, k, order, culprit);
    CutGlue(a, b, c, own, first, order, rest, culprit, k);
  }

  /** Siblings in start order, of which the `k`-th is the first to fail. */
  lemma {:induction false} RollbackSiblings(os: seq<Outcome>, lists: seq<seq<Path>>, culprits: seq<Option<Path>>,
                                            own: Path)
    requires |os| == |lists| == |culprits| && StartFails(os)
    requires forall i :: 0 <= i < |os| ==> Fits(os[i], lists[i], culprits[i], own)
    ensures var k := FirstFailure(os);
            && culprits[k].Some?
            && RolledBack(Rollback([], os, k) + [Ev(StartFailed, own)], Flatten(lists) + [own], culprits[k].value, own)
  {
    var k := FirstFailure(os);
    RollbackParts(os, lists, culprits, own, k);
    FlattenAroundWith(lists, k, [own]);
    RollbackFromNothing(os, k);
  }

  lemma {:induction false} RollbackParts(os: seq<Outcome>, lists: seq<seq<Path>>, culprits: seq<Option<Path>>,
                                         own: Path, k: nat)
    requires |os| == |lists| == |culprits| && k < |os| && os[k].startFails
    requires forall i :: 0 <= i < k ==> !os[i].startFails
    requires forall i :: 0 <= i < |os| ==> Fits(os[i], lists[i], culprits[i], own)
    ensures culprits[k].Some?
    ensures RolledBack(Flatten(Starts(os[..k])) + os[k].start + Flatten(Stops(Reverse(os[..k])))
                       + [Ev(StartFailed, own)],
                       Flatten(lists[..k]) + lists[k] + (Flatten(lists[k + 1..]) + [own]), culprits[k].value, own)
  {
    assert Fits(os[k], lists[k], culprits[k], own);
    var up, done := os[..k], lists[..k];
    PrefixStarts(up, done, culprits[..k], own);
    PrefixStops(up, done, culprits[..k], own);
    RolledBackGlue(Flatten(Starts(up)), os[k].start, Flatten(Stops(Reverse(up))), own, os[k].name,
                   Flatten(done), lists[k], Flatten(lists[k + 1..]) + [own], culprits[k].value);
  }

  lemma RollbackFromNothing(os: seq<Outcome>, k: nat)
    requires k < |os|
    ensures Rollback([], os, k) == Flatten(Starts(os[..k])) + os[k].start + Flatten(Stops(Reverse(os[..k])))
  {
    assert [] + os[..k] == os[..k];
  }

  lemma {:induction false} FlattenAround<T>(xs: seq<seq<T>>, k: nat)
    requires k < |xs|
    ensures Flatten(xs) == Flatten(xs[..k]) + xs[k] + Flatten(xs[k + 1..])
  {
    assert xs == xs[..k] + [xs[k]] + xs[k + 1..];
    FlattenConcat(xs[..k] + [xs[k]], xs[k + 1..]);
    FlattenConcat(xs[..k], [xs[k]]);
    FlattenOne(xs[k]);
  }

  lemma {:induction false} FlattenAroundWith<T>(xs: seq<seq<T>>, k: nat, last: seq<T>)
    requires k < |xs|
    ensures Flatten(xs) + last == Flatten(xs[..k]) + xs[k] + (Flatten(xs[k + 1..]) + last)
  {
    FlattenAround(xs, k);
  }

  lemma {:induction false} PrefixStarts(up: seq<Outcome>, lists: seq<seq<Path>>, culprits: seq<Option<Path>>, own: Path)
    requires |up| == |lists| == |culprits|
    requires forall i :: 0 <= i < |up| ==> !up[i].startFails && Fits(up[i], lists[i], culprits[i], own)
    ensures Only(Flatten(Starts(up)), {Started}) && PathsOf(Flatten(Starts(up))) == Flatten(lists)
  {
    FlattenPaths(Starts(up));
    assert PathLists(Starts(up)) == lists;
    FlattenOnly(Starts(up), {Started});
  }

  lemma {:induction false} PrefixStops(up: seq<Outcome>, lists: seq<seq<Path>>, culprits: seq<Option<Path>>, own: Path)
    requires |up| == |lists| == |culprits|
    requires forall i :: 0 <= i < |up| ==> Fits(up[i], lists[i], culprits[i], own)
    ensures var evs := Flatten(Stops(Reverse(up)));
            Only(evs, EXITS) && multiset(PathsOf(evs)) == multiset(Flatten(lists))
  {
    var stops := Stops(Reverse(up));
    FlattenPaths(stops);
    FlattenOnly(stops, EXITS);
    FlattenSameBags(PathLists(stops), Reverse(lists));
    FlattenReverse(lists);
  }

  lemma {:induction false} FirstSomeIsFirstFailure(os: seq<Outcome>, culprits: seq<Option<Path>>)
    requires |os| == |culprits| && forall i :: 0 <= i < |os| ==> (os[i].startFails <==> culprits[i].Some?)
    ensures StartFails(os) <==> FirstSome(culprits).Some?
    ensures StartFails(os) ==> FirstSome(culprits) == culprits[FirstFailure(os)]
  {
    if os != [] {
      if os[0].startFails {
        assert StartFails(os);
      } else {
        FirstSomeIsFirstFailure(os[1..], culprits[1..]);
        if StartFails(os) {
          FirstFailureTail(os);
        }
      }
    }
  }

  /** Whole subtrees, whatever fails in them: what the parent sees. */
  lemma {:induction false} WholeTreeStart(t: Tree, path: Path)
    requires DistinctSiblings(t)
    ensures Fits(Play(t, path), PostOrder(t, path), Culprit(t, path), path)
    decreases t
  {
    StopIsMirrorPostOrder(t, path);
    MirrorSameProcesses(t, path);
    if t.Leaf? || t.build.Some? {
      FailsAlone(t, path);
    } else {
      var own := path + [t.name];
      var os, lists, culprits := PlayAll(t.kids, own), PostOrders(t.kids, own), Culprits(t.kids, own);
      forall i | 0 <= i < |os| ensures Fits(os[i], lists[i], culprits[i], own) && os[i].name == t.kids[i].name {
        PlayAllAt(t.kids, own, i);
        PostOrdersAt(t.kids, own, i);
        CulpritsAt(t.kids, own, i);
        WholeTreeStart(t.kids[i], own);
      }
      NodeStart(t, path, os, lists, culprits);
    }
  }

  lemma {:induction false} FailsAlone(t: Tree, path: Path)
    requires t.Leaf? || t.build.Some?
    ensures var o, culprit := Play(t, path), Culprit(t, path);
            && (o.startFails <==> culprit.Some?)
            && (!o.startFails ==> Only(o.start, {Started}) && PathsOf(o.start) == PostOrder(t, path))
            && (o.startFails ==> RolledBack(o.start, PostOrder(t, path), culprit.value, path + [o.name]))
  {
    var o := Play(t, path);
    if o.startFails {
      assert o.start == [Ev(StartFailed, path + [t.name])];
      OwnFailure(PostOrder(t, path), path + [t.name]);
    }
  }

  lemma {:induction false} OwnFailure(order: seq<Path>, own: Path)
    ensures RolledBack([Ev(StartFailed, own)], order, own, own)
  {
    var evs := [Ev(StartFailed, own)];
    assert evs[1..] == [];
    assert Cut(evs, 0, order, own);
  }

  /** What a supervisor whose children list is built does, by the outcome of its children. */
  lemma {:induction false} NodeUnfold(t: Tree, path: Path)
    requires t.Node? && t.build.None?
    ensures var own := path + [t.name];
            var os := PlayAll(t.kids, own);
            var o := Play(t, path);
            && o.name == t.name && o.startFails == StartFails(os)
            && (StartFails(os) ==>
                  o.start == StartKids(SortStart(t.order, os), SortTermination(t.order, os), {})
                    + [Ev(StartFailed, own)])
            && Culprit(t, path) == FirstSome(SortStart(t.order, Culprits(t.kids, own)))
            && PostOrder(t, path) == Flatten(SortStart(t.order, PostOrders(t.kids, own))) + [own]
  {
  }

  /** A failing start over siblings in configured order. */
  lemma SiblingsRollBack(order: Order, os: seq<Outcome>, lists: seq<seq<Path>>, culprits: seq<Option<Path>>, own: Path)
    requires |os| == |lists| == |culprits| && DistinctOutcomes(os)
    requires forall i :: 0 <= i < |os| ==> Fits(os[i], lists[i], culprits[i], own)
    ensures var blamed := FirstSome(SortStart(order, culprits));
            && (StartFails(os) <==> blamed.Some?)
            && (StartFails(os) ==>
                  RolledBack(StartKids(SortStart(order, os), SortTermination(order, os), {}) + [Ev(StartFailed, own)],
                             Flatten(SortStart(order, lists)) + [own], blamed.value, own))
  {
    var sorted, ordered, blamed := SortStart(order, os), SortStart(order, lists), SortStart(order, culprits);
    forall i | 0 <= i < |sorted| ensures Fits(sorted[i], ordered[i], blamed[i], own) {
      var j := if order.LeftToRight? then i else |os| - 1 - i;
      assert Fits(os[j], lists[j], culprits[j], own);
    }
    FirstSomeIsFirstFailure(sorted, blamed);
    SortKeepsFailures(order, os);
    if StartFails(os) {
      RollbackSiblings(sorted, ordered, blamed, own);
      SortKeepsDistinct(order, os);
      SortedRollback(order, os);
    }
  }

  lemma SortedRollback(order: Order, os: seq<Outcome>)
    requires DistinctOutcomes(SortStart(order, os)) && StartFails(SortStart(order, os))
    ensures var sorted := SortStart(order, os);
            StartKids(sorted, SortTermination(order, os), {}) == Rollback([], sorted, FirstFailure(sorted))
  {
    var sorted := SortStart(order, os);
    StopReversesStart(order, os);
    assert [] + sorted == sorted;
    assert Names([]) == {};
    StartKidsRollback([], sorted);
  }

  lemma {:induction false} NodeStart(t: Tree, path: Path, os: seq<Outcome>, lists: seq<seq<Path>>,
                                     culprits: seq<Option<Path>>)
    requires DistinctSiblings(t) && t.Node? && t.build.None?
    requires var own := path + [t.name];
             os == PlayAll(t.kids, own) && lists == PostOrders(t.kids, own) && culprits == Culprits(t.kids, own)
    requires forall i ::
               0 <= i < |os| ==> Fits(os[i], lists[i], culprits[i], path + [t.name]) && os[i].name == t.kids[i].name
    ensures var o, culprit := Play(t, path), Culprit(t, path);
            && (o.startFails <==> culprit.Some?)
            && (!o.startFails ==> Only(o.start, {Started}) && PathsOf(o.start) == PostOrder(t, path))
            && (o.startFails ==> RolledBack(o.start, PostOrder(t, path), culprit.value, path + [o.name]))
  {
    NodeUnfold(t, path);
    SiblingsRollBack(t.order, os, lists, culprits, path + [t.name]);
    if !StartFails(os) { StartIsPostOrder(t, path); }
  }

  lemma SortKeepsFailures(order: Order, os: seq<Outcome>)
    ensures StartFails(SortStart(order, os)) <==> StartFails(os)
  {
    var sorted := SortStart(order, os);
    forall i | 0 <= i < |os| && os[i].startFails ensures StartFails(sorted) {
      assert sorted[if order.LeftToRight? then i else |os| - 1 - i] == os[i];
    }
  }

  lemma SortKeepsDistinct(order: Order, os: seq<Outcome>)
    requires DistinctOutcomes(os)
    ensures DistinctOutcomes(SortStart(order, os))
  {
    var sorted := SortStart(order, os);
    forall i, j | 0 <= i < j < |sorted| ensures sorted[i].name != sorted[j].name {
      if order.RightToLeft? {
        assert sorted[i] == os[|os| - 1 - i] && sorted[j] == os[|os| - 1 - j];
      }
    }
  }

  /** The start of a whole tree fails exactly when some process on the way fails by itself; then what had
      started is stopped again, nothing starts afterwards, and exactly that process and its ancestors, in that
      order, report a failed start. */
  lemma {:induction false} FailedStartRollsBack(t: Tree)
    requires DistinctSiblings(t)
    ensures Play(t, []).startFails <==> Culprit(t, []).Some?
    ensures Culprit(t, []).Some? ==> RolledBack(Play(t, []).start, PostOrder(t, []), Culprit(t, []).value, [t.name])
  {
    WholeTreeStart(t, []);
    assert [] + [t.name] == [t.name];
  }

  // ----- Which processes exit Failed --------------------------------------------------------------------------

  /** Reference: `p` is a process of the tree that fails by itself when it stops: a worker that ends with an error, or a
      supervisor whose cleanup does. */
  ghost predicate Ails(t: Tree, path: Path, p: Path) {
    var own := path + [t.name];
    match t
    case Leaf(_, _, stop) => stop.Some? && p == own
    case Node(_, _, _, kids, cleanup) =>
      (cleanup.Some? && p == own) || exists i :: 0 <= i < |kids| && Ails(kids[i], own, p)
  }

  /** The process at `q`, or one of its descendants, fails by itself. */
  ghost predicate AilsAt(t: Tree, path: Path, q: Path) { exists p :: Ails(t, path, p) && q <= p }

  /** An exit is reported as failed exactly then. */
  ghost predicate Diagnosed(ev: Ev, t: Tree, path: Path) {
    IsExit(ev.kind) ==> (ev.kind.Failed? <==> AilsAt(t, path, ev.path))
  }

  ghost predicate WithinKids(evs: seq<Ev>, os: seq<Outcome>) {
    forall ev :: ev in evs ==> exists i :: 0 <= i < |os| && (ev in os[i].start || ev in os[i].stop)
  }

  lemma {:induction false} AilsBelow(t: Tree, path: Path, p: Path)
    requires Ails(t, path, p)
    ensures path + [t.name] <= p
    decreases t
  {
    var own := path + [t.name];
    if p != own {
      var i :| 0 <= i < |t.kids| && Ails(t.kids[i], own, p);
      AilsBelow(t.kids[i], own, p);
      assert own <= own + [t.kids[i].name];
    }
  }

  lemma {:induction false} StopKidsWithin(todo: seq<Outcome>, up: set<string>, os: seq<Outcome>)
    requires forall o :: o in todo ==> o in os
    ensures WithinKids(StopKids(todo, up), os)
  {
    if todo != [] {
      assert todo[0] in os;
      StopKidsWithin(todo[1..], up, os);
    }
  }

  lemma {:induction false} StartKidsWithin(todo: seq<Outcome>, all: seq<Outcome>, up: set<string>, os: seq<Outcome>)
    requires forall o :: o in todo || o in all ==> o in os
    ensures WithinKids(StartKids(todo, all, up), os)
  {
    if todo != [] {
      assert todo[0] in os;
      if todo[0].startFails {
        StopKidsWithin(all, up, os);
      } else {
        StartKidsWithin(todo[1..], all, up + {todo[0].name}, os);
      }
    }
  }

  /** The events of a supervisor are those of its children and its own. */
  lemma {:induction false} NodeEvents(t: Tree, path: Path)
    requires t.Node?
    ensures var own, o := path + [t.name], Play(t, path);
            var os := PlayAll(t.kids, own);
            && o.start != [] && WithinKids(o.start[..|o.start| - 1], os)
            && o.start[|o.start| - 1] in [Ev(Started, own), Ev(StartFailed, own)]
            && o.stop != [] && WithinKids(o.stop[..|o.stop| - 1], os)
            && o.stop[|o.stop| - 1] == Ev(if o.stopFails then Failed else Terminated, own)
            && (o.stopFails <==> t.cleanup.Some? || exists i :: 0 <= i < |os| && os[i].stopFails)
  {
    var own, o := path + [t.name], Play(t, path);
    var os := PlayAll(t.kids, own);
    var first, last := SortStart(t.order, os), SortTermination(t.order, os);
    SameElements(os);
    StartKidsWithin(first, last, {}, os);
    StopKidsWithin(last, Names(os), os);
    assert o.start[..|o.start| - 1] == if t.build.Some? then [] else StartKids(first, last, {});
    assert o.stop[..|o.stop| - 1] == StopKids(last, Names(os));
  }

  /** What a child reports it reports rightly of the whole tree as well: its siblings have other paths. */
  lemma {:induction false} KidsDiagnosis(t: Tree, path: Path, i: nat, ev: Ev)
    requires t.Node? && DistinctSiblings(t) && i < |t.kids|
    requires path + [t.name] + [t.kids[i].name] <= ev.path
    ensures Diagnosed(ev, t, path) <==> Diagnosed(ev, t.kids[i], path + [t.name])
  {
    var own := path + [t.name];
    if p :| Ails(t.kids[i], own, p) && ev.path <= p {
      assert Ails(t, path, p);
    }
    if p :| Ails(t, path, p) && ev.path <= p {
      assert |p| > |own|;
      var j :| 0 <= j < |t.kids| && Ails(t.kids[j], own, p);
      AilsBelow(t.kids[j], own, p);
      assert p[|own|] == (own + [t.kids[j].name])[|own|] == (own + [t.kids[i].name])[|own|];
      assert i == j;
    }
  }

  lemma {:induction false} StopFailsByAiling(t: Tree, path: Path)
    ensures Play(t, path).stopFails <==> AilsAt(t, path, path + [t.name])
    decreases t
  {
    var own := path + [t.name];
    if t.Leaf? {
      assert t.stop.Some? ==> Ails(t, path, own);
    } else {
      NodeEvents(t, path);
      var os := PlayAll(t.kids, own);
      forall i | 0 <= i < |os| ensures os[i].stopFails <==> AilsAt(t.kids[i], own, own + [t.kids[i].name]) {
        PlayAllAt(t.kids, own, i);
        StopFailsByAiling(t.kids[i], own);
      }
      NodeAils(t, path);
    }
  }

  /** A supervisor is ill when its cleanup fails or a child is. */
  lemma {:induction false} NodeAils(t: Tree, path: Path)
    requires t.Node?
    ensures var own := path + [t.name];
            AilsAt(t, path, own)
            <==> t.cleanup.Some? || exists i :: 0 <= i < |t.kids| && AilsAt(t.kids[i], own, own + [t.kids[i].name])
  {
    var own := path + [t.name];
    if t.cleanup.Some? {
      assert Ails(t, path, own);
    }
    forall i | 0 <= i < |t.kids| && AilsAt(t.kids[i], own, own + [t.kids[i].name]) ensures AilsAt(t, path, own) {
      var p :| Ails(t.kids[i], own, p) && own + [t.kids[i].name] <= p;
      assert own <= own + [t.kids[i].name];
      assert Ails(t, path, p);
    }
    if AilsAt(t, path, own) && t.cleanup.None? {
      var p :| Ails(t, path, p) && own <= p;
      var i :| 0 <= i < |t.kids| && Ails(t.kids[i], own, p);
      AilsBelow(t.kids[i], own, p);
      assert AilsAt(t.kids[i], own, own + [t.kids[i].name]);
    }
  }

  lemma {:induction false} OneDiagnosis(t: Tree, path: Path, ev: Ev)
    requires DistinctSiblings(t) && (ev in Play(t, path).start || ev in Play(t, path).stop)
    ensures Diagnosed(ev, t, path)
    decreases t
  {
    var own := path + [t.name];
    EventsBelow(t, path, ev);
    if ev.path != own {
      var i := KidOf(t, path, ev);
      PlayAllAt(t.kids, own, i);
      EventsBelow(t.kids[i], own, ev);
      OneDiagnosis(t.kids[i], own, ev);
      KidsDiagnosis(t, path, i, ev);
    } else {
      OwnDiagnosis(t, path, ev);
    }
  }

  lemma KidWith(start: seq<Ev>, stop: seq<Ev>, os: seq<Outcome>, ev: Ev) returns (i: nat)
    requires start != [] && stop != [] && (ev in start || ev in stop)
    requires start[|start| - 1] != ev && stop[|stop| - 1] != ev
    requires WithinKids(start[..|start| - 1], os) && WithinKids(stop[..|stop| - 1], os)
    ensures i < |os| && (ev in os[i].start || ev in os[i].stop)
  {
    assert ev in start[..|start| - 1] || ev in stop[..|stop| - 1];
    i :| 0 <= i < |os| && (ev in os[i].start || ev in os[i].stop);
  }

  lemma {:induction false} EventsBelow(t: Tree, path: Path, ev: Ev)
    requires ev in Play(t, path).start || ev in Play(t, path).stop
    ensures path + [t.name] <= ev.path
    decreases t
  {
    var own := path + [t.name];
    if t.Node? && ev.path != own {
      var i := KidOf(t, path, ev);
      PlayAllAt(t.kids, own, i);
      EventsBelow(t.kids[i], own, ev);
      assert own <= own + [t.kids[i].name];
    }
  }

  lemma {:induction false} KidOf(t: Tree, path: Path, ev: Ev) returns (i: nat)
    requires t.Node? && (ev in Play(t, path).start || ev in Play(t, path).stop) && ev.path != path + [t.name]
    ensures i < |t.kids| && var o := PlayAll(t.kids, path + [t.name])[i]; ev in o.start || ev in o.stop
  {
    NodeEvents(t, path);
    var o, os := Play(t, path), PlayAll(t.kids, path + [t.name]);
    i := KidWith(o.start, o.stop, os, ev);
  }

  /** The only exit that a process reports of itself is the last event of its stop. */
  lemma {:induction false} OwnDiagnosis(t: Tree, path: Path, ev: Ev)
    requires ev in Play(t, path).start || ev in Play(t, path).stop
    requires ev.path == path + [t.name]
    ensures Diagnosed(ev, t, path)
  {
    var own, o := path + [t.name], Play(t, path);
    StopFailsByAiling(t, path);
    if t.Node? {
      NodeEvents(t, path);
      if ev in o.start[..|o.start| - 1] || ev in o.stop[..|o.stop| - 1] { LongerThanOwn(t, path, ev); }
    }
  }

  lemma {:induction false} LongerThanOwn(t: Tree, path: Path, ev: Ev)
    requires t.Node? && WithinKids([ev], PlayAll(t.kids, path + [t.name]))
    ensures |ev.path| > |path + [t.name]|
  {
    var own := path + [t.name];
    var os := PlayAll(t.kids, own);
    assert ev in [ev];
    var i :| 0 <= i < |os| && (ev in os[i].start || ev in os[i].stop);
    PlayAllAt(t.kids, own, i);
    EventsBelow(t.kids[i], own, ev);
  }

  /** Every process of a tree that exits, when the tree stops or when a failed start is rolled back, is reported as
      failed if and only if it or one of its descendants fails by itself; the parent learns of it exactly then. */
  lemma {:induction false} ExitsFailExactly(t: Tree, path: Path)
    requires DistinctSiblings(t)
    ensures var o := Play(t, path);
            && (forall ev :: ev in o.start || ev in o.stop ==> path + [t.name] <= ev.path && Diagnosed(ev, t, path))
            && (o.stopFails <==> AilsAt(t, path, path + [t.name]))
  {
    StopFailsByAiling(t, path);
    var o := Play(t, path);
    forall ev | ev in o.start || ev in o.stop ensures path + [t.name] <= ev.path && Diagnosed(ev, t, path) {
      EventsBelow(t, path, ev);
      OneDiagnosis(t, path, ev);
    }
  }
}
