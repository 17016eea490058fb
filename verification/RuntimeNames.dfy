/** Runtime names, and what an event's name tells about the process (internal/s/root.go, internal/c/start.go,
    internal/s/monitor.go). */
module RuntimeNames {
  import opened Trees
  import Ordering

  /** The parent name of a root supervisor. */
  const ROOT: string := ""

  function BuildRuntimeName(name: string, parentName: string): string {
    if parentName == ROOT then name else parentName + "/" + name
  }

  /** The name of the process at a path from the root supervisor. */
  function RuntimeName(path: Path): string {
    if path == [] then ROOT else BuildRuntimeName(path[|path| - 1], RuntimeName(path[..|path| - 1]))
  }

  function Split(s: string): (r: seq<string>)
    ensures r != []
  {
    if s == "" then [""]
    else
      var rest := Split(s[1..]);
      if s[0] == '/' then [""] + rest else [[s[0]] + rest[0]] + rest[1..]
  }

  /** What the constructors of workers and supervisors enforce. */
  predicate NonEmptyNames(path: Path) { forall i :: 0 <= i < |path| ==> path[i] != "" }

  /** What the documentation of the constructors promises, and no code enforces. */
  predicate SlashFree(path: Path) { forall i :: 0 <= i < |path| ==> '/' !in path[i] }

  lemma {:induction false} SplitWhole(s: string)
    requires '/' !in s
    ensures Split(s) == [s]
  {
    if s != "" {
      SplitWhole(s[1..]);
      assert [s[0]] + s[1..] == s;
    }
  }

  lemma {:induction false} SplitJoin(a: string, b: string)
    ensures Split(a + "/" + b) == Split(a) + Split(b)
  {
    if a == "" {
      assert "" + "/" + b == "/" + b && ("/" + b)[1..] == b;
    } else {
      assert (a + "/" + b)[1..] == a[1..] + "/" + b;
      SplitJoin(a[1..], b);
    }
  }

  lemma {:induction false} SplitIsSlashFree(s: string)
    ensures SlashFree(Split(s))
  {
    if s != "" { SplitIsSlashFree(s[1..]); }
  }

  lemma {:induction false} NamesAreNotRoot(path: Path)
    requires path != [] && NonEmptyNames(path)
    ensures RuntimeName(path) != ROOT
  {
  }

  lemma {:induction false} SplitRecovers(path: Path)
    requires path != [] && NonEmptyNames(path) && SlashFree(path)
    ensures Split(RuntimeName(path)) == path
  {
    var init, last := path[..|path| - 1], path[|path| - 1];
    SplitWhole(last);
    assert path == init + [last];
    if init != [] {
      SplitRecovers(init);
      NamesAreNotRoot(init);
      SplitJoin(RuntimeName(init), last);
    }
  }

  /** Splitting the name returns the path exactly when no name on it holds a slash. */
  lemma {:induction false} SplitTellsPathExactly(path: Path)
    requires path != [] && NonEmptyNames(path)
    ensures Split(RuntimeName(path)) == path <==> SlashFree(path)
  {
    SplitIsSlashFree(RuntimeName(path));
    if SlashFree(path) { SplitRecovers(path); }
  }

  /** The pieces between the slashes of all names on a path, in order. */
  function Pieces(path: Path): seq<string> {
    if path == [] then [] else Pieces(path[..|path| - 1]) + Split(path[|path| - 1])
  }

  lemma {:induction false} NameHasPieces(path: Path)
    requires path != [] && NonEmptyNames(path)
    ensures Split(RuntimeName(path)) == Pieces(path)
  {
    var init, last := path[..|path| - 1], path[|path| - 1];
    if init != [] {
      NameHasPieces(init);
      NamesAreNotRoot(init);
      SplitJoin(RuntimeName(init), last);
    }
  }

  function Join(pieces: seq<string>): string {
    if pieces == [] then "" else if |pieces| == 1 then pieces[0] else pieces[0] + "/" + Join(pieces[1..])
  }

  lemma {:induction false} JoinSplit(s: string)
    ensures Join(Split(s)) == s
  {
    if s != "" {
      var rest := Split(s[1..]);
      JoinSplit(s[1..]);
      if s[0] == '/' {
        assert ([""] + rest)[1..] == rest;
      } else {
        var r := [[s[0]] + rest[0]] + rest[1..];
        assert r[1..] == rest[1..];
        if |rest| > 1 { assert [s[0]] + rest[0] + "/" + Join(rest[1..]) == [s[0]] + (rest[0] + "/" + Join(rest[1..])); }
      }
    }
  }

  /** Exactly when two processes share a runtime name: the names on their paths have the same pieces.  So a name does
      not tell the path of its process, even when no name on that path holds a slash. */
  lemma {:induction false} SameNameExactly(p: Path, q: Path)
    requires p != [] && NonEmptyNames(p) && q != [] && NonEmptyNames(q)
    ensures RuntimeName(p) == RuntimeName(q) <==> Pieces(p) == Pieces(q)
  {
    NameHasPieces(p);
    NameHasPieces(q);
    JoinSplit(RuntimeName(p));
    JoinSplit(RuntimeName(q));
  }

  /** Without slashes, different processes have different names. */
  lemma {:induction false} NamesAreInjective(p: Path, q: Path)
    requires p != [] && NonEmptyNames(p) && SlashFree(p)
    requires q != [] && NonEmptyNames(q) && SlashFree(q)
    ensures RuntimeName(p) == RuntimeName(q) <==> p == q
  {
    SplitRecovers(p);
    SplitRecovers(q);
  }

  /** A name with a slash is accepted, and then two processes of one tree can share a name. */
  lemma SlashMakesNamesCollide()
    ensures var p, q: Path := ["root", "db/pool"], ["root", "db", "pool"];
            p != q && NonEmptyNames(p) && NonEmptyNames(q) && RuntimeName(p) == RuntimeName(q)
  {
    var p, q: Path := ["root", "db/pool"], ["root", "db", "pool"];
    assert p[..1] == ["root"] && q[..2] == ["root", "db"] && q[..2][..1] == ["root"];
    assert RuntimeName(["root"]) == "root";
    assert RuntimeName(["root", "db"]) == "root/db" by { assert ["root", "db"][..1] == ["root"]; }
    assert "root" + "/" + "db/pool" == "root/db" + "/" + "pool";
  }

  ghost predicate PlainNames(t: Tree) {
    && t.name != "" && '/' !in t.name
    && (t.Node? ==> forall i :: 0 <= i < |t.kids| ==> PlainNames(t.kids[i]))
  }

  ghost predicate Plain(paths: seq<Path>) {
    forall i :: 0 <= i < |paths| ==> paths[i] != [] && NonEmptyNames(paths[i]) && SlashFree(paths[i])
  }

  lemma {:induction false} PostOrderIsPlain(t: Tree, path: Path)
    requires PlainNames(t) && NonEmptyNames(path) && SlashFree(path)
    ensures Plain(PostOrder(t, path))
    decreases t
  {
    if t.Node? {
      var own := path + [t.name];
      forall i | 0 <= i < |t.kids| ensures Plain(PostOrders(t.kids, own)[i]) {
        PostOrdersAt(t.kids, own, i);
        PostOrderIsPlain(t.kids[i], own);
      }
      FlattenPlain(Ordering.SortStart(t.order, PostOrders(t.kids, own)));
    }
  }

  lemma {:induction false} FlattenPlain(xs: seq<seq<Path>>)
    requires forall i :: 0 <= i < |xs| ==> Plain(xs[i])
    ensures Plain(Flatten(xs))
  {
    if xs != [] {
      assert Plain(xs[0]);
      forall i | 0 <= i < |xs[1..]| ensures Plain(xs[1..][i]) { assert Plain(xs[i + 1]); }
      FlattenPlain(xs[1..]);
    }
  }

  function NamesOf(paths: seq<Path>): (r: seq<string>)
    ensures |r| == |paths| && forall i :: 0 <= i < |paths| ==> r[i] == RuntimeName(paths[i])
  {
    seq(|paths|, i requires 0 <= i < |paths| => RuntimeName(paths[i]))
  }

  /** In a clean start of a whole tree, the event names identify the processes: each name appears once. */
  lemma {:induction false} EventNamesIdentifyProcesses(t: Tree)
    requires DistinctSiblings(t) && PlainNames(t) && !Play(t, []).startFails
    ensures NoDuplicates(NamesOf(PathsOf(Play(t, []).start)))
  {
    CleanLife(t);
    PostOrderIsPlain(t, []);
    var paths := PathsOf(Play(t, []).start);
    forall i, j | 0 <= i < j < |paths| ensures NamesOf(paths)[i] != NamesOf(paths)[j] {
      NamesAreInjective(paths[i], paths[j]);
    }
  }

}
