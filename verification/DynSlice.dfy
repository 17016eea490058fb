/** Deleting from a slice while ranging over it (internal/s/dyn_supervisor.go). */
module DynSlice {
  import opened Types

  /** The range loop of `terminateChildMsg.processMsg`.  `arr` is the backing array, which every
      deletion shifts in place; `n` is the length of the slice header that `range` evaluated once;
      `len` is the length of the shrinking slice variable.  The result is the final slice, or
      `None` when re-slicing goes out of bounds and the goroutine panics. */
  function RangeDelete(arr: seq<ChildSpec>, n: nat, len: nat, i: nat, name: string): Option<seq<ChildSpec>>
    requires len <= n <= |arr| && i <= n
    decreases n - i
  {
    if i == n then Some(arr[..len])
    else if arr[i].name != name then RangeDelete(arr, n, len, i + 1, name)
    else if i + 1 > len then None
    else RangeDelete(arr[..i] + arr[i + 1..len] + arr[len - 1..], n, len - 1, i + 1, name)
  }

  function Delete(specs: seq<ChildSpec>, name: string): Option<seq<ChildSpec>> {
    RangeDelete(specs, |specs|, |specs|, 0, name)
  }

  /** What the loop is meant to do: keep the other children, in order. */
  function Without(specs: seq<ChildSpec>, name: string): (r: seq<ChildSpec>)
    ensures forall x :: x in r <==> x in specs && x.name != name
  {
    if specs == [] then []
    else (if specs[0].name == name then [] else [specs[0]]) + Without(specs[1..], name)
  }

  ghost predicate DistinctNames(specs: seq<ChildSpec>) {
    forall i, j :: 0 <= i < j < |specs| ==> specs[i].name != specs[j].name
  }

  // ----- What the loop reads ------------------------------------------------------------------

  /** The loop seen from the elements still to come: `rest` are those not yet shifted past, `stale`
      counts the trailing slots of the old header that all hold the old last element `z`.  The
      element after a deleted one slides under the index and is never examined. */
  function Scan(rest: seq<ChildSpec>, stale: nat, z: ChildSpec, name: string): Option<seq<ChildSpec>> {
    if rest == [] then if stale > 0 && z.name == name then None else Some([])
    else if rest[0].name != name then Prepend(rest[0], Scan(rest[1..], stale, z, name))
    else if |rest| == 1 then if stale > 0 && z.name == name then None else Some([])
    else Prepend(rest[1], Scan(rest[2..], stale + 1, z, name))
  }

  function Prepend<T>(x: T, r: Option<seq<T>>): Option<seq<T>> {
    match r case None => None case Some(s) => Some([x] + s)
  }

  function Join<T>(s: seq<T>, r: Option<seq<T>>): Option<seq<T>> {
    match r case None => None case Some(t) => Some(s + t)
  }

  lemma JoinPrepend<T>(s: seq<T>, x: T, r: Option<seq<T>>)
    ensures Join(s + [x], r) == Join(s, Prepend(x, r))
  {
    if r.Some? { assert s + [x] + r.value == s + ([x] + r.value); }
  }

  /** Beyond the shrunken slice only stale slots remain. */
  lemma {:induction false} TailIsStale(arr: seq<ChildSpec>, n: nat, len: nat, i: nat, name: string)
    requires len < n <= |arr| && len <= i <= n
    requires forall k :: len <= k < n ==> arr[k] == arr[n - 1]
    ensures RangeDelete(arr, n, len, i, name) == if i < n && arr[n - 1].name == name then None else Some(arr[..len])
    decreases n - i
  {
    if i < n && arr[i].name != name {
      TailIsStale(arr, n, len, i + 1, name);
    }
  }

  /** The backing array after deleting the element at `i`. */
  lemma ShiftedSlice(arr: seq<ChildSpec>, n: nat, len: nat, i: nat)
    requires len <= n <= |arr| && i + 1 < len && arr[len - 1] == arr[n - 1]
    requires forall k :: len <= k < n ==> arr[k] == arr[n - 1]
    ensures var arr' := arr[..i] + arr[i + 1..len] + arr[len - 1..];
            && |arr'| == |arr| && arr'[n - 1] == arr[n - 1] && arr'[len - 2] == arr[n - 1]
            && (forall k :: len - 1 <= k < n ==> arr'[k] == arr[n - 1])
            && arr'[..i + 1] == arr[..i] + [arr[i + 1]]
            && arr'[i + 1..len - 1] == arr[i + 2..len]
    ensures arr[i..len][2..] == arr[i + 2..len] && arr[i..len][1] == arr[i + 1]
  {}

  /** One step of the scan, on a slice of the backing array. */
  lemma {:induction false} ScanAt(arr: seq<ChildSpec>, len: nat, i: nat, stale: nat, z: ChildSpec, name: string)
    requires i < len <= |arr|
    ensures arr[i].name != name
            ==> Scan(arr[i..len], stale, z, name) == Prepend(arr[i], Scan(arr[i + 1..len], stale, z, name))
    ensures arr[i].name == name && i + 1 < len ==>
              Scan(arr[i..len], stale, z, name) == Prepend(arr[i + 1], Scan(arr[i + 2..len], stale + 1, z, name))
    ensures arr[i].name == name && i + 1 == len ==>
              Scan(arr[i..len], stale, z, name) == if stale > 0 && z.name == name then None else Some([])
  {
    var rest := arr[i..len];
    assert rest[0] == arr[i] && rest[1..] == arr[i + 1..len];
    if i + 1 < len { assert rest[1] == arr[i + 1] && rest[2..] == arr[i + 2..len]; }
  }

  lemma {:induction false} LoopIsScan(arr: seq<ChildSpec>, n: nat, len: nat, i: nat, name: string)
    requires 0 < n && len <= n <= |arr| && i <= len
    requires forall k :: len <= k < n ==> arr[k] == arr[n - 1]
    requires len > 0 ==> arr[len - 1] == arr[n - 1]
    ensures RangeDelete(arr, n, len, i, name) == Join(arr[..i], Scan(arr[i..len], n - len, arr[n - 1], name))
    decreases n - i
  {
    var z := arr[n - 1];
    if i == len {
      assert arr[i..len] == [] && arr[..i] + [] == arr[..i];
      if len < n { TailIsStale(arr, n, len, i, name); }
    } else {
      ScanAt(arr, len, i, n - len, z, name);
      if arr[i].name != name {
        assert arr[..i + 1] == arr[..i] + [arr[i]];
        LoopIsScan(arr, n, len, i + 1, name);
        JoinPrepend(arr[..i], arr[i], Scan(arr[i + 1..len], n - len, z, name));
      } else {
        LoopDeletes(arr, n, len, i, name);
      }
    }
  }

  lemma {:induction false} LoopDeletes(arr: seq<ChildSpec>, n: nat, len: nat, i: nat, name: string)
    requires 0 < n && i < len <= n <= |arr| && arr[i].name == name && arr[len - 1] == arr[n - 1]
    requires forall k :: len <= k < n ==> arr[k] == arr[n - 1]
    ensures RangeDelete(arr, n, len, i, name) == Join(arr[..i], Scan(arr[i..len], n - len, arr[n - 1], name))
    decreases n - i, 0
  {
    var z := arr[n - 1];
    var arr' := arr[..i] + arr[i + 1..len] + arr[len - 1..];
    ScanAt(arr, len, i, n - len, z, name);
    if i + 1 == len {
      assert arr' == arr;
      TailIsStale(arr, n, len - 1, i + 1, name);
      assert arr[..i] + [] == arr[..i];
    } else {
      ShiftedSlice(arr, n, len, i);
      LoopIsScan(arr', n, len - 1, i + 1, name);
      JoinPrepend(arr[..i], arr[i + 1], Scan(arr[i + 2..len], n - len + 1, z, name));
    }
  }

  lemma {:induction false} DeleteIsScan(specs: seq<ChildSpec>, name: string)
    requires specs != []
    ensures Delete(specs, name) == Scan(specs, 0, specs[|specs| - 1], name)
  {
    LoopIsScan(specs, |specs|, |specs|, 0, name);
    var r := Scan(specs, 0, specs[|specs| - 1], name);
    assert r.Some? ==> specs[..0] + r.value == r.value;
    assert specs[0..|specs|] == specs;
  }

  // ----- When the loop does what it is meant to do -----------------------------------------------

  predicate NoTwoInARow(specs: seq<ChildSpec>, name: string) {
    |specs| < 2 || (!(specs[0].name == name && specs[1].name == name) && NoTwoInARow(specs[1..], name))
  }

  /** No spec but possibly the last carries the name. */
  predicate OnlyLast(specs: seq<ChildSpec>, name: string) {
    |specs| < 2 || (specs[0].name != name && OnlyLast(specs[1..], name))
  }

  lemma {:induction false} ScanFiltersExactly(rest: seq<ChildSpec>, stale: nat, z: ChildSpec, name: string)
    requires rest != [] ==> z == rest[|rest| - 1]
    ensures Scan(rest, stale, z, name) == Some(Without(rest, name))
            <==> NoTwoInARow(rest, name) && (z.name == name ==> stale == 0 && OnlyLast(rest, name))
    decreases |rest|
  {
    if |rest| == 1 {
      assert rest[1..] == [] && Without(rest[1..], name) == [];
      assert rest[0].name == name ==> Without(rest, name) == [];
      assert rest[0].name != name ==> Without(rest, name) == [rest[0]] + [];
      assert rest[0].name != name ==> Scan(rest, stale, z, name) == Prepend(rest[0], Scan([], stale, z, name));
    } else if |rest| > 1 {
      var tail := rest[1..];
      if rest[0].name != name {
        ScanFiltersExactly(tail, stale, z, name);
        PrependCompare(rest[0], Scan(tail, stale, z, name), Without(tail, name));
      } else {
        FirstMatches(rest, stale, z, name);
      }
    }
  }

  lemma {:induction false} FirstMatches(rest: seq<ChildSpec>, stale: nat, z: ChildSpec, name: string)
    requires |rest| > 1 && rest[0].name == name && z == rest[|rest| - 1]
    ensures Scan(rest, stale, z, name) == Some(Without(rest, name))
            <==> NoTwoInARow(rest, name) && (z.name == name ==> stale == 0 && OnlyLast(rest, name))
    decreases |rest|, 0
  {
    var tail := rest[2..];
    assert rest[1..][1..] == tail;
    var r := Scan(tail, stale + 1, z, name);
    assert Scan(rest, stale, z, name) == Prepend(rest[1], r);
    if rest[1].name == name {
      KeptByMistake(rest, r, name);
    } else {
      ScanFiltersExactly(tail, stale + 1, z, name);
      assert Without(rest[1..], name) == [rest[1]] + Without(tail, name);
      assert Without(rest, name) == [] + Without(rest[1..], name) == Without(rest[1..], name);
      PrependCompare(rest[1], r, Without(tail, name));
      assert NoTwoInARow(rest[1..], name) == NoTwoInARow(tail, name);
    }
  }

  lemma {:induction false} KeptByMistake(rest: seq<ChildSpec>, r: Option<seq<ChildSpec>>, name: string)
    requires |rest| > 1 && rest[1].name == name
    ensures Prepend(rest[1], r) != Some(Without(rest, name))
  {
    assert rest[1] !in Without(rest, name);
    if r.Some? { assert ([rest[1]] + r.value)[0] == rest[1]; }
  }

  lemma PrependCompare<T>(x: T, r: Option<seq<T>>, b: seq<T>)
    ensures Prepend(x, r) == Some([x] + b) <==> r == Some(b)
  {
    if r.Some? { PrependInjective(x, r.value, b); }
  }

  lemma PrependInjective<T>(x: T, a: seq<T>, b: seq<T>)
    ensures [x] + a == [x] + b <==> a == b
  {
    if [x] + a == [x] + b {
      assert a == ([x] + a)[1..] && b == ([x] + b)[1..];
    }
  }

  /** Exactly when the loop deletes every spec of that name, keeps the others in order and does not
      panic: no two of them are neighbours, and the last spec carries the name only if no other does. */
  lemma {:induction false} DeleteFiltersExactly(specs: seq<ChildSpec>, name: string)
    ensures Delete(specs, name) == Some(Without(specs, name))
            <==> NoTwoInARow(specs, name)
                 && (specs != [] && specs[|specs| - 1].name == name ==> OnlyLast(specs, name))
  {
    if specs != [] {
      DeleteIsScan(specs, name);
      ScanFiltersExactly(specs, 0, specs[|specs| - 1], name);
    }
  }

  /** In particular with distinct names, where at most one spec goes. */
  lemma {:induction false} DeleteWithDistinctNames(specs: seq<ChildSpec>, name: string)
    requires DistinctNames(specs)
    ensures Delete(specs, name) == Some(Without(specs, name))
    ensures DistinctNames(Without(specs, name))
  {
    DeleteFiltersExactly(specs, name);
    DistinctIsFine(specs, name);
    WithoutKeepsDistinct(specs, name);
  }

  lemma {:induction false} DistinctIsFine(specs: seq<ChildSpec>, name: string)
    requires DistinctNames(specs)
    ensures NoTwoInARow(specs, name)
    ensures specs != [] && specs[|specs| - 1].name == name ==> OnlyLast(specs, name)
  {
    if specs != [] { DistinctIsFine(specs[1..], name); }
  }

  lemma {:induction false} WithoutKeepsDistinct(specs: seq<ChildSpec>, name: string)
    requires DistinctNames(specs)
    ensures DistinctNames(Without(specs, name))
  {
    if specs != [] {
      WithoutKeepsDistinct(specs[1..], name);
      var r := Without(specs[1..], name);
      forall j | 0 <= j < |r| ensures r[j].name != specs[0].name {
        assert r[j] in specs[1..];
      }
    }
  }

  lemma {:induction false} ScanPanicsExactly(rest: seq<ChildSpec>, stale: nat, z: ChildSpec, name: string)
    requires rest != [] ==> z == rest[|rest| - 1]
    ensures Scan(rest, stale, z, name).None? <==> z.name == name && (stale > 0 || !OnlyLast(rest, name))
    decreases |rest|
  {
    if rest != [] {
      if rest[0].name != name {
        ScanPanicsExactly(rest[1..], stale, z, name);
      } else if |rest| > 1 {
        ScanPanicsExactly(rest[2..], stale + 1, z, name);
      }
    }
  }

  lemma {:induction false} OnlyLastMeans(specs: seq<ChildSpec>, name: string)
    ensures OnlyLast(specs, name) <==> forall i :: 0 <= i < |specs| - 1 ==> specs[i].name != name
  {
    if |specs| >= 2 {
      OnlyLastMeans(specs[1..], name);
      assert forall i :: 1 <= i < |specs| - 1 ==> specs[i] == specs[1..][i - 1];
      assert forall i :: 0 <= i < |specs| - 2 ==> specs[1..][i] == specs[i + 1];
    }
  }

  /** Exactly when the loop re-slices out of bounds: the last spec carries the name, and so does an earlier one. */
  lemma {:induction false} DeletePanicsExactly(specs: seq<ChildSpec>, name: string)
    ensures Delete(specs, name).None?
            <==> && specs != [] && specs[|specs| - 1].name == name
                 && exists i :: 0 <= i < |specs| - 1 && specs[i].name == name
  {
    if specs != [] {
      DeleteIsScan(specs, name);
      ScanPanicsExactly(specs, 0, specs[|specs| - 1], name);
      OnlyLastMeans(specs, name);
    }
  }

  /** In particular two specs of one name. */
  lemma ReusedNamePanics(first: ChildSpec, second: ChildSpec)
    requires first.name == second.name
    ensures Delete([first, second], first.name) == None
  {
    DeletePanicsExactly([first, second], first.name);
    assert [first, second][0].name == first.name;
  }

  // ----- The loop itself ------------------------------------------------------------------------

  /** The range loop on a real backing array.  `slice` is the length of the slice variable on exit;
      `panicked` tells that re-slicing went out of bounds. */
  method DeleteWhileRanging(backing: array<ChildSpec>, name: string) returns (slice: nat, panicked: bool)
    modifies backing
    ensures panicked <==> Delete(old(backing[..]), name).None?
    ensures !panicked ==> slice <= backing.Length && Some(backing[..slice]) == Delete(old(backing[..]), name)
  {
    var n := backing.Length;
    slice, panicked := n, false;
    for i := 0 to n
      invariant !panicked && slice <= n
      invariant RangeDelete(backing[..], n, slice, i, name) == Delete(old(backing[..]), name)
    {
      if backing[i].name == name {
        if i + 1 > slice {
          panicked := true;
          return;
        }
        ghost var before := backing[..];
        forall k | i <= k < slice - 1 {
          backing[k] := backing[k + 1];
        }
        assert backing[..] == before[..i] + before[i + 1..slice] + before[slice - 1..];
        slice := slice - 1;
      }
    }
  }
}
