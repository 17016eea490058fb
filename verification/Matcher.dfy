/** The test tool's matchers and event iterators (smtest/asserters.go, smtest/event_manager.go). */
module Matcher {
  import opened Types

  type Pred<!A> = A -> bool

  // ----- The greedy matcher -----------------------------------------------------------------------------

  /** The predicates that a left-to-right scan of `given` leaves unmatched. */
  function Unmatched<A>(preds: seq<Pred<A>>, given: seq<A>): (rest: seq<Pred<A>>)
    ensures |rest| <= |preds|
  {
    if preds == [] || given == [] then preds
    else Unmatched(if preds[0](given[0]) then preds[1..] else preds, given[1..])
  }

  /** The scan matches in order: what it leaves is a suffix. */
  lemma {:induction false} UnmatchedIsSuffix<A>(preds: seq<Pred<A>>, given: seq<A>)
    ensures Unmatched(preds, given) == preds[|preds| - |Unmatched(preds, given)|..]
    decreases |given|
  {
    if preds != [] && given != [] {
      UnmatchedIsSuffix(if preds[0](given[0]) then preds[1..] else preds, given[1..]);
    }
  }

  method VerifyPartialMatch<A>(preds: seq<Pred<A>>, given: seq<A>) returns (rest: seq<Pred<A>>)
    ensures rest == Unmatched(preds, given)
  {
    rest := preds;
    var left := given;
    while |rest| > 0
      invariant Unmatched(rest, left) == Unmatched(preds, given)
      decreases |left|
    {
      if |left| == 0 { return; }
      if rest[0](left[0]) {
        rest := rest[1..];
        left := left[1..];
      } else {
        left := left[1..];
      }
    }
  }

  /** Reference: `at` chooses, in order, one event of `given` for each predicate. */
  ghost predicate Embeds<A>(preds: seq<Pred<A>>, given: seq<A>, at: seq<nat>) {
    && |at| == |preds|
    && (forall i :: 0 <= i < |at| ==> at[i] < |given| && preds[i](given[at[i]]))
    && (forall i, j :: 0 <= i < j < |at| ==> at[i] < at[j])
  }

  ghost predicate Matches<A>(preds: seq<Pred<A>>, given: seq<A>) { exists at :: Embeds(preds, given, at) }

  function Shift(at: seq<nat>): (r: seq<nat>)
    ensures |r| == |at| && forall i :: 0 <= i < |at| ==> r[i] == at[i] + 1
  {
    seq(|at|, i requires 0 <= i < |at| => at[i] + 1)
  }

  /** A choice for later events, with the first predicate matched by the first event. */
  lemma EmbedsFirst<A>(preds: seq<Pred<A>>, given: seq<A>, rest: seq<nat>, m: nat)
    requires 0 < m <= |preds| && given != [] && preds[0](given[0])
    requires Embeds(preds[1..][..m - 1], given[1..], rest)
    ensures Embeds(preds[..m], given, [0] + Shift(rest))
  {
    var at := [0] + Shift(rest);
    forall i | 0 <= i < |at| ensures at[i] < |given| && preds[..m][i](given[at[i]]) {
      if i > 0 { assert preds[1..][..m - 1][i - 1](given[1..][rest[i - 1]]); }
    }
  }

  lemma EmbedsLater<A>(preds: seq<Pred<A>>, given: seq<A>, rest: seq<nat>)
    requires given != [] && Embeds(preds, given[1..], rest)
    ensures Embeds(preds, given, Shift(rest))
  {
    forall i | 0 <= i < |rest| ensures preds[i](given[Shift(rest)[i]]) {
      assert preds[i](given[1..][rest[i]]);
    }
  }

  /** What the scan matches is matched by some choice. */
  lemma {:induction false} GreedyMatches<A>(preds: seq<Pred<A>>, given: seq<A>) returns (at: seq<nat>)
    ensures Embeds(preds[..|preds| - |Unmatched(preds, given)|], given, at)
    decreases |given|
  {
    var m := |preds| - |Unmatched(preds, given)|;
    if preds == [] || given == [] {
      at := [];
    } else if preds[0](given[0]) {
      var rest := GreedyMatches(preds[1..], given[1..]);
      at := [0] + Shift(rest);
      EmbedsFirst(preds, given, rest, m);
    } else {
      var rest := GreedyMatches(preds, given[1..]);
      at := Shift(rest);
      EmbedsLater(preds[..m], given, rest);
    }
  }

  /** No choice matches more predicates than the scan does. */
  lemma {:induction false} NoChoiceDoesBetter<A>(preds: seq<Pred<A>>, given: seq<A>, j: nat, at: seq<nat>)
    requires j <= |preds| && Embeds(preds[..j], given, at)
    ensures j <= |preds| - |Unmatched(preds, given)|
    decreases |given|
  {
    if j > 0 {
      assert at[0] < |given|;
      if preds[0](given[0]) {
        var back := seq(j - 1, i requires 0 <= i < j - 1 => if at[i + 1] > 0 then at[i + 1] - 1 else 0);
        forall i | 0 <= i < j - 1 ensures back[i] < |given[1..]| && preds[1..][..j - 1][i](given[1..][back[i]]) {
          assert at[0] < at[i + 1];
          assert preds[..j][i + 1](given[at[i + 1]]);
        }
        NoChoiceDoesBetter(preds[1..], given[1..], j - 1, back);
      } else {
        assert at[0] != 0 by { assert preds[..j][0](given[at[0]]); }
        assert forall i :: 0 < i < j ==> at[0] < at[i];
        NoChoiceDoesBetter(preds, given[1..], j, seq(j, i requires 0 <= i < j => at[i] - 1));
      }
    }
  }

  /** The greedy scan is optimal: its prefix of matched predicates is the longest that any choice of
      event positions can match, so nothing is left exactly when the whole list can be matched. */
  lemma {:induction false} GreedyIsOptimal<A>(preds: seq<Pred<A>>, given: seq<A>)
    ensures Unmatched(preds, given) == [] <==> Matches(preds, given)
    ensures forall j :: 0 <= j <= |preds| ==>
              (Matches(preds[..j], given) <==> j <= |preds| - |Unmatched(preds, given)|)
  {
    var m := |preds| - |Unmatched(preds, given)|;
    var best := GreedyMatches(preds, given);
    forall j | 0 <= j <= |preds| ensures Matches(preds[..j], given) <==> j <= m {
      if j <= m {
        var part := best[..j];
        assert preds[..j] == preds[..m][..j];
        assert Embeds(preds[..j], given, part);
      } else if Matches(preds[..j], given) {
        var at :| Embeds(preds[..j], given, at);
        NoChoiceDoesBetter(preds, given, j, at);
      }
    }
    assert preds[..|preds|] == preds;
  }

  /** Matching may be resumed: what `a` leaves is all that `b` has to match. */
  lemma {:induction false} MatchingResumes<A>(preds: seq<Pred<A>>, a: seq<A>, b: seq<A>)
    ensures Unmatched(preds, a + b) == Unmatched(Unmatched(preds, a), b)
    decreases |a|
  {
    if a == [] {
      assert a + b == b;
    } else {
      assert (a + b)[1..] == a[1..] + b;
      if preds != [] {
        MatchingResumes(if preds[0](a[0]) then preds[1..] else preds, a[1..], b);
      }
    }
  }

  method VerifyExactMatch<A>(preds: seq<Pred<A>>, given: seq<A>) returns (ok: bool)
    ensures ok <==> |preds| == |given| && Embeds(preds, given, seq(|given|, i => i))
  {
    if |preds| != |given| { return false; }
    for i := 0 to |preds|
      invariant forall k :: 0 <= k < i ==> preds[k](given[k])
    {
      if !preds[i](given[i]) {
        assert !Embeds(preds, given, seq(|given|, i => i)) by { assert seq(|given|, i => i)[i] == i; }
        return false;
      }
    }
    return true;
  }

  // ----- The event manager and its iterators ------------------------------------------------------------

  /** The position of the first event at or after `ix` that meets `pred`, or the end. */
  function FirstMatch<A>(h: seq<A>, ix: nat, pred: Pred<A>): (r: nat)
    requires ix <= |h|
    ensures ix <= r <= |h|
    ensures forall k :: ix <= k < r ==> !pred(h[k])
    ensures r < |h| ==> pred(h[r])
    decreases |h| - ix
  {
    if ix == |h| || pred(h[ix]) then ix else FirstMatch(h, ix + 1, pred)
  }

  /** `foldl` over a finished history: the accumulator, the new index, and whether it still waits. */
  function Fold<A, B>(h: seq<A>, ix: nat, acc: B, step: (B, A) -> (bool, B)): (r: (B, nat, bool))
    requires ix <= |h|
    decreases |h| - ix
  {
    if ix == |h| then (acc, ix, true)
    else
      var (more, next) := step(acc, h[ix]);
      if more then Fold(h, ix + 1, next, step) else (next, ix + 1, false)
  }

  /** A shared append-only buffer.  `coming` is what the observed system is still going to emit, in order. */
  class EventManager<A(0)> {
    var evBuffer: seq<A>
    var coming: seq<A>

    constructor (events: seq<A>)
      ensures evBuffer == [] && coming == events
    {
      evBuffer, coming := [], events;
    }

    ghost function History(): seq<A>
      reads this
    {
      evBuffer + coming
    }

    method StoreEvent(ev: A)
      modifies this`evBuffer
      ensures evBuffer == old(evBuffer) + [ev]
    {
      evBuffer := evBuffer + [ev];
    }

    /** The collector goroutine stores one more event. */
    method Collect()
      requires coming != []
      modifies this
      ensures History() == old(History()) && evBuffer == old(evBuffer) + [old(coming)[0]]
              && |coming| == |old(coming)| - 1
    {
      StoreEvent(coming[0]);
      coming := coming[1..];
    }

    /** Any number of events may be collected before the lock is taken; then the caller waits until the
        index exists.  `None` stands for waiting for ever. */
    method GetEventIx(ix: nat) returns (ev: Option<A>)
      modifies this
      ensures History() == old(History()) && old(evBuffer) <= evBuffer
      ensures ev == if ix < |History()| then Some(History()[ix]) else None
    {
      var early: nat :| early <= |coming|;
      for i := 0 to early
        invariant |coming| == old(|coming|) - i && History() == old(History()) && old(evBuffer) <= evBuffer
      {
        Collect();
      }
      while ix >= |evBuffer| && coming != []
        invariant History() == old(History()) && old(evBuffer) <= evBuffer
        decreases |coming|
      {
        Collect();
      }
      ev := if ix < |evBuffer| then Some(evBuffer[ix]) else None;
    }
  }

  class EventIterator<A(0)> {
    var evIx: nat
    const evManager: EventManager<A>

    constructor (em: EventManager<A>)
      ensures evManager == em && evIx == 0
    {
      evManager, evIx := em, 0;
    }

    method Foldl<B>(zero: B, step: (B, A) -> (bool, B)) returns (acc: B, waiting: bool)
      requires evIx <= |evManager.History()|
      modifies this, evManager
      ensures evManager.History() == old(evManager.History()) && evIx <= |evManager.History()|
      ensures (acc, evIx, waiting) == Fold(evManager.History(), old(evIx), zero, step)
    {
      acc, waiting := zero, false;
      var more := true;
      while more
        invariant evManager.History() == old(evManager.History()) && evIx <= |evManager.History()|
        invariant !waiting
        invariant Fold(evManager.History(), old(evIx), zero, step)
               == if more then Fold(evManager.History(), evIx, acc, step) else (acc, evIx, false)
        decreases more, |evManager.History()| - evIx
      {
        var ev := evManager.GetEventIx(evIx);
        if ev.None? {
          waiting := true;
          return;
        }
        var (next, value) := step(acc, ev.value);
        more, acc := next, value;
        evIx := evIx + 1;
      }
    }

    /** Stops just after the first event that meets `pred`, and waits exactly when there is none. */
    method WaitTill(pred: Pred<A>) returns (waiting: bool)
      requires evIx <= |evManager.History()|
      modifies this, evManager
      ensures evManager.History() == old(evManager.History()) && evIx <= |evManager.History()|
      ensures var h, m := evManager.History(), FirstMatch(evManager.History(), old(evIx), pred);
              (waiting <==> m == |h|) && evIx == if m == |h| then m else m + 1
    {
      var step := (u: (), ev: A) => (!pred(ev), u);
      var unit;
      unit, waiting := Foldl((), step);
      WaitIsFold(evManager.History(), old(evIx), pred, step);
    }

    /** One wait after the other, as tests do with the events they expect: the chain gets through exactly when the
        matcher, over the same events, leaves nothing, and then it stands where the last of the matches ends. */
    method WaitTillEach(preds: seq<Pred<A>>) returns (waiting: bool)
      requires evIx <= |evManager.History()|
      modifies this, evManager
      ensures evManager.History() == old(evManager.History()) && evIx <= |evManager.History()|
      ensures waiting <==> Unmatched(preds, evManager.History()[old(evIx)..]) != []
      ensures !waiting ==> WaitChain(preds, evManager.History(), old(evIx)) == Some(evIx)
    {
      ChainAgreesWithMatcher(preds, evManager.History(), evIx);
      waiting := false;
      for i := 0 to |preds|
        invariant evManager.History() == old(evManager.History()) && evIx <= |evManager.History()|
        invariant WaitChain(preds, evManager.History(), old(evIx)) == WaitChain(preds[i..], evManager.History(), evIx)
      {
        assert preds[i..][1..] == preds[i + 1..];
        waiting := WaitTill(preds[i]);
        if waiting { return; }
      }
    }

    /** Takes exactly the events from the index up to the first that meets `pred`, which it also consumes. */
    method TakeTill(pred: Pred<A>) returns (taken: seq<A>, waiting: bool)
      requires evIx <= |evManager.History()|
      modifies this, evManager
      ensures evManager.History() == old(evManager.History()) && evIx <= |evManager.History()|
      ensures var h, m := evManager.History(), FirstMatch(evManager.History(), old(evIx), pred);
              && taken == h[old(evIx)..m]
              && (waiting <==> m == |h|) && evIx == if m == |h| then m else m + 1
    {
      var step := (acc: seq<A>, ev: A) => if pred(ev) then (false, acc) else (true, acc + [ev]);
      taken, waiting := Foldl([], step);
      TakeIsFold(evManager.History(), old(evIx), pred, [], step);
    }
  }

  lemma {:induction false} WaitIsFold<A>(h: seq<A>, ix: nat, pred: Pred<A>, step: ((), A) -> (bool, ()))
    requires ix <= |h| && forall u, ev :: step(u, ev) == (!pred(ev), u)
    ensures var m := FirstMatch(h, ix, pred);
            Fold(h, ix, (), step) == ((), if m == |h| then m else m + 1, m == |h|)
    decreases |h| - ix
  {
    if ix < |h| && !pred(h[ix]) { WaitIsFold(h, ix + 1, pred, step); }
  }

  lemma {:induction false} TakeIsFold<A>(h: seq<A>, ix: nat, pred: Pred<A>, acc: seq<A>,
                                         step: (seq<A>, A) -> (bool, seq<A>))
    requires ix <= |h| && forall s, ev :: step(s, ev) == if pred(ev) then (false, s) else (true, s + [ev])
    ensures var m := FirstMatch(h, ix, pred);
            Fold(h, ix, acc, step) == (acc + h[ix..m], if m == |h| then m else m + 1, m == |h|)
    decreases |h| - ix
  {
    if ix < |h| && !pred(h[ix]) {
      TakeIsFold(h, ix + 1, pred, acc + [h[ix]], step);
      var m := FirstMatch(h, ix, pred);
      assert acc + h[ix..m] == acc + [h[ix]] + h[ix + 1..m];
    } else {
      assert acc + h[ix..ix] == acc;
    }
  }

  // ----- Iterator and matcher agree ---------------------------------------------------------------------

  /** Where a chain of waits ends, or `None` when one of them waits for ever. */
  function WaitChain<A>(preds: seq<Pred<A>>, h: seq<A>, ix: nat): (r: Option<nat>)
    requires ix <= |h|
    ensures r.Some? ==> ix <= r.value <= |h|
  {
    if preds == [] then Some(ix)
    else
      var m := FirstMatch(h, ix, preds[0]);
      if m == |h| then None else WaitChain(preds[1..], h, m + 1)
  }

  lemma {:induction false} UnmatchedStep<A>(preds: seq<Pred<A>>, h: seq<A>, ix: nat)
    requires ix < |h| && preds != []
    ensures Unmatched(preds, h[ix..]) == Unmatched(if preds[0](h[ix]) then preds[1..] else preds, h[ix + 1..])
  {
    assert h[ix..] != [] && h[ix..][0] == h[ix] && h[ix..][1..] == h[ix + 1..];
  }

  lemma {:induction false} SkipToFirstMatch<A>(preds: seq<Pred<A>>, h: seq<A>, ix: nat)
    requires ix <= |h| && preds != []
    ensures var m := FirstMatch(h, ix, preds[0]);
            Unmatched(preds, h[ix..]) == if m == |h| then preds else Unmatched(preds[1..], h[m + 1..])
    decreases |h| - ix
  {
    if ix < |h| {
      UnmatchedStep(preds, h, ix);
      if !preds[0](h[ix]) { SkipToFirstMatch(preds, h, ix + 1); }
    } else {
      assert h[ix..] == [];
    }
  }

  /** The chain gets through without waiting exactly when the matcher, over the same events, leaves nothing. */
  lemma {:induction false} ChainAgreesWithMatcher<A>(preds: seq<Pred<A>>, h: seq<A>, ix: nat)
    requires ix <= |h|
    ensures WaitChain(preds, h, ix).Some? <==> Unmatched(preds, h[ix..]) == []
    decreases |preds|
  {
    if preds != [] {
      SkipToFirstMatch(preds, h, ix);
      var m := FirstMatch(h, ix, preds[0]);
      if m < |h| { ChainAgreesWithMatcher(preds[1..], h, m + 1); }
    }
  }

  /** And then it has read the shortest such history: one event less is not enough. */
  lemma {:induction false} ChainStopsAtOnce<A>(preds: seq<Pred<A>>, h: seq<A>, ix: nat, n: nat)
    requires ix <= n <= |h| && WaitChain(preds, h, ix).Some?
    ensures Unmatched(preds, h[ix..n]) == [] <==> WaitChain(preds, h, ix).value <= n
    decreases |preds|
  {
    if preds != [] {
      var m := FirstMatch(h, ix, preds[0]);
      PrefixSkips(preds, h, ix, n);
      if m < n { ChainStopsAtOnce(preds[1..], h, m + 1, n); }
    }
  }

  lemma PrefixSkips<A>(preds: seq<Pred<A>>, h: seq<A>, ix: nat, n: nat)
    requires ix <= n <= |h| && preds != [] && FirstMatch(h, ix, preds[0]) < |h|
    ensures var m := FirstMatch(h, ix, preds[0]);
            Unmatched(preds, h[ix..n]) == if n <= m then preds else Unmatched(preds[1..], h[m + 1..n])
  {
    var m := FirstMatch(h, ix, preds[0]);
    SkipToFirstMatch(preds, h[..n], ix);
    assert h[..n][ix..] == h[ix..n];
    if n > m {
      assert h[..n][m + 1..] == h[m + 1..n];
      FirstMatchIsUnique(h, ix, preds[0], h[..n]);
    }
  }

  lemma {:induction false} FirstMatchIsUnique<A>(h: seq<A>, ix: nat, pred: Pred<A>, prefix: seq<A>)
    requires ix <= |prefix| && prefix <= h && FirstMatch(h, ix, pred) < |prefix|
    ensures FirstMatch(prefix, ix, pred) == FirstMatch(h, ix, pred)
  {
    var m, r := FirstMatch(h, ix, pred), FirstMatch(prefix, ix, pred);
    assert prefix[m] == h[m];
    assert r < |prefix| ==> prefix[r] == h[r];
  }
}
