/** Restart tolerance: the counter that decides when a supervisor gives up
    (internal/s/supervisor.go, internal/s/restart_tolerance.go).

    A call reads the clock up to three times, and successive readings are nondecreasing. */
module Tolerance {
  import opened Types

  /** A `time.Time`; `Zero` is the zero value that marks "no window opened yet". */
  datatype Instant = Zero | At(ns: int)

  datatype Verdict = Surpassed | Increment | Reset

  datatype Policy = Policy(max: uint32, window: int64)

  /** `time.Since`, which saturates at both ends of a `time.Duration`. */
  function Since(created: Instant, now: int): int64 {
    if created.Zero? then INT64_MAX
    else
      var d := now - created.ns;
      if d > INT64_MAX then INT64_MAX else if d < -INT64_MAX - 1 then -INT64_MAX - 1 else d
  }

  predicate WithinWindow(p: Policy, created: Instant, now: int) {
    Since(created, now) < p.window || p.window == 0
  }

  function Succ32(n: uint32): uint32 { (n + 1) % (UINT32_MAX + 1) }

  function Check(p: Policy, count: uint32, created: Instant, now: int): Verdict {
    if created.Zero? || WithinWindow(p, created, now) then
      if p.max == 0 || p.max < Succ32(count) then Surpassed else Increment
    else Reset
  }

  /** The fields of `restartToleranceManager`. */
  datatype Manager<+E> =
    Manager(policy: Policy, count: uint32, begin: Instant, source: Option<E>)

  function Fresh<E>(p: Policy): Manager<E> { Manager(p, 0, Zero, None) }

  datatype Admission<+E> = Admission(mgr: Manager<E>, ok: bool)

  /** The readings of the clock in one call: when a window opens, when it is checked, when it is reset.  A reading that
      the call does not take is of no consequence. */
  datatype Clock = Clock(began: int, checked: int, reset: int)

  /** A call that the clock does not notice. */
  function Once(now: int): Clock { Clock(now, now, now) }

  predicate Forward(c: Clock) { c.began <= c.checked <= c.reset }

  /** `checkToleranceExceeded`; despite its name it returns true when the failure is tolerated. */
  function Admit<E>(m: Manager<E>, err: E, c: Clock): Admission<E> {
    var window := if m.begin.Zero? then m.(source := Some(err), begin := At(c.began)) else m;
    match Check(window.policy, window.count, window.begin, c.checked)
    case Surpassed => Admission(window, false)
    case Increment => Admission(window.(count := Succ32(window.count)), true)
    case Reset => Admission(window.(source := Some(err), count := 1, begin := At(c.reset)), true)
  }

  /** Verdict, counter and source are those of a single reading unless the policy tolerates nothing and its positive
      window has already closed when the call that opens it comes to check it: that failure is then tolerated.  The
      window begins as it did, or between the first and the last reading of the call. */
  lemma OneReadingSuffices<E>(m: Manager<E>, err: E, c: Clock)
    requires Forward(c) && (m.begin.Zero? ==> m.count == 0)
    ensures var one, three := Admit(m, err, Once(c.checked)), Admit(m, err, c);
            && ((one.ok, one.mgr.count, one.mgr.source) == (three.ok, three.mgr.count, three.mgr.source)
                <==> !(m.begin.Zero? && m.policy.max == 0 && 0 < m.policy.window <= c.checked - c.began))
            && three.mgr.begin.At?
            && (three.mgr.begin != m.begin ==> c.began <= three.mgr.begin.ns <= c.reset)
  {
    assert Succ32(0) == 1;
  }

  /** The mutable manager of the source. */
  class RestartToleranceManager<E> {
    var sourceErr: Option<E>
    const policy: Policy
    var restartCount: uint32
    var restartBeginTime: Instant

    function State(): Manager<E>
      reads this
    {
      Manager(policy, restartCount, restartBeginTime, sourceErr)
    }

    constructor (p: Policy)
      ensures State() == Fresh(p)
    {
      sourceErr, policy, restartCount, restartBeginTime := None, p, 0, Zero;
    }

    method CheckToleranceExceeded(err: E, clock: Clock) returns (ok: bool)
      modifies this
      ensures State() == Admit(old(State()), err, clock).mgr
      ensures ok == Admit(old(State()), err, clock).ok
    {
      if restartBeginTime == Zero {
        sourceErr := Some(err);
        restartBeginTime := At(clock.began);
      }
      match Check(policy, restartCount, restartBeginTime, clock.checked) {
        case Surpassed =>
          ok := false;
        case Increment =>
          restartCount := Succ32(restartCount);
          ok := true;
        case Reset =>
          sourceErr := Some(err);
          restartCount := 1;
          restartBeginTime := At(clock.reset);
          ok := true;
      }
    }
  }

  // ----- Runs ---------------------------------------------------------------------------

  /** A failure reported to the manager, with the readings of the call that counts it. */
  datatype Fail<+E> = Fail(err: E, at: Clock)

  /** The manager after a run of failures. */
  function After<E>(p: Policy, fs: seq<Fail<E>>): Manager<E> {
    if fs == [] then Fresh(p)
    else
      var last := fs[|fs| - 1];
      Admit(After(p, fs[..|fs| - 1]), last.err, last.at).mgr
  }

  /** Is failure number `i` of the run tolerated, when all the earlier ones were counted? */
  predicate ToleratedAt<E>(p: Policy, fs: seq<Fail<E>>, i: nat)
    requires i < |fs|
  {
    Admit(After(p, fs[..i]), fs[i].err, fs[i].at).ok
  }

  ghost predicate AllTolerated<E>(p: Policy, fs: seq<Fail<E>>) {
    forall i :: 0 <= i < |fs| ==> ToleratedAt(p, fs, i)
  }

  /** Within each call and from call to call the clock does not go back. */
  ghost predicate Chronological<E>(fs: seq<Fail<E>>) {
    && (forall i :: 0 <= i < |fs| ==> Forward(fs[i].at))
    && (forall i, j :: 0 <= i < j < |fs| ==> fs[i].at.reset <= fs[j].at.began)
  }

  /** Can the 32-bit counter represent every value that the comparison needs? */
  predicate CounterFits(p: Policy) { p.max < UINT32_MAX }

  // ----- Reference: a greedy partition of the run into windows ----------------------------

  /** Does a window opened at `start` still hold at `at`?  A zero window never closes. */
  predicate Covers(p: Policy, start: int, at: int) {
    p.window == 0 || at - start < p.window
  }

  /** When the window that failure `k` opens begins.  The first failure opens it before the check, unless it finds it
      closed by then; every other one finds its predecessor closed and resets it. */
  function Start<E>(p: Policy, fs: seq<Fail<E>>, k: nat): int
    requires k < |fs|
  {
    if k == 0 && Covers(p, fs[0].at.began, fs[0].at.checked) then fs[0].at.began else fs[k].at.reset
  }

  /** The index of the failure that opened the window in which failure `i` falls: windows are
      laid one after the other, each opening at the first failure its predecessor misses. */
  function Opener<E>(p: Policy, fs: seq<Fail<E>>, i: nat): (k: nat)
    requires i < |fs|
    ensures k <= i
  {
    if i == 0 then 0
    else
      var k := Opener(p, fs, i - 1);
      if Covers(p, Start(p, fs, k), fs[i].at.checked) then k else i
  }

  /** Failure `i` has found the window closed. */
  predicate Reopens<E>(p: Policy, fs: seq<Fail<E>>, i: nat)
    requires i < |fs|
  {
    Opener(p, fs, i) == i && (i == 0 ==> !Covers(p, fs[0].at.began, fs[0].at.checked))
  }

  /** Failure `i` is at most the `max`-th of its window, or resets it. */
  predicate FitsWindow<E>(p: Policy, fs: seq<Fail<E>>, i: nat)
    requires i < |fs|
  {
    i - Opener(p, fs, i) < p.max || Reopens(p, fs, i)
  }

  ghost predicate AllFit<E>(p: Policy, fs: seq<Fail<E>>) {
    forall i :: 0 <= i < |fs| ==> FitsWindow(p, fs, i)
  }

  lemma StartPrefix<E>(p: Policy, fs: seq<Fail<E>>, n: nat, k: nat)
    requires k < n <= |fs|
    ensures Start(p, fs[..n], k) == Start(p, fs, k)
  {}

  lemma {:induction false} OpenerPrefix<E>(p: Policy, fs: seq<Fail<E>>, n: nat, i: nat)
    requires i < n <= |fs|
    ensures Opener(p, fs[..n], i) == Opener(p, fs, i)
  {
    if i > 0 {
      OpenerPrefix(p, fs, n, i - 1);
      StartPrefix(p, fs, n, Opener(p, fs, i - 1));
    }
  }

  lemma {:induction false} OpenerIsItsOwn<E>(p: Policy, fs: seq<Fail<E>>, i: nat)
    requires i < |fs|
    ensures Opener(p, fs, Opener(p, fs, i)) == Opener(p, fs, i)
  {
    if i > 0 {
      OpenerIsItsOwn(p, fs, i - 1);
    }
  }

  /** The largest number of failures that one window can hold: a reset is counted even if nothing is tolerated. */
  function Most(p: Policy): nat { if p.max == 0 then 1 else p.max }

  /** What the manager holds after a run of tolerated failures, read off the reference. */
  ghost predicate Tracks<E>(p: Policy, fs: seq<Fail<E>>, m: Manager<E>) {
    && m.policy == p
    && if fs == [] then m == Fresh(p)
       else
         var k := Opener(p, fs, |fs| - 1);
         m.count == |fs| - k && m.begin == At(Start(p, fs, k)) && m.source == Some(fs[k].err)
  }

  /** The manager implements the reference partition: it tolerates a run exactly when no failure is beyond the
      `max`-th of its window, but for those that reset it; its counter is then the exact number of failures in the
      open window (so it never wraps), and it remembers the failure that opened that window. */
  lemma {:induction false} ManagerTracksWindows<E>(p: Policy, fs: seq<Fail<E>>)
    requires CounterFits(p) && p.window >= 0 && Chronological(fs)
    ensures AllTolerated(p, fs) <==> AllFit(p, fs)
    ensures AllTolerated(p, fs) ==> Tracks(p, fs, After(p, fs)) && After(p, fs).count <= Most(p)
  {
    if fs != [] {
      ManagerTracksWindows(p, fs[..|fs| - 1]);
      SplitLast(p, fs);
      if AllTolerated(p, fs[..|fs| - 1]) {
        OneMore(p, fs);
      }
    }
  }

  lemma SplitLast<E>(p: Policy, fs: seq<Fail<E>>)
    requires fs != []
    ensures var pre := fs[..|fs| - 1];
            && (AllTolerated(p, fs) <==> AllTolerated(p, pre) && ToleratedAt(p, fs, |fs| - 1))
            && (AllFit(p, fs) <==> AllFit(p, pre) && FitsWindow(p, fs, |fs| - 1))
  {
    SplitTolerated(p, fs);
    SplitFit(p, fs);
  }

  lemma SplitTolerated<E>(p: Policy, fs: seq<Fail<E>>)
    requires fs != []
    ensures AllTolerated(p, fs) <==> AllTolerated(p, fs[..|fs| - 1]) && ToleratedAt(p, fs, |fs| - 1)
  {
    var n := |fs| - 1;
    var pre := fs[..n];
    forall i | 0 <= i < n ensures ToleratedAt(p, fs, i) == ToleratedAt(p, pre, i) { SamePrefix(p, fs, n, i); }
  }

  lemma SplitFit<E>(p: Policy, fs: seq<Fail<E>>)
    requires fs != []
    ensures AllFit(p, fs) <==> AllFit(p, fs[..|fs| - 1]) && FitsWindow(p, fs, |fs| - 1)
  {
    var n := |fs| - 1;
    var pre := fs[..n];
    forall i | 0 <= i < n ensures FitsWindow(p, fs, i) == FitsWindow(p, pre, i) { SamePrefix(p, fs, n, i); }
  }

  lemma SamePrefix<E>(p: Policy, fs: seq<Fail<E>>, n: nat, i: nat)
    requires i < n <= |fs|
    ensures ToleratedAt(p, fs, i) == ToleratedAt(p, fs[..n], i)
    ensures FitsWindow(p, fs, i) == FitsWindow(p, fs[..n], i)
  {
    assert fs[..n][..i] == fs[..i];
    OpenerPrefix(p, fs, n, i);
  }

  /** One more failure, as the manager sees it. */
  lemma {:induction false} ManagerSnoc<E>(p: Policy, fs: seq<Fail<E>>, f: Fail<E>)
    ensures var a := Admit(After(p, fs), f.err, f.at);
            && After(p, fs + [f]) == a.mgr
            && (AllTolerated(p, fs + [f]) <==> AllTolerated(p, fs) && a.ok)
  {
    var all := fs + [f];
    assert all[..|fs|] == fs;
    SplitLast(p, all);
  }

  lemma ChronologicalSnoc<E>(fs: seq<Fail<E>>, f: Fail<E>)
    requires Chronological(fs) && Forward(f.at) && forall i :: 0 <= i < |fs| ==> fs[i].at.reset <= f.at.began
    ensures Chronological(fs + [f])
  {}

  /** One call, without the wrap-around and saturation that cannot show below the top of uint32. */
  lemma AdmitMeans<E>(m: Manager<E>, err: E, c: Clock)
    requires CounterFits(m.policy) && m.policy.window >= 0 && m.count <= Most(m.policy) && Forward(c)
    requires m.begin.At? ==> m.begin.ns <= c.checked
    requires m.begin.Zero? ==> m.count == 0
    ensures Admit(m, err, c) ==
            if !Covers(m.policy, if m.begin.Zero? then c.began else m.begin.ns, c.checked)
            then Admission(Manager(m.policy, 1, At(c.reset), Some(err)), true)
            else
              var m' := if m.begin.Zero? then m.(source := Some(err), begin := At(c.began)) else m;
              if m.count < m.policy.max then Admission(m'.(count := m.count + 1), true) else Admission(m', false)
  {
    assert Succ32(m.count) == m.count + 1;
  }

  /** A window begins during the call of the failure that opens it. */
  lemma StartsInCall<E>(p: Policy, fs: seq<Fail<E>>, k: nat)
    requires Chronological(fs) && k < |fs|
    ensures fs[k].at.began <= Start(p, fs, k) <= fs[k].at.reset
  {
    assert Forward(fs[k].at);
  }

  lemma OneMore<E>(p: Policy, fs: seq<Fail<E>>)
    requires CounterFits(p) && p.window >= 0 && Chronological(fs) && fs != []
    requires var pre := fs[..|fs| - 1]; Tracks(p, pre, After(p, pre)) && After(p, pre).count <= Most(p)
    ensures ToleratedAt(p, fs, |fs| - 1) <==> FitsWindow(p, fs, |fs| - 1)
    ensures ToleratedAt(p, fs, |fs| - 1) ==> Tracks(p, fs, After(p, fs)) && After(p, fs).count <= Most(p)
    ensures !ToleratedAt(p, fs, |fs| - 1) && |fs| > 1 ==> After(p, fs) == After(p, fs[..|fs| - 1])
  {
    var n := |fs| - 1;
    var m, f := After(p, fs[..n]), fs[n];
    assert Forward(f.at);
    assert After(p, fs) == Admit(m, f.err, f.at).mgr;
    if n > 0 {
      var k := Opener(p, fs, n - 1);
      HeldBefore(p, fs, m);
      LaterCall(p, m, n - k, Start(p, fs, k), fs[k].err, f);
    } else {
      FirstCall(p, m, f);
    }
  }

  /** The manager before the last failure, in terms of the whole run. */
  lemma HeldBefore<E>(p: Policy, fs: seq<Fail<E>>, m: Manager<E>)
    requires Chronological(fs) && |fs| > 1 && Tracks(p, fs[..|fs| - 1], m)
    ensures var n := |fs| - 1;
            var k := Opener(p, fs, n - 1);
            && m.policy == p && m.count == n - k && m.begin == At(Start(p, fs, k)) && m.source == Some(fs[k].err)
            && Start(p, fs, k) <= fs[n].at.checked
  {
    var n := |fs| - 1;
    var k := Opener(p, fs, n - 1);
    OpenerPrefix(p, fs, n, n - 1);
    StartPrefix(p, fs, n, k);
    StartsInCall(p, fs, k);
    assert fs[k].at.reset <= fs[n].at.began && Forward(fs[n].at);
  }

  lemma FirstCall<E>(p: Policy, m: Manager<E>, f: Fail<E>)
    requires CounterFits(p) && p.window >= 0 && m == Fresh(p) && Forward(f.at)
    ensures var a := Admit(m, f.err, f.at);
            && (a.ok <==> p.max > 0 || !Covers(p, f.at.began, f.at.checked))
            && (a.ok ==> a.mgr == Manager(p, 1, At(if Covers(p, f.at.began, f.at.checked) then f.at.began
                                                   else f.at.reset), Some(f.err)))
  {
    AdmitMeans(m, f.err, f.at);
  }

  lemma LaterCall<E>(p: Policy, m: Manager<E>, count: nat, start: int, source: E, f: Fail<E>)
    requires CounterFits(p) && p.window >= 0 && 1 <= count <= Most(p) && start <= f.at.checked && Forward(f.at)
    requires m.policy == p && m.count == count && m.begin == At(start) && m.source == Some(source)
    ensures var a := Admit(m, f.err, f.at);
            && (a.ok <==> count < p.max || !Covers(p, start, f.at.checked))
            && (!a.ok ==> a.mgr == m)
            && (a.ok ==> a.mgr == if Covers(p, start, f.at.checked) then m.(count := count + 1)
                                  else Manager(p, 1, At(f.at.reset), Some(f.err)))
  {
    AdmitMeans(m, f.err, f.at);
  }

  // ----- Sliding-window bound ---------------------------------------------------------------

  /** If every failure of a run is tolerated, at most `2 * max - 1` of them fall in a half-open interval as long as the
      window, wherever it is placed; a failure falls in it from the first reading of its call to its check. */
  lemma SlidingWindowBound<E>(p: Policy, fs: seq<Fail<E>>, i: nat, j: nat)
    requires CounterFits(p) && p.window > 0 && Chronological(fs) && AllTolerated(p, fs)
    requires i <= j < |fs| && fs[j].at.checked < fs[i].at.began + p.window
    ensures j - i + 1 <= 2 * Most(p) - 1
  {
    ManagerTracksWindows(p, fs);
    var k := Opener(p, fs, j);
    AtMost(p, fs, j);
    if i < k {
      AtMost(p, fs, k - 1);
      StartsBefore(p, fs, i, j);
    }
  }

  lemma {:induction false} AtMost<E>(p: Policy, fs: seq<Fail<E>>, i: nat)
    requires AllFit(p, fs) && i < |fs|
    ensures i - Opener(p, fs, i) < Most(p)
  {
    assert FitsWindow(p, fs, i);
  }

  /** The window before the one of failure `j` was opened before failure `i`, if both fall in the interval. */
  lemma StartsBefore<E>(p: Policy, fs: seq<Fail<E>>, i: nat, j: nat)
    requires Chronological(fs) && p.window > 0 && i < j < |fs| && i < Opener(p, fs, j)
    requires fs[j].at.checked < fs[i].at.began + p.window
    ensures Opener(p, fs, Opener(p, fs, j) - 1) < i
  {
    var k := Opener(p, fs, j);
    var before := Opener(p, fs, k - 1);
    OpenerIsItsOwn(p, fs, j);
    MissedByItsPredecessor(p, fs, k);
    StartsInCall(p, fs, before);
    NoLater(fs, k, j);
    if i <= before { NoLater(fs, i, before); }
  }

  lemma {:induction false} MissedByItsPredecessor<E>(p: Policy, fs: seq<Fail<E>>, k: nat)
    requires 0 < k < |fs| && Opener(p, fs, k) == k && p.window > 0
    ensures fs[k].at.checked >= Start(p, fs, Opener(p, fs, k - 1)) + p.window
  {
  }

  lemma NoLater<E>(fs: seq<Fail<E>>, i: nat, j: nat)
    requires Chronological(fs) && i <= j < |fs|
    ensures fs[i].at.began <= fs[j].at.began && fs[i].at.checked <= fs[j].at.checked && fs[i].at.reset <= fs[j].at.reset
  {
    assert Forward(fs[i].at) && Forward(fs[j].at);
  }

  /** With a one-nanosecond window the bound is `max`: such an interval is a single instant. */
  lemma SingleInstantBound<E>(p: Policy, fs: seq<Fail<E>>, i: nat, j: nat)
    requires CounterFits(p) && p.window > 0 && Chronological(fs) && AllTolerated(p, fs)
    requires i <= j < |fs| && fs[j].at.checked == fs[i].at.began
    requires p.window == 1
    ensures j - i + 1 <= Most(p)
  {
    ManagerTracksWindows(p, fs);
    assert FitsWindow(p, fs, j);
    if i < j {
      assert fs[i].at.reset <= fs[j].at.began && Forward(fs[j].at) && Forward(fs[i].at);
      InstantOpens(p, fs, i, j);
    }
  }

  /** One-nanosecond windows: failures at one instant share their window. */
  lemma {:induction false} InstantOpens<E>(p: Policy, fs: seq<Fail<E>>, i: nat, j: nat)
    requires p.window == 1 && Chronological(fs)
    requires i <= j < |fs| && fs[i].at == Once(fs[i].at.began) && fs[j].at.checked == fs[i].at.began
    ensures Opener(p, fs, j) == Opener(p, fs, i) && Start(p, fs, Opener(p, fs, i)) == fs[i].at.began
    decreases j
  {
    var k := Opener(p, fs, i);
    StartsInCall(p, fs, k);
    if k < i { assert fs[k].at.reset <= fs[i].at.began; }
    if i < j {
      assert Forward(fs[j].at) && Forward(fs[j - 1].at) && fs[j - 1].at.reset <= fs[j].at.began;
      NoLater(fs, i, j - 1);
      InstantOpens(p, fs, i, j - 1);
    } else if 0 < i {
      assert k < i ==> Covers(p, Start(p, fs, k), fs[i].at.checked);
    }
  }

  /** The run that attains the bound: one failure, `max - 1` more at the last instant of its
      window, and `max` at the first instant after it. */
  function Worst<E>(p: Policy, err: E): (fs: seq<Fail<E>>)
    requires p.max >= 1
    ensures |fs| == 2 * p.max && forall i :: 0 <= i < |fs| ==> fs[i] == Fail(err, Once(WorstAt(p, i)))
  {
    seq(2 * p.max, i => Fail(err, Once(WorstAt(p, i))))
  }

  function WorstAt(p: Policy, i: int): int { if i <= 0 then 0 else if i < p.max then p.window - 1 else p.window }

  /** The bound is tight: for every window of at least two nanoseconds some tolerated run puts
      exactly `2 * max - 1` failures in an interval shorter than the window. */
  lemma BoundIsAttained<E>(p: Policy, err: E)
    requires CounterFits(p) && p.window >= 2 && p.max >= 1
    ensures var fs := Worst(p, err);
            && Chronological(fs) && AllTolerated(p, fs)
            && |fs| == 2 * p.max
            && fs[|fs| - 1].at.checked < fs[1].at.began + p.window
  {
    var fs := Worst(p, err);
    ManagerTracksWindows(p, fs);
    forall i | 0 <= i < |fs| ensures FitsWindow(p, fs, i) {
      WorstOpener(p, err, i);
    }
  }

  lemma {:induction false} WorstOpener<E>(p: Policy, err: E, i: nat)
    requires p.window >= 2 && p.max >= 1 && i < 2 * p.max
    ensures Opener(p, Worst(p, err), i) == if i < p.max then 0 else p.max
  {
    if i > 0 {
      WorstOpener(p, err, i - 1);
    }
  }

  /** Failures `i..j` of a tolerated run fill an interval shorter than the window to the bound. */
  ghost predicate Packs<E>(p: Policy, fs: seq<Fail<E>>, i: nat, j: nat) {
    && Chronological(fs) && AllTolerated(p, fs)
    && i <= j < |fs| && fs[j].at.checked < fs[i].at.began + p.window
    && j - i + 1 == 2 * p.max - 1
  }

  /** Exactly which policies attain the bound. */
  lemma BoundIsTightExactly<E>(p: Policy, err: E)
    requires CounterFits(p) && p.window > 0 && p.max >= 1
    ensures (exists fs: seq<Fail<E>>, i, j :: Packs(p, fs, i, j)) <==> p.window >= 2 || p.max == 1
  {
    if p.window >= 2 {
      BoundIsAttained(p, err);
      assert Packs(p, Worst(p, err), 1, |Worst(p, err)| - 1);
    } else if p.max == 1 {
      var fs := [Fail(err, Once(0))];
      ManagerTracksWindows(p, fs);
      assert AllFit(p, fs);
      assert Packs(p, fs, 0, 0);
    } else {
      forall fs: seq<Fail<E>>, i, j | Packs(p, fs, i, j) ensures false {
        SingleInstantBound(p, fs, i, j);
      }
    }
  }

  // ----- Zero window, negative window, and the widest counter -------------------------------

  lemma {:induction false} ZeroWindowOpener<E>(p: Policy, fs: seq<Fail<E>>, i: nat)
    requires p.window == 0 && i < |fs|
    ensures Opener(p, fs, i) == 0
  {
    if i > 0 {
      ZeroWindowOpener(p, fs, i - 1);
    }
  }

  /** A zero window never forgets: a run is tolerated exactly when it has at most `max`
      failures, whatever their times. */
  lemma ZeroWindowCountsForEver<E>(p: Policy, fs: seq<Fail<E>>)
    requires CounterFits(p) && p.window == 0 && Chronological(fs)
    ensures AllTolerated(p, fs) <==> |fs| <= p.max
  {
    ManagerTracksWindows(p, fs);
    forall i | 0 <= i < |fs| ensures FitsWindow(p, fs, i) <==> i < p.max {
      ZeroWindowOpener(p, fs, i);
    }
    if AllTolerated(p, fs) && fs != [] {
      assert FitsWindow(p, fs, |fs| - 1);
    }
  }

  /** Under max 0 and a positive window a failure is tolerated only by finding its window closed. */
  lemma ZeroMaxTolerates<E>(p: Policy, fs: seq<Fail<E>>)
    requires p.max == 0 && p.window > 0 && Chronological(fs)
    ensures AllTolerated(p, fs) <==> forall i :: 0 <= i < |fs| ==> Reopens(p, fs, i)
  {
    ManagerTracksWindows(p, fs);
    forall i | 0 <= i < |fs| ensures FitsWindow(p, fs, i) <==> Reopens(p, fs, i) {}
  }

  /** A negative window has always elapsed, so nothing is ever refused. */
  lemma {:induction false} NegativeWindowTolerates<E>(p: Policy, fs: seq<Fail<E>>)
    requires p.window < 0 && Chronological(fs)
    ensures AllTolerated(p, fs)
    ensures fs != [] ==> After(p, fs).begin == At(fs[|fs| - 1].at.reset) && After(p, fs).policy == p
  {
    if fs != [] {
      var n := |fs| - 1;
      NegativeWindowTolerates(p, fs[..n]);
      assert fs[..n] == [] ==> After<E>(p, fs[..n]) == Fresh(p);
      forall i | 0 <= i < n ensures ToleratedAt(p, fs, i) {
        assert ToleratedAt(p, fs[..n], i);
        assert fs[..n][..i] == fs[..i];
      }
      assert Forward(fs[n].at);
      assert fs[..n] != [] ==> fs[..n][n - 1].at.reset <= fs[n].at.began;
      assert ToleratedAt(p, fs, n);
    }
  }

  /** With `max` at the top of uint32 the comparison can never succeed. */
  lemma WidestCounterTolerates<E>(p: Policy, fs: seq<Fail<E>>)
    requires !CounterFits(p)
    ensures AllTolerated(p, fs)
  {
    forall i | 0 <= i < |fs| ensures ToleratedAt(p, fs, i) {
      PolicyKept(p, fs[..i]);
    }
  }

  lemma {:induction false} PolicyKept<E>(p: Policy, fs: seq<Fail<E>>)
    ensures After(p, fs).policy == p
  {
    if fs != [] {
      PolicyKept(p, fs[..|fs| - 1]);
    }
  }

  /** Exactly which policies can ever give up. */
  lemma CanGiveUp<E>(p: Policy, err: E)
    ensures (exists fs: seq<Fail<E>> :: Chronological(fs) && !AllTolerated(p, fs))
            <==> CounterFits(p) && p.window >= 0
  {
    if CounterFits(p) && p.window >= 0 {
      var fs := seq(p.max + 1, i => Fail(err, Once(0)));
      BurstIsRefused(p, err, fs);
    } else {
      forall fs: seq<Fail<E>> | Chronological(fs) ensures AllTolerated(p, fs) {
        if !CounterFits(p) { WidestCounterTolerates(p, fs); } else { NegativeWindowTolerates(p, fs); }
      }
    }
  }

  lemma {:induction false} BurstIsRefused<E>(p: Policy, err: E, fs: seq<Fail<E>>)
    requires CounterFits(p) && p.window >= 0 && fs == seq(p.max + 1, i => Fail(err, Once(0)))
    ensures Chronological(fs) && !AllTolerated(p, fs)
  {
    ManagerTracksWindows(p, fs);
    BurstOpener(p, err, p.max + 1, p.max);
    assert !FitsWindow(p, fs, p.max);
  }

  lemma {:induction false} BurstOpener<E>(p: Policy, err: E, n: nat, i: nat)
    requires p.window >= 0 && i < n
    ensures Opener(p, seq(n, i => Fail(err, Once(0))), i) == 0
  {
    if i > 0 {
      BurstOpener(p, err, n, i - 1);
    }
  }

  // ----- Giving up is justified ---------------------------------------------------------------

  /** Failures `k..` of the run are one window that holds as many as the policy tolerates, and one more. */
  ghost predicate Overfull<E>(p: Policy, fs: seq<Fail<E>>, k: nat) {
    && fs != [] && k < |fs|
    && fs[|fs| - 1].at.checked - Start(p, fs, k) < p.window
    && (p.max >= 1 ==> |fs| - 1 - k == p.max)
    && (p.max == 0 ==> |fs| - 1 - k <= 1)
  }

  /** When a failure is refused for the first time, the last `max + 1` failures all lie within
      less than the window, and the error that the supervisor reports as the source is the one
      that opened that window. */
  lemma {:induction false} GivingUpIsJustified<E>(p: Policy, fs: seq<Fail<E>>)
    requires CounterFits(p) && p.window > 0 && Chronological(fs) && fs != []
    requires AllTolerated(p, fs[..|fs| - 1]) && !ToleratedAt(p, fs, |fs| - 1)
    ensures var k := Opener(p, fs, |fs| - 1);
            && Overfull(p, fs, k)
            && After(p, fs).source == Some(fs[k].err) && After(p, fs).count == |fs| - 1 - k
  {
    BeforeRefusal(p, fs);
    RefusedBecauseFull(p, fs);
  }

  lemma {:induction false} BeforeRefusal<E>(p: Policy, fs: seq<Fail<E>>)
    requires CounterFits(p) && p.window > 0 && Chronological(fs) && fs != [] && AllTolerated(p, fs[..|fs| - 1])
    ensures var pre := fs[..|fs| - 1]; Tracks(p, pre, After(p, pre)) && After(p, pre).count <= Most(p)
  {
    var pre := fs[..|fs| - 1];
    assert Chronological(pre);
    ManagerTracksWindows(p, pre);
  }

  lemma RefusedBecauseFull<E>(p: Policy, fs: seq<Fail<E>>)
    requires CounterFits(p) && p.window > 0 && Chronological(fs) && fs != []
    requires var pre := fs[..|fs| - 1]; Tracks(p, pre, After(p, pre)) && After(p, pre).count <= Most(p)
    requires !ToleratedAt(p, fs, |fs| - 1)
    ensures var k := Opener(p, fs, |fs| - 1);
            && Overfull(p, fs, k)
            && After(p, fs).source == Some(fs[k].err) && After(p, fs).count == |fs| - 1 - k
  {
    var n := |fs| - 1;
    var m, f := After(p, fs[..n]), fs[n];
    assert Forward(f.at);
    if n > 0 {
      var k := Opener(p, fs, n - 1);
      HeldBefore(p, fs, m);
      LaterCall(p, m, n - k, Start(p, fs, k), fs[k].err, f);
    } else {
      FirstCall(p, m, f);
    }
  }
}
