/** The backoff waits of whole runs (internal/s/monitor.go, internal/s/restart_tolerance.go). */
module Waits {
  import opened Types
  import opened Engine
  import opened RestartLoop
  import Backoff
  import NilMap
  import Tolerance

  /** The wait of the iteration of the restart loop that starts in `s`, if its failure is tolerated. */
  function WaitOf(o: Oracle, cfg: Config, s: Sys): Option<int64>
    requires s.status.Restarting?
  {
    match NilMap.Admitted(o, s, s.status.prev)
    case None => None
    case Some(s1) => Some(Backoff.Duration(cfg.backoff, s1.mgr.count))
  }

  /** The configured wait after the failures `fs`: none before the first, then `base` doubled once for every failure
      since the window of the last one opened, and capped. */
  function Configured(p: Tolerance.Policy, rb: Backoff.Backoff, fs: seq<Tolerance.Fail<Error>>): int {
    if fs == [] then 0
    else Backoff.Min(rb.base * Backoff.Pow2(|fs| - 1 - Tolerance.Opener(p, fs, |fs| - 1)), rb.max)
  }

  lemma {:induction false} WaitOfManager(o: Oracle, cfg: Config, s: Sys, s': Sys)
    requires s.status.Restarting? && Feeds(o, s, s')
    ensures WaitOf(o, cfg, s).Some? ==> WaitOf(o, cfg, s).value == Backoff.Duration(cfg.backoff, s'.mgr.count)
    ensures s.status.prev.Some? ==> (WaitOf(o, cfg, s).Some? <==> !s'.status.Finished?)
    ensures s.status.prev.None? ==> WaitOf(o, cfg, s).Some?
  {}

  lemma ConfiguredWait(o: Oracle, cfg: Config, s: Sys, fs: seq<Tolerance.Fail<Error>>)
    requires ClockRuns(o) && Follows(o, cfg.policy, s, fs) && !s.status.Finished?
    requires Tolerance.CounterFits(cfg.policy) && cfg.policy.window >= 0 && cfg.policy.max >= 1
    requires cfg.backoff.base > 0 && cfg.backoff.max >= 0
    requires cfg.backoff.base * Backoff.Pow2(cfg.policy.max - 1) <= INT64_MAX
    ensures Backoff.Duration(cfg.backoff, s.mgr.count) == Configured(cfg.policy, cfg.backoff, fs)
  {
    if fs == [] {
      Backoff.NoWaitAtCountZero(cfg.backoff);
    } else {
      Backoff.WaitAfterFailure(cfg.backoff, cfg.policy, fs);
    }
  }

  /** In every run whose products fit, each iteration of the restart loop that gets to its wait waits as configured:
      after the failures that the whole run has reported so far, the one it entered with included. */
  lemma {:induction false} WaitsFollowWindows(o: Oracle, cfg: Config, specs: seq<ChildSpec>, n: nat)
    requires ClockRuns(o) && Run(o, cfg, specs, n).status.Restarting?
    requires Tolerance.CounterFits(cfg.policy) && cfg.policy.window >= 0 && cfg.policy.max >= 1
    requires cfg.backoff.base > 0 && cfg.backoff.max >= 0
    requires cfg.backoff.base * Backoff.Pow2(cfg.policy.max - 1) <= INT64_MAX
    ensures var wait := WaitOf(o, cfg, Run(o, cfg, specs, n));
            && (wait.None? <==> Run(o, cfg, specs, n + 1).status.Finished?)
            && (wait.Some? ==> wait.value == Configured(cfg.policy, cfg.backoff, Fed(o, cfg, specs, n + 1)))
  {
    var run, fed := States(o, cfg, specs), (k: nat) => Fed(o, cfg, specs, k);
    RunFeeds(o, cfg, specs, n);
    ManagerFollows(o, cfg, specs, n + 1);
    WaitOfManager(o, cfg, run(n), run(n + 1));
    if run(n).status.prev.None? { NoFailureNoEnd(o, cfg, run(n)); }
    if !run(n + 1).status.Finished? { ConfiguredWait(o, cfg, run(n + 1), fed(n + 1)); }
  }

  lemma NoFailureNoEnd(o: Oracle, cfg: Config, s: Sys)
    requires s.status.Restarting? && s.status.prev.None?
    ensures !Step(o, cfg, s).status.Finished?
  {
    ExecKeepsCount(o, cfg, s, s.status.source);
  }
}
