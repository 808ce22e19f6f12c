/**
  Pull retry delays: the session loop of src/agent_run.rs, the reset rule of
  src/session_repair.rs and the stand-alone loop of src/pull.rs. Durations are in any unit.
*/
module Backoff {
  import opened Wrappers

  const MAX_PULL_FAILURES: nat := 5

  datatype PullConfig = PullConfig(interval: nat, backoffMax: nat)

  datatype Outcome = Succeeded | Revoked | Failed

  datatype Ending = StillRunning | Reset | CredentialRevoked

  function Pow2(n: nat): nat {
    if n == 0 then 1 else 2 * Pow2(n - 1)
  }

  /** Failures since the last success; a revocation neither counts nor resets. */
  function Streak(history: seq<Outcome>): (f: nat)
    ensures f <= SinceSuccess(history)
  {
    if history == [] || history[|history| - 1].Succeeded? then 0
    else Streak(history[..|history| - 1]) + if history[|history| - 1].Failed? then 1 else 0
  }

  /** How many pulls the streak spans. */
  function SinceSuccess(history: seq<Outcome>): (n: nat)
    ensures n <= |history|
  {
    if history == [] || history[|history| - 1].Succeeded? then 0
    else SinceSuccess(history[..|history| - 1]) + 1
  }

  /** The delay after `failures` consecutive failures, in closed form. */
  function Delay(cfg: PullConfig, failures: nat): nat {
    if failures == 0 then cfg.interval
    else Min(cfg.interval * Pow2(failures), cfg.backoffMax)
  }

  /** How long the loop sleeps after pull number `k`. */
  function SleepAfter(cfg: PullConfig, history: seq<Outcome>, k: nat): nat
    requires k < |history|
  {
    match history[k]
    case Succeeded => cfg.interval
    case Revoked => 0
    case Failed => Delay(cfg, Streak(history[..k]))
  }

  /** The first pulls of `history` were followed by these sleeps. */
  ghost predicate Slept(cfg: PullConfig, history: seq<Outcome>, sleeps: seq<nat>) {
    && |sleeps| <= |history|
    && forall k :: 0 <= k < |sleeps| ==> sleeps[k] == SleepAfter(cfg, history, k)
  }

  /** Doubling and capping once more is one more failure of the closed form. */
  lemma DoublingStep(cfg: PullConfig, failures: nat)
    ensures Min(Delay(cfg, failures) * 2, cfg.backoffMax) == Delay(cfg, failures + 1)
  {
    TimesTwo(cfg.interval, Pow2(failures));
  }

  /** Pull number `k` was made, with fewer than five failures before it, and the session went on. */
  ghost predicate Continued(history: seq<Outcome>, neverPulledTooLong: seq<bool>, k: nat)
    requires k < |history| == |neverPulledTooLong|
  {
    !history[k].Revoked? && Streak(history[..k]) < MAX_PULL_FAILURES && !neverPulledTooLong[k]
  }

  /** The last `n` pulls failed. */
  ghost predicate FailedInARow(history: seq<Outcome>, n: nat) {
    n <= |history| && forall k :: |history| - n <= k < |history| ==> history[k].Failed?
  }

  /** Without revocations the streak counts exactly those. */
  lemma {:induction false} StreakMeans(history: seq<Outcome>, n: nat)
    requires forall k :: 0 <= k < |history| ==> !history[k].Revoked?
    ensures FailedInARow(history, n) <==> n <= Streak(history)
  {
    if history != [] && history[|history| - 1].Failed? && n > 0 {
      var before := history[..|history| - 1];
      StreakMeans(before, n - 1);
      if FailedInARow(before, n - 1) {
        forall k | |history| - n <= k < |history| ensures history[k].Failed? {
          if k < |history| - 1 {
            assert before[k].Failed?;
          }
        }
      }
      if FailedInARow(history, n) {
        forall k | |before| - (n - 1) <= k < |before| ensures before[k].Failed? {
          assert history[k].Failed?;
        }
      }
    }
  }

  /**
    What the sleeps of a session are in terms of each other: the interval after a success and
    after the first failure, then twice the sleep before, but no more than the maximum. No
    pull follows five failures in a row, and a streak that resets the session is just that.
  */
  lemma SessionSleeps(cfg: PullConfig, history: seq<Outcome>, neverPulledTooLong: seq<bool>, sleeps: seq<nat>)
    requires |neverPulledTooLong| == |history| && Slept(cfg, history, sleeps)
    requires forall k :: 0 <= k < |sleeps| ==> Continued(history, neverPulledTooLong, k)
    ensures forall k :: 0 <= k < |sleeps| ==>
              sleeps[k] ==
              if history[k].Succeeded? || k == 0 || history[k - 1].Succeeded? then cfg.interval
              else Min(2 * sleeps[k - 1], cfg.backoffMax)
    ensures forall k :: 0 <= k < |sleeps| ==> !FailedInARow(history[..k], 5) && !neverPulledTooLong[k]
    ensures Streak(history[..|sleeps|]) == MAX_PULL_FAILURES ==> FailedInARow(history[..|sleeps|], 5)
  {
    forall k | 0 <= k < |sleeps| ensures !history[k].Revoked? && Streak(history[..k]) < MAX_PULL_FAILURES {
      assert Continued(history, neverPulledTooLong, k);
    }
    forall k | 0 <= k < |sleeps|
      ensures sleeps[k] ==
              if history[k].Succeeded? || k == 0 || history[k - 1].Succeeded? then cfg.interval
              else Min(2 * sleeps[k - 1], cfg.backoffMax)
      ensures !FailedInARow(history[..k], 5) && !neverPulledTooLong[k]
    {
      assert Continued(history, neverPulledTooLong, k);
      StreakMeans(history[..k], 5);
      OneSleep(cfg, history, k);
    }
    StreakMeans(history[..|sleeps|], 5);
  }

  lemma OneSleep(cfg: PullConfig, history: seq<Outcome>, k: nat)
    requires k < |history| && !history[k].Revoked? && (k > 0 ==> !history[k - 1].Revoked?)
    ensures SleepAfter(cfg, history, k) ==
            if history[k].Succeeded? || k == 0 || history[k - 1].Succeeded? then cfg.interval
            else Min(2 * SleepAfter(cfg, history, k - 1), cfg.backoffMax)
  {
    if k > 0 {
      assert history[..k][..k - 1] == history[..k - 1];
      DoublingStep(cfg, Streak(history[..k - 1]));
    }
  }

  lemma TimesTwo(factor: nat, x: nat)
    ensures factor * (2 * x) == factor * x * 2
  {
  }

  /** One session of the pull loop, from its first pull to its end. */
  method RunPullSession(cfg: PullConfig, history: seq<Outcome>, neverPulledTooLong: seq<bool>)
    returns (sleeps: seq<nat>, ending: Ending)
    requires |neverPulledTooLong| == |history|
    ensures Slept(cfg, history, sleeps)
    ensures forall k :: 0 <= k < |sleeps| ==> Continued(history, neverPulledTooLong, k)
    ensures match ending
            case StillRunning => |sleeps| == |history|
            case Reset =>
              |sleeps| < |history| &&
              (Streak(history[..|sleeps|]) == MAX_PULL_FAILURES || neverPulledTooLong[|sleeps|])
            case CredentialRevoked =>
              |sleeps| < |history| && history[|sleeps|].Revoked? && !neverPulledTooLong[|sleeps|] &&
              Streak(history[..|sleeps|]) < MAX_PULL_FAILURES
  {
    sleeps := [];
    var consecutivePullFailures := 0;
    var pullBackoff := cfg.interval;
    for i := 0 to |history|
      invariant |sleeps| == i
      invariant consecutivePullFailures == Streak(history[..i]) <= MAX_PULL_FAILURES
      invariant pullBackoff == Delay(cfg, consecutivePullFailures)
      invariant Slept(cfg, history, sleeps)
      invariant forall k :: 0 <= k < i ==> Continued(history, neverPulledTooLong, k)
    {
      if consecutivePullFailures >= MAX_PULL_FAILURES || neverPulledTooLong[i] {
        return sleeps, Reset;
      }
      assert history[..i + 1][..i] == history[..i];
      match history[i] {
        case Succeeded =>
          consecutivePullFailures := 0;
          pullBackoff := cfg.interval;
          sleeps := sleeps + [cfg.interval];
        case Revoked =>
          return sleeps, CredentialRevoked;
        case Failed =>
          consecutivePullFailures := consecutivePullFailures + 1;
          sleeps := sleeps + [pullBackoff];
          DoublingStep(cfg, consecutivePullFailures - 1);
          pullBackoff := Min(pullBackoff * 2, cfg.backoffMax);
      }
    }
    ending := StillRunning;
  }

  /** The stand-alone loop keeps its delay in a field. */
  class PullLoop {
    const cfg: PullConfig
    var backoff: nat

    constructor (cfg: PullConfig)
      ensures this.cfg == cfg && backoff == Delay(cfg, 0)
    {
      this.cfg := cfg;
      backoff := cfg.interval;
    }

    /** One iteration keeps the field equal to the closed form for the history so far. */
    method RunIteration(ghost history: seq<Outcome>, outcome: Outcome) returns (slept: nat)
      requires backoff == Delay(cfg, Streak(history))
      modifies this
      ensures slept == SleepAfter(cfg, history + [outcome], |history|)
      ensures backoff == Delay(cfg, Streak(history + [outcome]))
    {
      assert (history + [outcome])[..|history|] == history;
      match outcome {
        case Succeeded =>
          backoff := cfg.interval;
          slept := cfg.interval;
        case Revoked =>
          slept := 0;
        case Failed =>
          slept := backoff;
          DoublingStep(cfg, Streak(history));
          backoff := Min(backoff * 2, cfg.backoffMax);
      }
    }

    /** It sleeps exactly as RunPullSession does for the same history, and carries on after a revocation. */
    method Run(history: seq<Outcome>) returns (sleeps: seq<nat>)
      requires backoff == Delay(cfg, 0)
      modifies this
      ensures |sleeps| == |history| && Slept(cfg, history, sleeps)
      ensures backoff == Delay(cfg, Streak(history))
    {
      sleeps := [];
      for i := 0 to |history|
        invariant |sleeps| == i
        invariant backoff == Delay(cfg, Streak(history[..i]))
        invariant Slept(cfg, history, sleeps)
      {
        var slept := RunIteration(history[..i], history[i]);
        assert history[..i] + [history[i]] == history[..i + 1];
        assert history[..i + 1][..i] == history[..i];
        sleeps := sleeps + [slept];
      }
      assert history[..|history|] == history;
    }
  }

  function Sum(s: seq<nat>): nat {
    if s == [] then 0 else Sum(s[..|s| - 1]) + s[|s| - 1]
  }

  /** The sleeps of the first `n` failures of a streak, longest possible. */
  function StreakSleep(cfg: PullConfig, n: nat): nat {
    if n == 0 then 0 else StreakSleep(cfg, n - 1) + Delay(cfg, n - 1)
  }

  lemma {:induction false} StreakSleepBound(cfg: PullConfig, n: nat)
    ensures StreakSleep(cfg, n) <= cfg.interval * (Pow2(n) - 1)
  {
    if n > 0 {
      StreakSleepBound(cfg, n - 1);
      Distribute(cfg.interval, Pow2(n - 1));
    }
  }

  lemma Distribute(factor: nat, x: nat)
    ensures factor * (2 * x - 1) == factor * (x - 1) + factor * x
  {
  }

  /** The sleeps of a failing streak are the closed-form delays, added up. */
  lemma {:induction false} SleepsOfStreak(cfg: PullConfig, history: seq<Outcome>, sleeps: seq<nat>)
    requires |sleeps| == |history| && Slept(cfg, history, sleeps)
    ensures Sum(sleeps[|sleeps| - SinceSuccess(history)..]) == StreakSleep(cfg, Streak(history))
  {
    var f := SinceSuccess(history);
    if f > 0 {
      var n := |history| - 1;
      forall k | 0 <= k < n ensures sleeps[..n][k] == SleepAfter(cfg, history[..n], k) {
        assert history[..n][..k] == history[..k];
      }
      SleepsOfStreak(cfg, history[..n], sleeps[..n]);
      var tail := sleeps[|sleeps| - f..];
      assert SinceSuccess(history[..n]) == f - 1;
      assert tail[..|tail| - 1] == sleeps[..n][n - (f - 1)..];
      assert tail[|tail| - 1] == sleeps[n] == SleepAfter(cfg, history, n);
      assert Sum(tail) == Sum(tail[..|tail| - 1]) + sleeps[n];
    }
  }

  /** Before the reset a failing streak has slept at most 31 intervals. */
  lemma FailingStreakIsShort(cfg: PullConfig, history: seq<Outcome>, sleeps: seq<nat>)
    requires |sleeps| == |history| && Slept(cfg, history, sleeps)
    requires Streak(history) <= MAX_PULL_FAILURES
    ensures Sum(sleeps[|sleeps| - SinceSuccess(history)..]) <= 31 * cfg.interval
  {
    SleepsOfStreak(cfg, history, sleeps);
    var f := Streak(history);
    StreakSleepBound(cfg, f);
    Pow2Grows(f, MAX_PULL_FAILURES);
    Scale(cfg.interval, Pow2(f) - 1, 31) by {
      assert Pow2(2) == 4;
      assert Pow2(4) == 16;
    }
  }

  lemma Scale(factor: nat, a: nat, b: nat)
    requires a <= b
    ensures factor * a <= b * factor
  {
  }

  lemma {:induction false} Pow2Grows(a: nat, b: nat)
    requires a <= b
    ensures Pow2(a) <= Pow2(b)
  {
    if a < b {
      Pow2Grows(a, b - 1);
    }
  }
}
