/**
  What a session can always go on to do (src/pull.rs, src/agent_run.rs): begin, run the tasks
  of a successful pull, retry after a failed one, send heartbeats, and end.
*/
module Progress {
  import opened Wrappers
  import opened RecentIds
  import opened PullSession
  import opened SessionState

  lemma OneMore(startup: Option<Tags>, t: seq<Action>, a: Action) returns (u: seq<Action>)
    requires Possible(startup, t) && Enabled(At(startup, t), a)
    ensures u == t + [a] && t <= u && Possible(startup, u)
    ensures At(startup, u) == Step(At(startup, t), a)
    ensures !a.StoreId? ==> Executed(startup, u) == Executed(startup, t)
  {
    u := t + [a];
    Extend(startup, t, a);
  }

  /** A new session enters its loop, and its heartbeat thread starts unless its runtime cannot be built. */
  lemma SessionStarts(startup: Option<Tags>)
    ensures Possible(startup, [Enter, BeatStart(true)])
    ensures At(startup, [Enter, BeatStart(true)]) == State(Initial(startup).shared, AtHead, AtTop)
  {
    var t := OneMore(startup, [], Enter);
    t := OneMore(startup, t, BeatStart(true));
    assert t == [Enter, BeatStart(true)];
  }

  /**
    From the head of the loop, a successful pull runs its tasks: whatever they are, the
    session can execute exactly those that are not duplicates and come back to the head,
    with the failures forgotten.
  */
  lemma PulledTasksRun(startup: Option<Tags>, t: seq<Action>, tasks: seq<Task>) returns (u: seq<Action>)
    requires Possible(startup, t) && At(startup, t).pull.AtHead? && !At(startup, t).shared.stop
    ensures t <= u && Possible(startup, u)
    ensures var m := At(startup, t).shared;
            && Executed(startup, u) == Executed(startup, t) + RanBy(m.window, tasks)
            && At(startup, u) ==
               State(m.(window := WindowAfter(m.window, tasks), failures := 0), AtHead, At(startup, t).beat)
  {
    u := OneMore(startup, t, CheckStop);
    u := OneMore(startup, u, StartPull);
    u := OneMore(startup, u, PullSucceeds);
    u := RoundIsInterleaving(startup, u, tasks);
    u := OneMore(startup, u, FinishRound);
    u := OneMore(startup, u, WakeUp);
  }

  /** A new command in a reply is executed. */
  lemma NewCommandRuns(startup: Option<Tags>, t: seq<Action>, id: Uuid) returns (u: seq<Action>)
    requires Possible(startup, t) && At(startup, t).pull.AtHead? && !At(startup, t).shared.stop
    requires id !in At(startup, t).shared.window
    ensures t <= u && Possible(startup, u) && Executed(startup, u) == Executed(startup, t) + [id]
  {
    u := PulledTasksRun(startup, t, [ExecuteCommand(id)]);
    OneMoreTask(At(startup, t).shared.window, [ExecuteCommand(id)], 0);
    assert [ExecuteCommand(id)][..0] == [] && [ExecuteCommand(id)][..1] == [ExecuteCommand(id)];
  }

  /** A failed pull leaves everything as it was and is tried again. */
  lemma FailedPullIsRetried(startup: Option<Tags>, t: seq<Action>) returns (u: seq<Action>)
    requires Possible(startup, t) && At(startup, t).pull.AtHead? && !At(startup, t).shared.stop
    ensures u == t + [CheckStop, StartPull, PullFails, WakeUp]
    ensures Possible(startup, u) && At(startup, u) == At(startup, t)
    ensures Executed(startup, u) == Executed(startup, t)
  {
    u := OneMore(startup, t, CheckStop);
    u := OneMore(startup, u, StartPull);
    u := OneMore(startup, u, PullFails);
    u := OneMore(startup, u, WakeUp);
  }

  /** A loop that finds the flag set leaves without pulling again. */
  lemma StoppedLoopLeaves(startup: Option<Tags>, t: seq<Action>) returns (u: seq<Action>)
    requires Possible(startup, t) && At(startup, t).pull.AtHead? && At(startup, t).shared.stop
    ensures u == t + [CheckStop] && Possible(startup, u) && At(startup, u).pull.Leaving?
  {
    u := OneMore(startup, t, CheckStop);
  }

  // ---- heartbeats ---------------------------------------------------------------------------

  /** The tags are taken and the snapshot is read, with nothing of the loop in between. */
  lemma ReportIsComposed(startup: Option<Tags>, t: seq<Action>) returns (u: seq<Action>, report: Report)
    requires Possible(startup, t) && At(startup, t).beat.AtTop? && !At(startup, t).shared.stop
    ensures t <= u && Possible(startup, u) && Executed(startup, u) == Executed(startup, t)
    ensures var m := At(startup, t).shared;
            && report.tags == (if m.startupTags.Some? then m.startupTags.value
                               else if m.pendingTags.Some? then m.pendingTags.value else [])
            && report.busy == m.busy && report.commandId == (if m.busy then m.currentId else None)
            && At(startup, u) ==
               State(m.(startupTags := None,
                        pendingTags := if m.startupTags.Some? then m.pendingTags else None),
                     At(startup, t).pull, Sending(report))
  {
    u := OneMore(startup, t, BeatCheckStop);
    u := OneMore(startup, u, TakeStartup);
    if At(startup, t).shared.startupTags.None? {
      u := OneMore(startup, u, TakePending);
    }
    u := OneMore(startup, u, ReadBusy);
    if At(startup, t).shared.busy {
      u := OneMore(startup, u, ReadId);
    }
    report := At(startup, u).beat.report;
  }

  /** A thread at the top of its loop sends; an answer clears the counter, and it goes on. */
  lemma HeartbeatGoesOut(startup: Option<Tags>, t: seq<Action>) returns (u: seq<Action>, report: Report)
    requires Possible(startup, t) && At(startup, t).beat.AtTop? && !At(startup, t).shared.stop
    ensures t <= u && Possible(startup, u) && Submit(true) in u[|t|..]
    ensures var end := At(startup, u);
            && end.beat.AtTop? && end.pull == At(startup, t).pull
            && end.shared.failures == 0 && !end.shared.stop
  {
    u, report := ReportIsComposed(startup, t);
    u := OneMore(startup, u, Submit(true));
    u := OneMore(startup, u, RecordSuccess);
    u := OneMore(startup, u, BeatWake);
    assert u[|t|..][|u| - 3 - |t|] == Submit(true);
  }

  /** A lost heartbeat counts, and the sixth one makes the thread set the flag and stop. */
  lemma LostHeartbeatCounts(startup: Option<Tags>, t: seq<Action>) returns (u: seq<Action>)
    requires Possible(startup, t) && At(startup, t).beat.AtTop? && !At(startup, t).shared.stop
    ensures t <= u && Possible(startup, u) && At(startup, u).pull == At(startup, t).pull
    ensures var m, end := At(startup, t).shared, At(startup, u);
            && end.shared.failures == m.failures + 1
            && (m.failures + 1 < 6 ==> end.beat.AtTop? && !end.shared.stop)
            && (m.failures + 1 >= 6 ==> end.beat.Stopped? && end.shared.stop)
  {
    var report;
    u, report := ReportIsComposed(startup, t);
    u := OneMore(startup, u, Submit(false));
    u := OneMore(startup, u, RecordFailure);
    if At(startup, t).shared.failures + 1 < 6 {
      u := OneMore(startup, u, BeatWake);
    } else {
      u := OneMore(startup, u, SelfStop);
    }
  }

  /** So without an answer or a completed round the thread stops the session by itself. */
  lemma {:induction false} SilenceStopsSession(startup: Option<Tags>, t: seq<Action>) returns (u: seq<Action>)
    requires Possible(startup, t) && At(startup, t).beat.AtTop? && !At(startup, t).shared.stop
    ensures t <= u && Possible(startup, u) && At(startup, u).pull == At(startup, t).pull
    ensures At(startup, u).beat.Stopped? && At(startup, u).shared.stop
    decreases 6 - At(startup, t).shared.failures
  {
    u := LostHeartbeatCounts(startup, t);
    if !At(startup, u).shared.stop {
      u := SilenceStopsSession(startup, u);
    }
  }

  // ---- nothing gets stuck -------------------------------------------------------------------

  /** How far the loop is from its head, and what takes it there. */
  function StepsToHead(at: PullAt): nat {
    match at
    case AtHead => 0
    case Opening => 1
    case Sleeping => 1
    case Processing => 2
    case Pulling => 2
    case Preparing => 3
    case IdleSet(_) => 3
    case Executing(_) => 4
    case BusySet(_) => 5
    case Starting(_) => 6
    case _ => 0
  }

  function TowardsHead(at: PullAt): Action {
    match at
    case Opening => Enter
    case Sleeping => WakeUp
    case Processing => FinishRound
    case Pulling => PullFails
    case Preparing => StartPull
    case IdleSet(_) => ClearId
    case Executing(_) => StoreIdle
    case BusySet(_) => StoreId
    case Starting(_) => StoreBusy
    case _ => CheckStop
  }

  lemma StepTowardsHead(s: State)
    requires StepsToHead(s.pull) > 0
    ensures Enabled(s, TowardsHead(s.pull))
    ensures var end := Step(s, TowardsHead(s.pull));
            && StepsToHead(end.pull) < StepsToHead(s.pull) && !Over(end.pull)
            && end.shared.stop == s.shared.stop && end.beat == s.beat
  {
  }

  /** The loop has left. */
  predicate Over(at: PullAt) {
    at.Leaving? || at.Joining? || at.Ended?
  }

  /** Wherever the loop is, unless it has left, it can get back to its head, and so pull again. */
  lemma {:induction false} HeadIsReached(startup: Option<Tags>, t: seq<Action>) returns (u: seq<Action>)
    requires Possible(startup, t) && !Over(At(startup, t).pull)
    ensures t <= u && Possible(startup, u) && At(startup, u).pull.AtHead?
    ensures At(startup, u).shared.stop == At(startup, t).shared.stop && At(startup, u).beat == At(startup, t).beat
    decreases StepsToHead(At(startup, t).pull)
  {
    var s := At(startup, t);
    if s.pull.AtHead? {
      return t;
    }
    StepTowardsHead(s);
    u := OneMoreStep(startup, t, TowardsHead(s.pull));
    u := HeadIsReached(startup, u);
  }

  lemma OneMoreStep(startup: Option<Tags>, t: seq<Action>, a: Action) returns (u: seq<Action>)
    requires Possible(startup, t) && Enabled(At(startup, t), a)
    ensures t <= u && Possible(startup, u) && At(startup, u) == Step(At(startup, t), a)
  {
    u := OneMore(startup, t, a);
  }

  lemma {:induction false} JoiningIsStopped(startup: Option<Tags>, t: seq<Action>)
    requires Possible(startup, t)
    ensures At(startup, t).pull.Joining? || At(startup, t).pull.Ended? ==> At(startup, t).shared.stop
  {
    if t != [] {
      JoiningIsStopped(startup, Before(t));
      StopStays(At(startup, Before(t)), Last(t));
    }
  }

  lemma StopStays(s: State, a: Action)
    requires Enabled(s, a)
    ensures s.shared.stop ==> Step(s, a).shared.stop
    ensures Step(s, a).pull.Joining? ==> a.DropRequestStop? || s.pull.Joining?
    ensures Step(s, a).pull.Ended? ==> s.pull.Joining? || s.pull.Ended?
    ensures a.DropRequestStop? ==> Step(s, a).shared.stop
  {
  }

  /** Once the flag is set the heartbeat thread can run to its end. */
  lemma {:induction false} HeartbeatRunsOut(startup: Option<Tags>, t: seq<Action>) returns (u: seq<Action>)
    requires Possible(startup, t) && At(startup, t).shared.stop
    ensures t <= u && Possible(startup, u)
    ensures At(startup, u).beat.Stopped? && At(startup, u).pull == At(startup, t).pull
    decreases StepsToStop(At(startup, t).beat)
  {
    var s := At(startup, t);
    if s.beat.Stopped? {
      return t;
    }
    CanMoveOn(s);
    StepTowardsStop(s, NextBeat(s.beat));
    BeatKeepsLoop(s);
    u := OneMoreStep(startup, t, NextBeat(s.beat));
    u := HeartbeatRunsOut(startup, u);
  }

  lemma BeatKeepsLoop(s: State)
    requires !s.beat.Stopped? && Enabled(s, NextBeat(s.beat))
    ensures ByHeartbeat(NextBeat(s.beat))
    ensures Step(s, NextBeat(s.beat)).pull == s.pull
    ensures s.shared.stop ==> Step(s, NextBeat(s.beat)).shared.stop
  {
  }

  /**
    No deadlock: from every reachable state, in the middle of a command, a pull or a
    heartbeat, the session can still come to its end, where a new one is opened.
  */
  lemma EverySessionCanEnd(startup: Option<Tags>, t: seq<Action>) returns (u: seq<Action>)
    requires Possible(startup, t)
    ensures t <= u && Possible(startup, u) && At(startup, u).pull.Ended? && At(startup, u).beat.Stopped?
  {
    u := t;
    if !Over(At(startup, u).pull) {
      u := HeadIsReached(startup, u);
      u := OneMoreStep(startup, u, CheckStop);
      if At(startup, u).pull.Preparing? {
        u := OneMoreStep(startup, u, Leave);
      }
    }
    if At(startup, u).pull.Leaving? {
      u := OneMoreStep(startup, u, DropRequestStop);
    }
    JoiningIsStopped(startup, u);
    u := HeartbeatRunsOut(startup, u);
    if At(startup, u).pull.Joining? {
      u := OneMoreStep(startup, u, Join);
    }
  }

  /** Revocation, a changed identity or too many failures end a session before or during a pull. */
  lemma SessionCanBeLeft(startup: Option<Tags>, t: seq<Action>) returns (u: seq<Action>)
    requires Possible(startup, t)
    requires var at := At(startup, t).pull; at.Opening? || at.Preparing? || at.Pulling?
    ensures u == t + [Leave] && Possible(startup, u) && At(startup, u).pull.Leaving?
  {
    u := OneMore(startup, t, Leave);
  }

  /** The service opens the next session once the last one has ended, and only then. */
  lemma NextSessionOpens(t: seq<ServiceAction>, startup: Option<Tags>)
    requires ServiceAfter(t).Some? && ServiceAfter(t).value != []
    ensures ServiceAfter(t + [Open(startup)]).Some? <==> Last(ServiceAfter(t).value).pull.Ended?
    ensures Last(ServiceAfter(t).value).pull.Ended? ==>
              ServiceAfter(t + [Open(startup)]).value == ServiceAfter(t).value + [Initial(startup)]
  {
    assert Before(t + [Open(startup)]) == t;
  }

  /** The first one is opened at once. */
  lemma FirstSessionOpens(startup: Option<Tags>)
    ensures ServiceAfter([Open(startup)]) == Some([Initial(startup)])
  {
    assert Before([Open(startup)]) == [] && Last([Open(startup)]) == Open(startup);
    assert ServiceAfter([]) == Some([]);
    assert [] + [Initial(startup)] == [Initial(startup)];
  }
}
