/**
  One pull session as two interleaved threads (src/pull.rs, src/agent_run.rs).

  The pull loop and the heartbeat thread share the fields of AgentSessionState, each of
  which is a separate atomic or mutex. A step of the model is one load, store or critical
  section of one thread, so every interleaving of the source is a trace of actions.
*/
module PullSession {
  import opened Wrappers
  import opened RecentIds

  const MAX_HEARTBEAT_FAILURES: nat := 6

  type Tags = seq<string>

  /** The fields both threads touch. */
  datatype Shared = Shared(
    busy: bool,
    currentId: Option<Uuid>,
    startupTags: Option<Tags>,
    pendingTags: Option<Tags>,
    stop: bool,
    failures: nat,
    window: seq<Uuid>)

  /** Where the pull loop is; the command of a self-update is None. */
  datatype PullAt =
    | Opening
    | AtHead
    | Preparing
    | Pulling
    | Processing
    | Starting(command: Option<Uuid>)
    | BusySet(command: Option<Uuid>)
    | Executing(command: Option<Uuid>)
    | IdleSet(command: Option<Uuid>)
    | Sleeping
    | Leaving
    | Joining
    | Ended

  /** What a heartbeat tells the server about the loop. */
  datatype Report = Report(tags: Tags, busy: bool, commandId: Option<Uuid>)

  datatype HeartbeatAt =
    | Spawned
    | AtTop
    | TakingStartup
    | TakingPending
    | ReadingBusy(tags: Tags)
    | ReadingId(tags: Tags)
    | Sending(report: Report)
    | Sent
    | Lost
    | Stopping
    | Resting
    | Stopped

  datatype State = State(shared: Shared, pull: PullAt, beat: HeartbeatAt)

  datatype Action =
    // the pull loop
    | Enter
    | CheckStop
    | QueueTags(tags: Tags)
    | StartPull
    | PullSucceeds
    | PullFails
    | Deliver(id: Uuid)
    | DeliverUpdate
    | StoreBusy
    | StoreId
    | StoreIdle
    | ClearId
    | FinishRound
    | WakeUp
    | Leave
    | DropRequestStop
    | Join
    // the heartbeat thread
    | BeatStart(runtimeOk: bool)
    | BeatCheckStop
    | TakeStartup
    | TakePending
    | ReadBusy
    | ReadId
    | Submit(ok: bool)
    | RecordSuccess
    | RecordFailure
    | SelfStop
    | BeatWake

  predicate ByHeartbeat(a: Action) {
    || a.BeatStart? || a.BeatCheckStop? || a.TakeStartup? || a.TakePending? || a.ReadBusy? || a.ReadId?
    || a.Submit? || a.RecordSuccess? || a.RecordFailure? || a.SelfStop? || a.BeatWake?
  }

  /** Which thread may perform `a` next. */
  predicate Enabled(s: State, a: Action) {
    match a
    case Enter => s.pull.Opening?
    case CheckStop => s.pull.AtHead?
    case QueueTags(_) => s.pull.Preparing?
    case StartPull => s.pull.Preparing?
    case PullSucceeds => s.pull.Pulling?
    case PullFails => s.pull.Pulling?
    case Deliver(_) => s.pull.Processing?
    case DeliverUpdate => s.pull.Processing?
    case StoreBusy => s.pull.Starting?
    case StoreId => s.pull.BusySet?
    case StoreIdle => s.pull.Executing?
    case ClearId => s.pull.IdleSet?
    case FinishRound => s.pull.Processing?
    case WakeUp => s.pull.Sleeping?
    case Leave => s.pull.Opening? || s.pull.Preparing? || s.pull.Pulling?
    case DropRequestStop => s.pull.Leaving?
    case Join => s.pull.Joining? && s.beat.Stopped?
    case BeatStart(_) => s.beat.Spawned?
    case BeatCheckStop => s.beat.AtTop?
    case TakeStartup => s.beat.TakingStartup?
    case TakePending => s.beat.TakingPending?
    case ReadBusy => s.beat.ReadingBusy?
    case ReadId => s.beat.ReadingId?
    case Submit(_) => s.beat.Sending?
    case RecordSuccess => s.beat.Sent?
    case RecordFailure => s.beat.Lost?
    case SelfStop => s.beat.Stopping?
    case BeatWake => s.beat.Resting?
  }

  function Step(s: State, a: Action): State
    requires Enabled(s, a)
  {
    var m := s.shared;
    match a
    case Enter => s.(pull := AtHead)
    case CheckStop => s.(pull := if m.stop then Leaving else Preparing)
    case QueueTags(tags) => s.(shared := m.(pendingTags := Some(tags)))
    case StartPull => s.(pull := Pulling)
    case PullSucceeds => s.(pull := Processing)
    case PullFails => s.(pull := Sleeping)
    case Deliver(id) =>
      s.(shared := m.(window := Remember(m.window, id)),
         pull := if id in m.window then Processing else Starting(Some(id)))
    case DeliverUpdate => s.(pull := Starting(None))
    case StoreBusy => s.(shared := m.(busy := true), pull := BusySet(s.pull.command))
    case StoreId => s.(shared := m.(currentId := s.pull.command), pull := Executing(s.pull.command))
    case StoreIdle => s.(shared := m.(busy := false), pull := IdleSet(s.pull.command))
    case ClearId => s.(shared := m.(currentId := None), pull := Processing)
    case FinishRound => s.(shared := m.(failures := 0), pull := Sleeping)
    case WakeUp => s.(pull := AtHead)
    case Leave => s.(pull := Leaving)
    case DropRequestStop => s.(shared := m.(stop := true), pull := Joining)
    case Join => s.(pull := Ended)
    case BeatStart(runtimeOk) => s.(beat := if runtimeOk then AtTop else Stopped)
    case BeatCheckStop => s.(beat := if m.stop then Stopped else TakingStartup)
    case TakeStartup =>
      s.(shared := m.(startupTags := None),
         beat := if m.startupTags.Some? then ReadingBusy(m.startupTags.value) else TakingPending)
    case TakePending =>
      s.(shared := m.(pendingTags := None), beat := ReadingBusy(m.pendingTags.GetOr([])))
    case ReadBusy =>
      s.(beat := if m.busy then ReadingId(s.beat.tags) else Sending(Report(s.beat.tags, false, None)))
    case ReadId => s.(beat := Sending(Report(s.beat.tags, true, m.currentId)))
    case Submit(ok) => s.(beat := if ok then Sent else Lost)
    case RecordSuccess => s.(shared := m.(failures := 0), beat := Resting)
    case RecordFailure =>
      s.(shared := m.(failures := m.failures + 1),
         beat := if m.failures + 1 >= MAX_HEARTBEAT_FAILURES then Stopping else Resting)
    case SelfStop => s.(shared := m.(stop := true), beat := Stopped)
    case BeatWake => s.(beat := AtTop)
  }

  /** A session just built: nothing executed, startup tags present if they could be collected. */
  function Initial(startup: Option<Tags>): State {
    State(Shared(false, None, startup, None, false, 0, []), Opening, Spawned)
  }

  function Before<T>(t: seq<T>): seq<T>
    requires t != []
  {
    t[..|t| - 1]
  }

  function Last<T>(t: seq<T>): T
    requires t != []
  {
    t[|t| - 1]
  }

  /** The state after `t`, or None when `t` is not a possible interleaving. */
  function After(startup: Option<Tags>, t: seq<Action>): Option<State> {
    if t == [] then Some(Initial(startup))
    else
      var s := After(startup, Before(t));
      if s.Some? && Enabled(s.value, Last(t)) then Some(Step(s.value, Last(t))) else None
  }

  ghost predicate Possible(startup: Option<Tags>, t: seq<Action>) {
    After(startup, t).Some?
  }

  function At(startup: Option<Tags>, t: seq<Action>): State
    requires After(startup, t).Some?
  {
    After(startup, t).value
  }

  /** Every prefix of a possible interleaving is possible. */
  lemma {:induction false} PrefixPossible(startup: Option<Tags>, t: seq<Action>, n: nat)
    requires Possible(startup, t) && n <= |t|
    ensures Possible(startup, t[..n])
  {
    if n < |t| {
      PrefixPossible(startup, Before(t), n);
      assert Before(t)[..n] == t[..n];
    } else {
      assert t[..n] == t;
    }
  }

  /** One step of a possible interleaving. */
  lemma StepAt(startup: Option<Tags>, t: seq<Action>, k: nat)
    requires Possible(startup, t) && k < |t|
    ensures Possible(startup, t[..k]) && Possible(startup, t[..k + 1])
    ensures Enabled(At(startup, t[..k]), t[k])
    ensures At(startup, t[..k + 1]) == Step(At(startup, t[..k]), t[k])
  {
    PrefixPossible(startup, t, k + 1);
    assert Before(t[..k + 1]) == t[..k];
  }

  // ---- what the command marker means -------------------------------------------------

  /** The ids handed to remember_command_id, in order. */
  function Delivered(t: seq<Action>): seq<Uuid> {
    if t == [] then []
    else
      Delivered(Before(t)) + if Last(t).Deliver? then [Last(t).id] else []
  }

  ghost predicate MarkerInvariant(s: State) {
    var m := s.shared;
    && (m.busy <==> s.pull.BusySet? || s.pull.Executing?)
    && m.currentId == (if s.pull.Executing? || s.pull.IdleSet? then s.pull.command else None)
    && (s.pull.Starting? || s.pull.BusySet? || s.pull.Executing? || s.pull.IdleSet? ==>
          s.pull.command.Some? ==> m.window != [] && Last(m.window) == s.pull.command.value)
    && (s.beat.Sending? && !s.beat.report.busy ==> s.beat.report.commandId == None)
  }

  /** Every step of either thread keeps the marker invariant. */
  lemma StepKeepsMarker(s: State, a: Action)
    requires Enabled(s, a) && MarkerInvariant(s)
    ensures MarkerInvariant(Step(s, a))
  {
    if a.Deliver? && a.id !in s.shared.window {
      var pushed := s.shared.window + [a.id];
      assert Last(Suffix(pushed, CAPACITY)) == Last(pushed);
    }
  }

  lemma {:induction false} MarkerHolds(startup: Option<Tags>, t: seq<Action>)
    requires Possible(startup, t)
    ensures MarkerInvariant(At(startup, t))
  {
    if t != [] {
      MarkerHolds(startup, Before(t));
      StepKeepsMarker(At(startup, Before(t)), Last(t));
    }
  }

  lemma StepOnWindow(s: State, a: Action)
    requires Enabled(s, a)
    ensures Step(s, a).shared.window ==
            if a.Deliver? then Remember(s.shared.window, a.id) else s.shared.window
  {
  }

  /** The shared window is the window of the ids delivered so far. */
  lemma {:induction false} WindowOfDeliveries(startup: Option<Tags>, t: seq<Action>)
    requires Possible(startup, t)
    ensures At(startup, t).shared.window == Window(Delivered(t))
  {
    if t != [] {
      WindowOfDeliveries(startup, Before(t));
      StepOnWindow(At(startup, Before(t)), Last(t));
      var earlier := Delivered(Before(t));
      if Last(t).Deliver? {
        assert Delivered(t)[..|earlier|] == earlier;
      } else {
        assert Delivered(t) == earlier;
      }
    }
  }

  /** `begin_busy` has stored its id at some point of `t` and `end_command` has not cleared it since. */
  ghost predicate BegunNotEnded(t: seq<Action>) {
    exists k ::
      && 0 <= k < |t| && t[k].StoreId?
      && forall j :: k < j < |t| ==> !t[j].ClearId? && !t[j].Deliver? && !t[j].StoreId?
  }

  lemma {:induction false} ExecutingIsBegun(startup: Option<Tags>, t: seq<Action>)
    requires Possible(startup, t)
    requires At(startup, t).pull.Executing? || At(startup, t).pull.IdleSet?
    ensures BegunNotEnded(t)
  {
    if Last(t).StoreId? {
      assert t[|t| - 1].StoreId?;
    } else {
      ExecutingIsBegun(startup, Before(t));
      var k :| 0 <= k < |Before(t)| && Before(t)[k].StoreId?
        && forall j :: k < j < |Before(t)| ==>
             !Before(t)[j].ClearId? && !Before(t)[j].Deliver? && !Before(t)[j].StoreId?;
      assert t[k].StoreId?;
      forall j | k < j < |t| ensures !t[j].ClearId? && !t[j].Deliver? && !t[j].StoreId? {
        if j < |t| - 1 {
          assert Before(t)[j] == t[j];
        }
      }
    }
  }

  /**
    Whatever the interleaving of the two stores of begin/end with the two reads of the
    snapshot, an id read by the heartbeat is the newest accepted command and the newest
    entry of the dedup window, its begin is complete and its end is not.
  */
  lemma ReportedCommandIsRunning(startup: Option<Tags>, t: seq<Action>, k: nat)
    requires Possible(startup, t) && k < |t| && t[k].ReadId?
    ensures var before := t[..k];
            && Possible(startup, before) && Possible(startup, t[..k + 1])
            && At(startup, t[..k + 1]).beat.Sending?
            && var id := At(startup, t[..k + 1]).beat.report.commandId;
            id.Some? ==>
              && BegunNotEnded(before)
              && At(startup, before).shared.window != []
              && Last(At(startup, before).shared.window) == id.value
              && Accepted(Delivered(before)) != []
              && Last(Accepted(Delivered(before))) == id.value
  {
    StepAt(startup, t, k);
    var s := At(startup, t[..k]);
    MarkerHolds(startup, t[..k]);
    WindowOfDeliveries(startup, t[..k]);
    if s.shared.currentId.Some? {
      ExecutingIsBegun(startup, t[..k]);
      WindowIsLastAccepted(Delivered(t[..k]));
    }
  }

  /** The commands whose begin completed, in order. */
  function Executed(startup: Option<Tags>, t: seq<Action>): seq<Uuid>
    requires After(startup, t).Some?
  {
    if t == [] then []
    else Executed(startup, Before(t)) + BegunBy(At(startup, Before(t)), Last(t))
  }

  /** The command whose begin `a` completes. */
  function BegunBy(s: State, a: Action): seq<Uuid>
    requires Enabled(s, a)
  {
    if a.StoreId? && s.pull.command.Some? then [s.pull.command.value] else []
  }

  /** The command `a` accepts for execution. */
  function AcceptedBy(s: State, a: Action): seq<Uuid> {
    if a.Deliver? && a.id !in s.shared.window then [a.id] else []
  }

  /** The accepted command whose begin is not complete yet. */
  function Beginning(pull: PullAt): seq<Uuid> {
    if (pull.Starting? || pull.BusySet?) && pull.command.Some? then [pull.command.value] else []
  }

  /** What the last action of `t` adds to the accepted deliveries. */
  lemma AcceptedByLast(startup: Option<Tags>, t: seq<Action>)
    requires t != [] && Possible(startup, t)
    ensures Accepted(Delivered(t)) ==
            Accepted(Delivered(Before(t))) + AcceptedBy(At(startup, Before(t)), Last(t))
  {
    WindowOfDeliveries(startup, Before(t));
    var earlier := Delivered(Before(t));
    if Last(t).Deliver? {
      assert Delivered(t)[..|earlier|] == earlier;
    } else {
      assert Delivered(t) == earlier;
    }
  }

  lemma Regroup<T>(x: seq<T>, a: seq<T>, b: seq<T>, c: seq<T>, d: seq<T>)
    requires a + b == c + d
    ensures x + a + b == x + c + d
  {
    assert x + a + b == x + (a + b);
    assert x + c + d == x + (c + d);
  }

  lemma AcceptedBecomesBegun(s: State, a: Action)
    requires Enabled(s, a)
    ensures Beginning(s.pull) + AcceptedBy(s, a) == BegunBy(s, a) + Beginning(Step(s, a).pull)
  {
    match a {
      case Deliver(_) =>
      case DeliverUpdate =>
      case StoreBusy =>
      case StoreId =>
      case _ =>
    }
  }

  /** Exactly the accepted deliveries are executed, each once and in order. */
  lemma {:induction false} ExecutedAreAccepted(startup: Option<Tags>, t: seq<Action>)
    requires Possible(startup, t)
    ensures Accepted(Delivered(t)) == Executed(startup, t) + Beginning(At(startup, t).pull)
  {
    if t != [] {
      var s := At(startup, Before(t));
      ExecutedAreAccepted(startup, Before(t));
      AcceptedByLast(startup, t);
      AcceptedBecomesBegun(s, Last(t));
      Regroup(Executed(startup, Before(t)), Beginning(s.pull), AcceptedBy(s, Last(t)),
              BegunBy(s, Last(t)), Beginning(At(startup, t).pull));
    }
  }

  /** Within a session, any 513 consecutive executed commands are pairwise distinct. */
  lemma ExecutedAtMostOnce(startup: Option<Tags>, t: seq<Action>, i: nat, j: nat)
    requires Possible(startup, t)
    requires i < j < |Executed(startup, t)| && j - i <= 512
    ensures Executed(startup, t)[i] != Executed(startup, t)[j]
  {
    ExecutedAreAccepted(startup, t);
    AtMostOnceWindow(Delivered(t), i, j);
  }

  /** A heartbeat that says the agent is idle names no command. */
  lemma IdleReportNamesNothing(startup: Option<Tags>, t: seq<Action>)
    requires Possible(startup, t) && At(startup, t).beat.Sending?
    ensures At(startup, t).beat.report.commandId.Some? ==> At(startup, t).beat.report.busy
  {
    MarkerHolds(startup, t);
  }

  // ---- failures and the stop flag ------------------------------------------------------

  predicate Resets(a: Action) {
    a.RecordSuccess? || a.FinishRound?
  }

  /** Heartbeat failures recorded since the last success or completed pull round. */
  function FailuresSinceReset(t: seq<Action>): nat {
    if t == [] || Resets(Last(t)) then 0
    else FailuresSinceReset(Before(t)) + if Last(t).RecordFailure? then 1 else 0
  }

  ghost predicate FailureInvariant(s: State) {
    && s.shared.failures <= MAX_HEARTBEAT_FAILURES
    && (s.shared.failures == MAX_HEARTBEAT_FAILURES ==> s.beat.Stopping? || s.beat.Stopped?)
  }

  lemma StepKeepsFailures(s: State, a: Action)
    requires Enabled(s, a) && FailureInvariant(s)
    ensures FailureInvariant(Step(s, a))
    ensures Step(s, a).shared.failures ==
            if Resets(a) then 0 else s.shared.failures + if a.RecordFailure? then 1 else 0
  {
  }

  /** The counter is the number of failures since the last reset and never passes six. */
  lemma {:induction false} CounterCountsFailures(startup: Option<Tags>, t: seq<Action>)
    requires Possible(startup, t)
    ensures At(startup, t).shared.failures == FailuresSinceReset(t)
    ensures FailureInvariant(At(startup, t))
  {
    if t != [] {
      CounterCountsFailures(startup, Before(t));
      StepKeepsFailures(At(startup, Before(t)), Last(t));
    }
  }

  function Count(t: seq<Action>, p: Action -> bool): nat {
    if t == [] then 0 else Count(Before(t), p) + if p(Last(t)) then 1 else 0
  }

  /** The last `n` failures of a streak lie in one stretch of the trace without any reset. */
  lemma {:induction false} StreakHasNoReset(t: seq<Action>) returns (from: nat)
    ensures from <= |t|
    ensures forall j :: from <= j < |t| ==> !Resets(t[j])
    ensures Count(t[from..], (a: Action) => a.RecordFailure?) == FailuresSinceReset(t)
  {
    if t == [] || Resets(Last(t)) {
      return |t|;
    }
    from := StreakHasNoReset(Before(t));
    assert Before(t[from..]) == Before(t)[from..];
    forall j | from <= j < |t| ensures !Resets(t[j]) {
      if j < |t| - 1 {
        assert Before(t)[j] == t[j];
      }
    }
  }

  lemma {:induction false} StoppingFollowsSixthFailure(startup: Option<Tags>, t: seq<Action>) returns (n: nat)
    requires Possible(startup, t) && At(startup, t).beat.Stopping?
    ensures n <= |t| && FailuresSinceReset(t[..n]) == MAX_HEARTBEAT_FAILURES
  {
    if Last(t).RecordFailure? {
      CounterCountsFailures(startup, t);
      assert t[..|t|] == t;
      return |t|;
    }
    n := StoppingFollowsSixthFailure(startup, Before(t));
    assert Before(t)[..n] == t[..n];
  }

  /**
    The thread stops itself only after six heartbeat failures with neither a heartbeat
    success nor a completed pull round between them.
  */
  lemma SelfStopNeedsSixFailures(startup: Option<Tags>, t: seq<Action>, k: nat) returns (from: nat, to: nat)
    requires Possible(startup, t) && k < |t| && t[k].SelfStop?
    ensures from <= to <= k
    ensures forall j :: from <= j < to ==> !Resets(t[j])
    ensures Count(t[from..to], (a: Action) => a.RecordFailure?) == 6
  {
    StepAt(startup, t, k);
    to := StoppingFollowsSixthFailure(startup, t[..k]);
    assert t[..k][..to] == t[..to];
    from := StreakHasNoReset(t[..to]);
    assert t[..to][from..] == t[from..to];
    forall j | from <= j < to ensures !Resets(t[j]) {
      assert t[..to][j] == t[j];
    }
  }

  /** The stop flag is never cleared within a session. */
  lemma {:induction false} StopIsNeverCleared(startup: Option<Tags>, t: seq<Action>, n: nat)
    requires Possible(startup, t) && n <= |t| && Possible(startup, t[..n])
    requires At(startup, t[..n]).shared.stop
    ensures At(startup, t).shared.stop
  {
    if n == |t| {
      assert t[..n] == t;
    } else {
      assert Before(t)[..n] == t[..n];
      StopIsNeverCleared(startup, Before(t), n);
    }
  }

  /** Once the flag is set, at most one more pull is started: the one already past the check. */
  lemma {:induction false} AtMostOnePullAfterStop(startup: Option<Tags>, t: seq<Action>, n: nat)
    requires Possible(startup, t) && n <= |t| && Possible(startup, t[..n])
    requires At(startup, t[..n]).shared.stop
    ensures Count(t[n..], (a: Action) => a.StartPull?) <=
            if At(startup, t[..n]).pull.Preparing? then 1 else 0
    ensures Count(t[n..], (a: Action) => a.StartPull?) == 1 ==> !At(startup, t).pull.Preparing?
    ensures At(startup, t).pull.Preparing? ==> At(startup, t[..n]).pull.Preparing?
  {
    if n == |t| {
      assert t[..n] == t;
      assert t[n..] == [];
    } else {
      assert Before(t)[..n] == t[..n];
      assert Before(t[n..]) == Before(t)[n..];
      AtMostOnePullAfterStop(startup, Before(t), n);
      StopIsNeverCleared(startup, Before(t), n);
    }
  }

  /** An upper bound on the steps of the heartbeat thread until it stops, once the flag is set. */
  function StepsToStop(at: HeartbeatAt): (n: nat)
    ensures n <= 8 && (n == 0 <==> at.Stopped?)
  {
    match at
    case Stopped => 0
    case AtTop => 1
    case Stopping => 1
    case Spawned => 2
    case Resting => 2
    case Sent => 3
    case Lost => 3
    case Sending(_) => 4
    case ReadingId(_) => 5
    case ReadingBusy(_) => 6
    case TakingPending => 7
    case TakingStartup => 8
  }

  /** A step the thread can take from there. */
  function NextBeat(at: HeartbeatAt): Action
    requires !at.Stopped?
  {
    match at
    case AtTop => BeatCheckStop
    case Stopping => SelfStop
    case Spawned => BeatStart(true)
    case Resting => BeatWake
    case Sent => RecordSuccess
    case Lost => RecordFailure
    case Sending(_) => Submit(true)
    case ReadingId(_) => ReadId
    case ReadingBusy(_) => ReadBusy
    case TakingPending => TakePending
    case TakingStartup => TakeStartup
  }

  lemma StepTowardsStop(s: State, a: Action)
    requires Enabled(s, a)
    ensures !ByHeartbeat(a) ==> Step(s, a).beat == s.beat
    ensures ByHeartbeat(a) && s.shared.stop ==> StepsToStop(Step(s, a).beat) < StepsToStop(s.beat)
  {
  }

  lemma CanMoveOn(s: State)
    ensures s.beat.Stopped? || Enabled(s, NextBeat(s.beat))
    ensures s.pull.Joining? ==> (Enabled(s, Join) <==> StepsToStop(s.beat) == 0)
  {
  }

  /**
    Once the flag is set the heartbeat thread takes at most eight more steps, whatever the
    loop does, and can always take the next one. So a loop that waits to join gets to do so.
  */
  lemma StopsWithinEightSteps(startup: Option<Tags>, t: seq<Action>, n: nat)
    requires Possible(startup, t) && n <= |t| && Possible(startup, t[..n])
    requires At(startup, t[..n]).shared.stop
    ensures Count(t[n..], ByHeartbeat) + StepsToStop(At(startup, t).beat) <= 8
    ensures var end := At(startup, t);
            && (end.beat.Stopped? || Enabled(end, NextBeat(end.beat)))
            && (end.pull.Joining? ==> (Enabled(end, Join) <==> StepsToStop(end.beat) == 0))
  {
    StepsTakenSinceStop(startup, t, n);
    CanMoveOn(At(startup, t));
  }

  lemma {:induction false} StepsTakenSinceStop(startup: Option<Tags>, t: seq<Action>, n: nat)
    requires Possible(startup, t) && n <= |t| && Possible(startup, t[..n])
    requires At(startup, t[..n]).shared.stop
    ensures Count(t[n..], ByHeartbeat) + StepsToStop(At(startup, t).beat) <= StepsToStop(At(startup, t[..n]).beat)
  {
    if n == |t| {
      assert t[..n] == t;
      assert t[n..] == [];
    } else {
      assert Before(t)[..n] == t[..n];
      assert Before(t[n..]) == Before(t)[n..];
      StepsTakenSinceStop(startup, Before(t), n);
      StopIsNeverCleared(startup, Before(t), n);
      StepTowardsStop(At(startup, Before(t)), Last(t));
    }
  }

  // ---- tags ----------------------------------------------------------------------------

  predicate IsQueue(a: Action) { a.QueueTags? }

  predicate IsTake(a: Action) { a.TakePending? }

  /** Position of the newest queued set that no later take has consumed, or -1. */
  function NewestQueued(t: seq<Action>): (q: int)
    ensures -1 <= q < |t|
    ensures q >= 0 ==> t[q].QueueTags?
    ensures forall j :: q < j < |t| && IsQueue(t[j]) ==>
                          exists i :: j < i < |t| && IsTake(t[i])
    ensures q >= 0 ==> forall j :: q < j < |t| ==> !IsQueue(t[j]) && !IsTake(t[j])
  {
    if t == [] || IsTake(Last(t)) then
      -1
    else if IsQueue(Last(t)) then
      |t| - 1
    else
      NewestQueued(Before(t))
  }

  lemma StepOnPending(s: State, a: Action)
    requires Enabled(s, a)
    ensures Step(s, a).shared.pendingTags ==
            if a.QueueTags? then Some(a.tags) else if a.TakePending? then None else s.shared.pendingTags
  {
  }

  lemma {:induction false} PendingIsNewest(startup: Option<Tags>, t: seq<Action>)
    requires Possible(startup, t)
    ensures At(startup, t).shared.pendingTags ==
            if NewestQueued(t) < 0 then None else Some(t[NewestQueued(t)].tags)
  {
    if t != [] {
      PendingIsNewest(startup, Before(t));
      StepOnPending(At(startup, Before(t)), Last(t));
    }
  }

  /** A later take hands over the newest set queued since the take before it, or nothing. */
  lemma TakeHandsOverNewest(startup: Option<Tags>, t: seq<Action>, k: nat)
    requires Possible(startup, t) && k < |t| && t[k].TakePending?
    ensures Possible(startup, t[..k + 1])
    ensures var q := NewestQueued(t[..k]);
            At(startup, t[..k + 1]).beat == ReadingBusy(if q < 0 then [] else t[q].tags)
  {
    StepAt(startup, t, k);
    PendingIsNewest(startup, t[..k]);
  }

  /** No queued set is handed over twice, and sets are handed over in the order queued. */
  lemma NeverTakenTwice(t: seq<Action>, k1: nat, k2: nat)
    requires k1 < k2 < |t| && t[k1].TakePending? && t[k2].TakePending?
    requires NewestQueued(t[..k1]) >= 0 && NewestQueued(t[..k2]) >= 0
    ensures NewestQueued(t[..k1]) < k1 < NewestQueued(t[..k2])
  {
    var q := NewestQueued(t[..k2]);
    if q <= k1 {
      assert IsTake(t[..k2][k1]);
    }
  }

  /** Some heartbeat has already looked for the startup tags, or for pending ones. */
  predicate Looked(t: seq<Action>) {
    t != [] && (Last(t).TakeStartup? || Last(t).TakePending? || Looked(Before(t)))
  }

  lemma {:induction false} LookedMeans(t: seq<Action>)
    ensures Looked(t) <==> exists j :: 0 <= j < |t| && (t[j].TakeStartup? || t[j].TakePending?)
  {
    if t != [] {
      LookedMeans(Before(t));
      assert forall j :: 0 <= j < |t| - 1 ==> Before(t)[j] == t[j];
      assert Last(t) == t[|t| - 1];
    }
  }

  lemma StepOnStartup(s: State, a: Action)
    requires Enabled(s, a)
    ensures Step(s, a).shared.startupTags == if a.TakeStartup? then None else s.shared.startupTags
    ensures Step(s, a).beat.TakingPending? && !a.TakeStartup? ==> s.beat.TakingPending?
    ensures a.TakePending? ==> s.beat.TakingPending?
  {
  }

  lemma {:induction false} StartupHolds(startup: Option<Tags>, t: seq<Action>)
    requires Possible(startup, t)
    ensures At(startup, t).shared.startupTags == if Looked(t) then None else startup
    ensures At(startup, t).beat.TakingPending? ==> Looked(t)
  {
    if t != [] {
      StartupHolds(startup, Before(t));
      StepOnStartup(At(startup, Before(t)), Last(t));
    }
  }

  /**
    Startup tags go out with the first heartbeat that looks for tags, so before any queued
    set, and no later look finds them again.
  */
  lemma StartupTakenOnceAndFirst(startup: Option<Tags>, t: seq<Action>, k: nat)
    requires Possible(startup, t) && k < |t| && t[k].TakeStartup?
    ensures Possible(startup, t[..k + 1])
    ensures var first := forall j :: 0 <= j < k ==> !t[j].TakeStartup? && !t[j].TakePending?;
            At(startup, t[..k + 1]).beat ==
            if first && startup.Some? then ReadingBusy(startup.value) else TakingPending
  {
    StepAt(startup, t, k);
    StartupHolds(startup, t[..k]);
    LookedMeans(t[..k]);
    assert forall j :: 0 <= j < k ==> t[..k][j] == t[j];
  }

  // ---- sessions, one after the other -----------------------------------------------------

  /** The service loop opens a new session only after the previous one returned. */
  datatype ServiceAction =
    | Open(startup: Option<Tags>)
    | Act(session: nat, action: Action)

  predicate ServiceEnabled(sessions: seq<State>, a: ServiceAction) {
    match a
    case Open(_) => sessions == [] || Last(sessions).pull.Ended?
    case Act(i, action) => i < |sessions| && Enabled(sessions[i], action)
  }

  function ServiceStep(sessions: seq<State>, a: ServiceAction): seq<State>
    requires ServiceEnabled(sessions, a)
  {
    match a
    case Open(startup) => sessions + [Initial(startup)]
    case Act(i, action) => sessions[i := Step(sessions[i], action)]
  }

  function ServiceAfter(t: seq<ServiceAction>): Option<seq<State>> {
    if t == [] then Some([])
    else
      var s := ServiceAfter(Before(t));
      if s.Some? && ServiceEnabled(s.value, Last(t)) then Some(ServiceStep(s.value, Last(t))) else None
  }

  /** Over any number of session restarts, only the newest session can have a live heartbeat thread. */
  lemma {:induction false} AtMostOneHeartbeatThread(t: seq<ServiceAction>)
    requires ServiceAfter(t).Some?
    ensures var sessions := ServiceAfter(t).value;
            && (forall i :: 0 <= i < |sessions| ==> (sessions[i].pull.Ended? ==> sessions[i].beat.Stopped?))
            && (forall i :: 0 <= i < |sessions| - 1 ==> sessions[i].pull.Ended? && sessions[i].beat.Stopped?)
  {
    if t != [] {
      AtMostOneHeartbeatThread(Before(t));
    }
  }

  /** Each session the service ever opens follows some possible interleaving of its two threads. */
  lemma {:induction false} EverySessionIsAnInterleaving(t: seq<ServiceAction>, i: nat)
    returns (startup: Option<Tags>, u: seq<Action>)
    requires ServiceAfter(t).Some? && i < |ServiceAfter(t).value|
    ensures Possible(startup, u) && At(startup, u) == ServiceAfter(t).value[i]
  {
    var earlier := ServiceAfter(Before(t)).value;
    match Last(t)
    case Open(first) =>
      if i == |earlier| {
        return first, [];
      }
      startup, u := EverySessionIsAnInterleaving(Before(t), i);
    case Act(j, action) =>
      startup, u := EverySessionIsAnInterleaving(Before(t), i);
      if i == j {
        assert Before(u + [action]) == u;
        u := u + [action];
      }
  }
}
