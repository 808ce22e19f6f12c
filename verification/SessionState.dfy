/**
  The state object shared by the pull loop and the heartbeat thread (src/pull.rs).

  Each method is written as its thread runs it: before every load and store the other thread
  may do anything it can do next (`OtherActs`), and the access is then entered in `history`.
  Valid() says that the fields are what PullSession gives for `history`, so what is proved
  there of every interleaving holds whenever one of these methods is called or returns.
*/
module SessionState {
  import opened Wrappers
  import opened RecentIds
  import opened PullSession

  /** The actions of one thread, in order. */
  function Of(t: seq<Action>, heartbeat: bool): seq<Action> {
    if t == [] then []
    else Of(Before(t), heartbeat) + if ByHeartbeat(Last(t)) == heartbeat then [Last(t)] else []
  }

  /** The accesses so far, all together and of each thread. */
  datatype History = History(all: seq<Action>, loop: seq<Action>, beat: seq<Action>) {
    function Push(a: Action): History {
      if ByHeartbeat(a) then History(all + [a], loop, beat + [a]) else History(all + [a], loop + [a], beat)
    }

    function By(heartbeat: bool): seq<Action> {
      if heartbeat then beat else loop
    }
  }

  /** The accesses `h` can happen in this order and lead to `s`. */
  ghost predicate Reached(startup: Option<Tags>, h: History, s: State)
    decreases |h.all|, 0
  {
    if h.all == [] then h == History([], [], []) && s == Initial(startup)
    else ReachedBy(startup, Before(h.all), Last(h.all), h, s)
  }

  ghost predicate ReachedBy(startup: Option<Tags>, earlier: seq<Action>, a: Action, h: History, s: State)
    decreases |earlier|, 1
  {
    exists loop, beat, before {:trigger Reached(startup, History(earlier, loop, beat), before)} ::
      && Reached(startup, History(earlier, loop, beat), before)
      && History(earlier, loop, beat).Push(a) == h
      && Enabled(before, a) && Step(before, a) == s
  }

  /** They are then a possible interleaving of PullSession, made of what each thread did. */
  lemma {:induction false} ReachedMeansPossible(startup: Option<Tags>, h: History, s: State)
    requires Reached(startup, h, s)
    ensures Possible(startup, h.all) && At(startup, h.all) == s
    ensures h.loop == Of(h.all, false) && h.beat == Of(h.all, true)
    decreases |h.all|
  {
    if h.all != [] {
      assert ReachedBy(startup, Before(h.all), Last(h.all), h, s);
      var loop, beat, before :|
        && Reached(startup, History(Before(h.all), loop, beat), before)
        && History(Before(h.all), loop, beat).Push(Last(h.all)) == h
        && Enabled(before, Last(h.all)) && Step(before, Last(h.all)) == s;
      ReachedMeansPossible(startup, History(Before(h.all), loop, beat), before);
    }
  }

  lemma NoMarkerBetweenTasks(startup: Option<Tags>, h: History, s: State)
    requires Reached(startup, h, s) && s.pull == Processing
    ensures !s.shared.busy && s.shared.currentId == None
  {
    ReachedMeansPossible(startup, h, s);
    MarkerHolds(startup, h.all);
  }

  lemma ReachedNext(startup: Option<Tags>, h: History, s: State, a: Action)
    requires Reached(startup, h, s) && Enabled(s, a)
    ensures Reached(startup, h.Push(a), Step(s, a))
  {
    var next := h.Push(a);
    assert Before(next.all) == h.all && Last(next.all) == a;
    assert History(h.all, h.loop, h.beat) == h;
    assert ReachedBy(startup, h.all, a, next, Step(s, a));
  }

  /** The heartbeat thread writes none of the loop's fields. */
  lemma HeartbeatWrites(s: State, a: Action)
    requires Enabled(s, a) && ByHeartbeat(a)
    ensures var end := Step(s, a);
            && end.pull == s.pull && end.shared.window == s.shared.window
            && end.shared.busy == s.shared.busy && end.shared.currentId == s.shared.currentId
  {
  }

  /** The loop sets no tags back and takes none. */
  lemma LoopWrites(s: State, a: Action)
    requires Enabled(s, a) && !ByHeartbeat(a)
    ensures var end := Step(s, a);
            && end.beat == s.beat && end.shared.startupTags == s.shared.startupTags
            && (s.shared.pendingTags.Some? ==> end.shared.pendingTags.Some?)
  {
  }

  /** Only joining waits for the other thread. */
  lemma EnabledByOwnThread(s: State, t: State, a: Action)
    requires Enabled(s, a) && !a.Join?
    requires if ByHeartbeat(a) then t.beat == s.beat else t.pull == s.pull
    ensures Enabled(t, a)
  {
  }

  lemma StartupSlotEmptied(s: State)
    requires s.beat.TakingStartup?
    ensures var tags := s.shared.startupTags;
            Step(s, TakeStartup) == State(s.shared.(startupTags := None), s.pull,
                                          if tags.Some? then ReadingBusy(tags.value) else TakingPending)
  {
  }

  class AgentSessionState {
    var busy: bool
    var currentId: Option<Uuid>
    var startupTags: Option<Tags>
    var pendingTags: Option<Tags>
    var stop: bool
    var failures: nat
    const recent: RecentCommandIds

    /** How the session began, and whether the caller's thread is the only one. */
    const startup: Option<Tags>
    const alone: bool

    /** How far each thread has come, and every access so far. */
    var loopAt: PullAt
    var beatAt: HeartbeatAt
    ghost var history: History

    function Now(): State
      reads this, recent
    {
      State(Shared(busy, currentId, startupTags, pendingTags, stop, failures, recent.order), loopAt, beatAt)
    }

    ghost predicate Valid()
      reads this, recent
    {
      recent.Valid() && Reached(startup, history, Now())
    }

    /** The actions of the thread that runs the heartbeats, or of the loop. */
    ghost function Did(heartbeat: bool): seq<Action>
      reads this
    {
      history.By(heartbeat)
    }

    constructor (startup: Option<Tags>, alone: bool)
      ensures Valid() && fresh(recent) && this.alone == alone && this.startup == startup
      ensures Now() == Initial(startup) && history == History([], [], [])
    {
      this.startup, this.alone := startup, alone;
      busy, currentId := false, None;
      startupTags, pendingTags := startup, None;
      stop, failures := false, 0;
      recent := new RecentCommandIds.WithCapacityHint();
      loopAt, beatAt, history := Opening, Spawned, History([], [], []);
    }

    // ---- what happens between the accesses ---------------------------------------------------

    /** Enters the access that comes next. */
    method Enter(a: Action)
      requires Reached(startup, history, Now()) && Enabled(Now(), a)
      modifies `loopAt, `beatAt, `history
      ensures old(history.all) <= history.all
      ensures Reached(startup, history, Step(old(Now()), a))
      ensures Did(true) == old(Did(true)) + if ByHeartbeat(a) then [a] else []
      ensures Did(false) == old(Did(false)) + if ByHeartbeat(a) then [] else [a]
      ensures loopAt == Step(old(Now()), a).pull && beatAt == Step(old(Now()), a).beat
    {
      var next := Step(Now(), a);
      ReachedNext(startup, history, Now(), a);
      assert Reached(startup, history.Push(a), next);
      history := history.Push(a);
      loopAt, beatAt := next.pull, next.beat;
    }

    /** One access of either thread. */
    method Perform(a: Action)
      requires Valid() && Enabled(Now(), a)
      modifies this, recent
      ensures old(history.all) <= history.all
      ensures Valid() && Now() == Step(old(Now()), a)
      ensures Did(true) == old(Did(true)) + if ByHeartbeat(a) then [a] else []
      ensures Did(false) == old(Did(false)) + if ByHeartbeat(a) then [] else [a]
    {
      StepOnWindow(Now(), a);
      var next := Step(Now(), a);
      Enter(a);
      SetFields(next.shared);
      if a.Deliver? {
        var _ := recent.InsertIfNew(a.id);
      }
      assert Now() == next;
    }

    method SetFields(m: Shared)
      modifies `busy, `currentId, `startupTags, `pendingTags, `stop, `failures
      ensures Now().shared == m.(window := recent.order)
    {
      busy, currentId, startupTags, pendingTags := m.busy, m.currentId, m.startupTags, m.pendingTags;
      stop, failures := m.stop, m.failures;
    }

    /** The heartbeat thread, or the loop, does any number of things it can do. */
    method OtherActs(heartbeat: bool)
      requires Valid()
      modifies this, recent
      ensures old(history.all) <= history.all
      ensures Valid()
      ensures Did(!heartbeat) == old(Did(!heartbeat))
      ensures heartbeat ==>
                && loopAt == old(loopAt) && recent.order == old(recent.order)
                && busy == old(busy) && currentId == old(currentId)
      ensures !heartbeat ==>
                && beatAt == old(beatAt) && startupTags == old(startupTags)
                && (old(pendingTags).Some? ==> pendingTags.Some?)
      ensures alone ==> Now() == old(Now()) && history == old(history)
    {
      var more: nat := *;
      while more > 0 && !alone
        invariant old(history.all) <= history.all
        invariant Valid()
        invariant Did(!heartbeat) == old(Did(!heartbeat))
        invariant heartbeat ==>
                    && loopAt == old(loopAt) && recent.order == old(recent.order)
                    && busy == old(busy) && currentId == old(currentId)
        invariant !heartbeat ==>
                    && beatAt == old(beatAt) && startupTags == old(startupTags)
                    && (old(pendingTags).Some? ==> pendingTags.Some?)
        invariant alone ==> Now() == old(Now()) && history == old(history)
      {
        var a: Action := *;
        if ByHeartbeat(a) == heartbeat && Enabled(Now(), a) {
          if heartbeat {
            HeartbeatWrites(Now(), a);
          } else {
            LoopWrites(Now(), a);
          }
          Perform(a);
        }
        more := more - 1;
      }
    }

    /** Whatever the heartbeat thread does first, the loop's next access is `a`. */
    method LoopTurn(a: Action)
      requires Valid() && !ByHeartbeat(a) && !a.Join? && Enabled(Now(), a)
      modifies this, recent
      ensures old(history.all) <= history.all
      ensures recent.Valid()
      ensures var before := Now().(pull := old(loopAt));
              Enabled(before, a) && Reached(startup, history, Step(before, a)) && loopAt == Step(before, a).pull
      ensures Did(false) == old(Did(false)) + [a]
      ensures recent.order == old(recent.order) && busy == old(busy) && currentId == old(currentId)
    {
      ghost var start := Now();
      OtherActs(true);
      EnabledByOwnThread(start, Now(), a);
      LoopWrites(Now(), a);
      Enter(a);
    }

    /** Whatever the loop does first, the heartbeat thread's next access is `a`. */
    method BeatTurn(a: Action)
      requires Valid() && ByHeartbeat(a) && Enabled(Now(), a)
      modifies this, recent
      ensures old(history.all) <= history.all
      ensures recent.Valid()
      ensures var before := Now().(beat := old(beatAt));
              Enabled(before, a) && Reached(startup, history, Step(before, a)) && beatAt == Step(before, a).beat
      ensures Did(true) == old(Did(true)) + [a]
      ensures startupTags == old(startupTags)
      ensures alone ==> Now().shared == old(Now()).shared
    {
      ghost var start := Now();
      OtherActs(false);
      EnabledByOwnThread(start, Now(), a);
      HeartbeatWrites(Now(), a);
      Enter(a);
    }

    // ---- the pull loop's side ----------------------------------------------------------------

    /** One store to the busy flag. */
    method StoreFlag(value: bool)
      requires Valid() && if value then loopAt.Starting? else loopAt.Executing?
      modifies this, recent
      ensures old(history.all) <= history.all
      ensures Valid() && busy == value
      ensures Did(false) == old(Did(false)) + [if value then StoreBusy else StoreIdle]
      ensures loopAt == if value then BusySet(old(loopAt).command) else IdleSet(old(loopAt).command)
      ensures currentId == old(currentId) && recent.order == old(recent.order)
    {
      LoopTurn(if value then StoreBusy else StoreIdle);
      assert Reached(startup, history, Now().(shared := Now().shared.(busy := value)));
      busy := value;
    }

    /** One store to the id, under its lock. */
    method StoreCurrent(command: Option<Uuid>)
      requires Valid() && (loopAt == BusySet(command) || (loopAt.IdleSet? && command == None))
      modifies this, recent
      ensures old(history.all) <= history.all
      ensures Valid() && currentId == command
      ensures Did(false) == old(Did(false)) + [if old(loopAt).BusySet? then StoreId else ClearId]
      ensures loopAt == if old(loopAt).BusySet? then Executing(command) else Processing
      ensures busy == old(busy) && recent.order == old(recent.order)
    {
      LoopTurn(if loopAt.BusySet? then StoreId else ClearId);
      currentId := command;
    }

    method BeginBusy(command: Option<Uuid>)
      requires Valid() && loopAt == Starting(command)
      modifies this, recent
      ensures old(history.all) <= history.all
      ensures Valid()
      ensures Did(false) == old(Did(false)) + [StoreBusy, StoreId] && loopAt == Executing(command)
      ensures busy && currentId == command && recent.order == old(recent.order)
    {
      StoreFlag(true);
      StoreCurrent(command);
    }

    method EndCommand(ghost command: Option<Uuid>)
      requires Valid() && loopAt == Executing(command)
      modifies this, recent
      ensures old(history.all) <= history.all
      ensures Valid()
      ensures Did(false) == old(Did(false)) + [StoreIdle, ClearId] && loopAt == Processing
      ensures !busy && currentId == None && recent.order == old(recent.order)
    {
      StoreFlag(false);
      StoreCurrent(None);
    }

    method RememberCommandId(id: Uuid) returns (isNew: bool)
      requires Valid() && loopAt == Processing
      modifies this, recent
      ensures old(history.all) <= history.all
      ensures Valid()
      ensures Did(false) == old(Did(false)) + [Deliver(id)]
      ensures isNew <==> id !in old(recent.order)
      ensures loopAt == if isNew then Starting(Some(id)) else Processing
      ensures recent.order == Remember(old(recent.order), id)
      ensures busy == old(busy) && currentId == old(currentId)
    {
      LoopTurn(Deliver(id));
      isNew := recent.InsertIfNew(id);
    }

    method QueueTagRefresh(tags: Tags)
      requires Valid() && loopAt == Preparing
      modifies this, recent
      ensures old(history.all) <= history.all
      ensures Valid()
      ensures Did(false) == old(Did(false)) + [QueueTags(tags)] && loopAt == Preparing
      ensures pendingTags == Some(tags)
    {
      LoopTurn(QueueTags(tags));
      pendingTags := Some(tags);
    }

    method ResetTransportFailures()
      requires Valid() && loopAt == Processing
      modifies this, recent
      ensures old(history.all) <= history.all
      ensures Valid()
      ensures Did(false) == old(Did(false)) + [FinishRound] && loopAt == Sleeping
      ensures failures == 0
    {
      LoopTurn(FinishRound);
      failures := 0;
    }

    /** Called by the thread itself, or when the loop drops its handle. */
    method RequestStop(byHeartbeat: bool)
      requires Valid() && if byHeartbeat then beatAt == Stopping else loopAt == Leaving
      modifies this, recent
      ensures old(history.all) <= history.all
      ensures Valid()
      ensures Did(byHeartbeat) == old(Did(byHeartbeat)) + [if byHeartbeat then SelfStop else DropRequestStop]
      ensures stop && if byHeartbeat then beatAt == Stopped && startupTags == old(startupTags) else loopAt == Joining
      ensures alone && byHeartbeat ==> Now().shared == old(Now()).shared.(stop := true)
    {
      if byHeartbeat {
        StopAsHeartbeat();
      } else {
        StopAsLoop();
      }
    }

    method StopAsHeartbeat()
      requires Valid() && beatAt == Stopping
      modifies this, recent
      ensures old(history.all) <= history.all
      ensures Valid() && stop && beatAt == Stopped && startupTags == old(startupTags)
      ensures Did(true) == old(Did(true)) + [SelfStop]
      ensures alone ==> Now().shared == old(Now()).shared.(stop := true)
    {
      BeatTurn(SelfStop);
      stop := true;
    }

    method StopAsLoop()
      requires Valid() && loopAt == Leaving
      modifies this, recent
      ensures old(history.all) <= history.all
      ensures Valid() && stop && loopAt == Joining
      ensures Did(false) == old(Did(false)) + [DropRequestStop]
    {
      LoopTurn(DropRequestStop);
      stop := true;
    }

    /** One delivered task: skipped as a duplicate, or marked, executed and unmarked. */
    method RunTask(task: Task) returns (ran: Option<Uuid>)
      requires Valid() && loopAt == Processing && !busy && currentId == None
      modifies this, recent
      ensures old(history.all) <= history.all
      ensures Valid() && loopAt == Processing && !busy && currentId == None
      ensures Did(false) == old(Did(false)) + Accesses(old(recent.order), task)
      ensures recent.order == AfterTask(old(recent.order), task)
      ensures Listed(ran) == RunBy(old(recent.order), task)
    {
      ran := None;
      match task {
        case NoOp =>
        case SelfUpdate =>
          RunUpdate();
        case ExecuteCommand(id) =>
          ran := RunCommand(id);
      }
    }

    method RunUpdate()
      requires Valid() && loopAt == Processing
      modifies this, recent
      ensures old(history.all) <= history.all
      ensures Valid() && loopAt == Processing && !busy && currentId == None
      ensures Did(false) == old(Did(false)) + Accesses(old(recent.order), SelfUpdate)
      ensures recent.order == old(recent.order)
    {
      DeliverSelfUpdate();
      BeginBusy(None);
      EndCommand(None);
    }

    method DeliverSelfUpdate()
      requires Valid() && loopAt == Processing
      modifies this, recent
      ensures old(history.all) <= history.all
      ensures Valid() && loopAt == Starting(None)
      ensures Did(false) == old(Did(false)) + [DeliverUpdate]
      ensures recent.order == old(recent.order)
    {
      LoopTurn(DeliverUpdate);
    }

    method RunCommand(id: Uuid) returns (ran: Option<Uuid>)
      requires Valid() && loopAt == Processing && !busy && currentId == None
      modifies this, recent
      ensures old(history.all) <= history.all
      ensures Valid() && loopAt == Processing && !busy && currentId == None
      ensures Did(false) == old(Did(false)) + Accesses(old(recent.order), ExecuteCommand(id))
      ensures recent.order == Remember(old(recent.order), id)
      ensures ran == if id in old(recent.order) then None else Some(id)
    {
      var isNew := RememberCommandId(id);
      if !isNew {
        return None;
      }
      BeginBusy(Some(id));
      EndCommand(Some(id));
      return Some(id);
    }

    /**
      The task loop of one pull round, whatever the heartbeat thread does meanwhile: it
      executes exactly the ids that are not in the window when they come up.
    */
    method RunTasks(tasks: seq<Task>) returns (executed: seq<Uuid>)
      requires Valid() && loopAt == Processing
      modifies this, recent
      ensures old(history.all) <= history.all
      ensures Valid() && loopAt == Processing
      ensures Did(false) == old(Did(false)) + RoundAccesses(old(recent.order), tasks)
      ensures recent.order == WindowAfter(old(recent.order), tasks)
      ensures executed == RanBy(old(recent.order), tasks)
      ensures !busy && currentId == None
    {
      executed := [];
      ghost var window := recent.order;
      NoMarkerBetweenTasks(startup, history, Now());
      for i := 0 to |tasks|
        invariant old(history.all) <= history.all
        invariant Valid() && loopAt == Processing && !busy && currentId == None
        invariant Did(false) == old(Did(false)) + RoundAccesses(window, tasks[..i])
        invariant recent.order == WindowAfter(window, tasks[..i])
        invariant executed == RanBy(window, tasks[..i])
      {
        OneMoreTask(window, tasks, i);
        Associate(old(Did(false)), RoundAccesses(window, tasks[..i]), Accesses(recent.order, tasks[i]));
        var ran := RunTask(tasks[i]);
        executed := executed + Listed(ran);
      }
      assert tasks[..|tasks|] == tasks;
    }

    // ---- the heartbeat thread's side ---------------------------------------------------------

    /** Empties the slot of the startup tags. */
    method TakeStartupTags() returns (tags: Option<Tags>)
      requires Valid() && beatAt == TakingStartup
      modifies this, recent
      ensures old(history.all) <= history.all
      ensures Valid() && Did(true) == old(Did(true)) + [TakeStartup]
      ensures tags == old(startupTags) && startupTags == None
      ensures beatAt == if tags.Some? then ReadingBusy(tags.value) else TakingPending
      ensures alone ==> Now().shared == old(Now()).shared.(startupTags := None)
    {
      BeatTurn(TakeStartup);
      StartupSlotEmptied(Now().(beat := TakingStartup));
      tags := startupTags;
      startupTags := None;
    }

    /** Empties the slot of the queued tags. */
    method TakePendingTags() returns (tags: Option<Tags>)
      requires Valid() && beatAt == TakingPending
      modifies this, recent
      ensures old(history.all) <= history.all
      ensures Valid() && Did(true) == old(Did(true)) + [TakePending]
      ensures pendingTags == None && startupTags == old(startupTags)
      ensures beatAt == ReadingBusy(tags.GetOr([]))
      ensures alone ==> tags == old(pendingTags) && Now().shared == old(Now()).shared.(pendingTags := None)
    {
      BeatTurn(TakePending);
      assert Reached(startup, history, Now().(shared := Now().shared.(pendingTags := None)));
      tags := pendingTags;
      pendingTags := None;
    }

    method TakeHeartbeatTags() returns (tags: Tags)
      requires Valid() && beatAt == TakingStartup
      modifies this, recent
      ensures old(history.all) <= history.all
      ensures Valid()
      ensures Did(true) == old(Did(true)) + [TakeStartup] + if old(startupTags).Some? then [] else [TakePending]
      ensures beatAt == ReadingBusy(tags) && startupTags == None
      ensures if old(startupTags).Some? then tags == old(startupTags).value else pendingTags == None
      ensures alone ==> Now().shared == Consumed(old(Now()).shared) && tags == ReportOf(old(Now()).shared).tags
    {
      var startup := TakeStartupTags();
      if startup.Some? {
        return startup.value;
      }
      var pending := TakePendingTags();
      return pending.GetOr([]);
    }

    method HealthSnapshot(ghost tags: Tags) returns (isBusy: bool, commandId: Option<Uuid>)
      requires Valid() && beatAt == ReadingBusy(tags)
      modifies this, recent
      ensures old(history.all) <= history.all
      ensures Valid()
      ensures Did(true) == old(Did(true)) + [ReadBusy] + if isBusy then [ReadId] else []
      ensures beatAt == Sending(Report(tags, isBusy, commandId))
      ensures startupTags == old(startupTags)
      ensures alone ==>
                && Now().shared == old(Now()).shared
                && isBusy == busy && commandId == if busy then currentId else None
    {
      BeatTurn(ReadBusy);
      isBusy, commandId := busy, None;
      if isBusy {
        BeatTurn(ReadId);
        commandId := currentId;
      }
    }

    method RecordHeartbeatFailure() returns (giveUp: bool)
      requires Valid() && beatAt == Lost
      modifies this, recent
      ensures old(history.all) <= history.all
      ensures Valid()
      ensures Did(true) == old(Did(true)) + [RecordFailure]
      ensures giveUp <==> failures >= MAX_HEARTBEAT_FAILURES
      ensures beatAt == if giveUp then Stopping else Resting
      ensures startupTags == old(startupTags)
      ensures alone ==> Now().shared == old(Now()).shared.(failures := old(failures) + 1)
    {
      BeatTurn(RecordFailure);
      failures := failures + 1;
      giveUp := failures >= MAX_HEARTBEAT_FAILURES;
    }

    method RecordHeartbeatSuccess()
      requires Valid() && beatAt == Sent
      modifies this, recent
      ensures old(history.all) <= history.all
      ensures Valid()
      ensures Did(true) == old(Did(true)) + [RecordSuccess] && beatAt == Resting
      ensures failures == 0 && startupTags == old(startupTags)
      ensures alone ==> Now().shared == old(Now()).shared.(failures := 0)
    {
      BeatTurn(RecordSuccess);
      failures := 0;
    }

    /** Takes the tags and the snapshot, sends them, and records how that went. */
    method SendHeartbeat(answered: bool) returns (sent: Report, giveUp: bool)
      requires Valid() && beatAt == TakingStartup
      modifies this, recent
      ensures old(history.all) <= history.all
      ensures Valid()
      ensures Did(true) == old(Did(true)) + Beat(old(startupTags).Some?, sent.busy, answered)
      ensures beatAt == if giveUp then Stopping else Resting
      ensures giveUp <==> !answered && failures >= MAX_HEARTBEAT_FAILURES
      ensures startupTags == None && (old(startupTags).Some? ==> sent.tags == old(startupTags).value)
      ensures alone ==>
                && sent == ReportOf(old(Now()).shared)
                && Now().shared == Consumed(old(Now()).shared).(failures := if answered then 0 else old(failures) + 1)
    {
      sent := ComposeReport();
      giveUp := SubmitReport(answered);
    }

    method ComposeReport() returns (report: Report)
      requires Valid() && beatAt == TakingStartup
      modifies this, recent
      ensures old(history.all) <= history.all
      ensures Valid() && beatAt == Sending(report)
      ensures Did(true) == old(Did(true)) + Composing(old(startupTags).Some?, report.busy)
      ensures startupTags == None && (old(startupTags).Some? ==> report.tags == old(startupTags).value)
      ensures alone ==> report == ReportOf(old(Now()).shared) && Now().shared == Consumed(old(Now()).shared)
    {
      var tags := TakeHeartbeatTags();
      var isBusy, commandId := HealthSnapshot(tags);
      report := Report(tags, isBusy, commandId);
    }

    method SubmitAnswered(answered: bool)
      requires Valid() && beatAt.Sending?
      modifies this, recent
      ensures old(history.all) <= history.all
      ensures Valid() && beatAt == if answered then Sent else Lost
      ensures Did(true) == old(Did(true)) + [Submit(answered)] && startupTags == old(startupTags)
      ensures alone ==> Now().shared == old(Now()).shared
    {
      BeatTurn(Submit(answered));
    }

    method SubmitReport(answered: bool) returns (giveUp: bool)
      requires Valid() && beatAt.Sending?
      modifies this, recent
      ensures old(history.all) <= history.all
      ensures Valid() && beatAt == if giveUp then Stopping else Resting
      ensures Did(true) == old(Did(true)) + [Submit(answered), if answered then RecordSuccess else RecordFailure]
      ensures giveUp <==> !answered && failures >= MAX_HEARTBEAT_FAILURES
      ensures startupTags == old(startupTags)
      ensures alone ==> Now().shared == old(Now()).shared.(failures := if answered then 0 else old(failures) + 1)
    {
      giveUp := false;
      SubmitAnswered(answered);
      if answered {
        RecordHeartbeatSuccess();
      } else {
        giveUp := RecordHeartbeatFailure();
      }
    }

    method ShouldStop() returns (r: bool)
      requires Valid() && beatAt == AtTop
      modifies this, recent
      ensures old(history.all) <= history.all
      ensures Valid() && r == stop && beatAt == (if r then Stopped else TakingStartup)
      ensures Did(true) == old(Did(true)) + [BeatCheckStop] && startupTags == old(startupTags)
      ensures alone ==> Now().shared == old(Now()).shared
    {
      BeatTurn(BeatCheckStop);
      r := stop;
    }

    method Rest()
      requires Valid() && beatAt == Resting
      modifies this, recent
      ensures old(history.all) <= history.all
      ensures Valid() && beatAt == AtTop
      ensures Did(true) == old(Did(true)) + [BeatWake] && startupTags == old(startupTags)
      ensures alone ==> Now().shared == old(Now()).shared
    {
      BeatTurn(BeatWake);
    }

    /** One turn of the thread's loop: nothing is sent once the flag is found set. */
    method HeartbeatRound(answered: bool) returns (sent: bool)
      requires Valid() && beatAt == AtTop
      modifies this, recent
      ensures old(history.all) <= history.all
      ensures Valid() && (beatAt == AtTop || beatAt == Stopped)
      ensures beatAt == AtTop ==> sent
      ensures beatAt == Stopped ==>
                stop && Did(true) != [] && Last(Did(true)) == if sent then SelfStop else BeatCheckStop
      ensures startupTags == if sent then None else old(startupTags)
      ensures sent && beatAt == Stopped ==> !answered
      ensures alone ==>
                && (sent <==> !old(stop))
                && (sent ==> (beatAt == Stopped <==> !answered && failures >= MAX_HEARTBEAT_FAILURES))
                && Now().shared ==
                   if !sent then old(Now()).shared
                   else Consumed(old(Now()).shared).(stop := beatAt == Stopped,
                                                     failures := if answered then 0 else old(failures) + 1)
    {
      var stopping := ShouldStop();
      if stopping {
        return false;
      }
      var _, giveUp := SendHeartbeat(answered);
      if giveUp {
        RequestStop(true);
      } else {
        Rest();
      }
      return true;
    }

    /**
      The heartbeat thread; `replies` says which heartbeats the server answers. It sends
      until it finds the stop flag set or gives up. With no pull loop beside it, it gives up
      exactly at the first sixth failure in a row.
    */
    method HeartbeatLoop(replies: seq<bool>) returns (sent: nat, gaveUp: bool)
      requires Valid() && beatAt == AtTop
      modifies this, recent
      ensures old(history.all) <= history.all
      ensures Valid()
      ensures sent <= |replies|
      ensures beatAt == Stopped || (beatAt == AtTop && sent == |replies| && !gaveUp)
      ensures beatAt == Stopped ==> stop && Did(true) != [] && (gaveUp <==> Last(Did(true)).SelfStop?)
      ensures gaveUp ==> sent > 0 && !replies[sent - 1]
      ensures sent > 0 ==> startupTags.None?
      ensures alone && old(failures) == 0 ==>
                && (forall k :: 0 <= k < sent ==> FailuresInARow(replies[..k]) < MAX_HEARTBEAT_FAILURES)
                && (gaveUp <==> FailuresInARow(replies[..sent]) == MAX_HEARTBEAT_FAILURES)
                && (!gaveUp ==> sent == if old(stop) then 0 else |replies|)
                && stop == (old(stop) || gaveUp)
                && failures == FailuresInARow(replies[..sent])
                && busy == old(busy) && currentId == old(currentId) && recent.order == old(recent.order)
    {
      sent, gaveUp := 0, false;
      while sent < |replies|
        invariant old(history.all) <= history.all
        invariant Valid() && sent <= |replies| && beatAt == AtTop
        invariant sent > 0 ==> startupTags.None?
        invariant alone && old(failures) == 0 ==>
                    && stop == old(stop) && (stop ==> sent == 0)
                    && failures == FailuresInARow(replies[..sent])
                    && busy == old(busy) && currentId == old(currentId) && recent.order == old(recent.order)
                    && forall k :: 0 <= k <= sent ==> FailuresInARow(replies[..k]) < MAX_HEARTBEAT_FAILURES
      {
        assert replies[..sent + 1][..sent] == replies[..sent];
        var sentOne := HeartbeatRound(replies[sent]);
        if !sentOne {
          return;
        }
        sent := sent + 1;
        if beatAt == Stopped {
          gaveUp := true;
          return;
        }
      }
    }
  }

  /** The report of a heartbeat that nothing interrupts, and what it leaves. */
  function ReportOf(m: Shared): Report {
    Report(if m.startupTags.Some? then m.startupTags.value else m.pendingTags.GetOr([]),
           m.busy, if m.busy then m.currentId else None)
  }

  function Consumed(m: Shared): Shared {
    m.(startupTags := None, pendingTags := if m.startupTags.Some? then m.pendingTags else None)
  }

  /** The accesses of one heartbeat. */
  function Composing(startup: bool, busy: bool): seq<Action> {
    [TakeStartup] + (if startup then [] else [TakePending]) + [ReadBusy] + (if busy then [ReadId] else [])
  }

  function Beat(startup: bool, busy: bool, answered: bool): seq<Action> {
    Composing(startup, busy) + [Submit(answered), if answered then RecordSuccess else RecordFailure]
  }

  /** The accesses of one task. */
  function Accesses(window: seq<Uuid>, task: Task): seq<Action> {
    match task
    case NoOp => []
    case SelfUpdate => [DeliverUpdate, StoreBusy, StoreId, StoreIdle, ClearId]
    case ExecuteCommand(id) =>
      if id in window then [Deliver(id)] else [Deliver(id), StoreBusy, StoreId, StoreIdle, ClearId]
  }

  /** How many heartbeats failed since the last answered one. */
  function FailuresInARow(replies: seq<bool>): nat {
    if replies == [] || replies[|replies| - 1] then 0
    else FailuresInARow(replies[..|replies| - 1]) + 1
  }

  datatype Task = NoOp | SelfUpdate | ExecuteCommand(id: Uuid)

  function Listed(id: Option<Uuid>): seq<Uuid> {
    if id.Some? then [id.value] else []
  }

  /** The dedup window after one task. */
  function AfterTask(window: seq<Uuid>, task: Task): seq<Uuid> {
    if task.ExecuteCommand? then Remember(window, task.id) else window
  }

  /** The command one task executes: the one that is not in the window. */
  function RunBy(window: seq<Uuid>, task: Task): seq<Uuid> {
    if task.ExecuteCommand? && task.id !in window then [task.id] else []
  }

  /** The dedup window after a round of tasks. */
  function WindowAfter(window: seq<Uuid>, tasks: seq<Task>): seq<Uuid> {
    if tasks == [] then window
    else AfterTask(WindowAfter(window, tasks[..|tasks| - 1]), tasks[|tasks| - 1])
  }

  /** The accesses of a round. */
  function RoundAccesses(window: seq<Uuid>, tasks: seq<Task>): seq<Action> {
    if tasks == [] then []
    else
      var earlier := tasks[..|tasks| - 1];
      RoundAccesses(window, earlier) + Accesses(WindowAfter(window, earlier), tasks[|tasks| - 1])
  }

  /** The commands a round executes: those not in the window when they come up. */
  function RanBy(window: seq<Uuid>, tasks: seq<Task>): seq<Uuid> {
    if tasks == [] then []
    else
      var earlier := tasks[..|tasks| - 1];
      RanBy(window, earlier) + RunBy(WindowAfter(window, earlier), tasks[|tasks| - 1])
  }

  lemma Associate<T>(a: seq<T>, b: seq<T>, c: seq<T>)
    ensures a + b + c == a + (b + c)
  {
  }

  lemma OneMoreTask(window: seq<Uuid>, tasks: seq<Task>, i: nat)
    requires i < |tasks|
    ensures var before := WindowAfter(window, tasks[..i]);
            && WindowAfter(window, tasks[..i + 1]) == AfterTask(before, tasks[i])
            && RanBy(window, tasks[..i + 1]) == RanBy(window, tasks[..i]) + RunBy(before, tasks[i])
            && RoundAccesses(window, tasks[..i + 1]) ==
               RoundAccesses(window, tasks[..i]) + Accesses(before, tasks[i])
  {
    assert tasks[..i + 1][..i] == tasks[..i];
  }

  /** Appending one enabled action to a possible interleaving. */
  lemma Extend(startup: Option<Tags>, t: seq<Action>, a: Action)
    requires Possible(startup, t) && Enabled(At(startup, t), a)
    ensures Possible(startup, t + [a])
    ensures At(startup, t + [a]) == Step(At(startup, t), a)
    ensures Executed(startup, t + [a]) == Executed(startup, t) + BegunBy(At(startup, t), a)
  {
    assert Before(t + [a]) == t;
  }

  /** The four stores around the execution of one task. */
  lemma Marked(startup: Option<Tags>, t: seq<Action>, command: Option<Uuid>) returns (after: seq<Action>)
    requires Possible(startup, t) && At(startup, t).pull == Starting(command)
    ensures Possible(startup, after) && t <= after
    ensures At(startup, after) ==
            State(At(startup, t).shared.(busy := false, currentId := None), Processing, At(startup, t).beat)
    ensures Executed(startup, after) == Executed(startup, t) + Listed(command)
  {
    Extend(startup, t, StoreBusy);
    Extend(startup, t + [StoreBusy], StoreId);
    var u := t + [StoreBusy] + [StoreId];
    Extend(startup, u, StoreIdle);
    Extend(startup, u + [StoreIdle], ClearId);
    after := u + [StoreIdle] + [ClearId];
  }

  /** What RunTasks does to the object is one of the interleavings of PullSession. */
  lemma {:induction false} RoundIsInterleaving(startup: Option<Tags>, t: seq<Action>, tasks: seq<Task>)
    returns (after: seq<Action>)
    requires Possible(startup, t) && At(startup, t).pull.Processing?
    ensures Possible(startup, after) && t <= after
    ensures var s := At(startup, t);
            At(startup, after) == s.(shared := s.shared.(window := WindowAfter(s.shared.window, tasks)))
    ensures Executed(startup, after) ==
            Executed(startup, t) + RanBy(At(startup, t).shared.window, tasks)
  {
    if tasks == [] {
      return t;
    }
    var u := RoundIsInterleaving(startup, t, tasks[..|tasks| - 1]);
    after := TaskIsInterleaving(startup, u, tasks[|tasks| - 1]);
  }

  lemma TaskIsInterleaving(startup: Option<Tags>, t: seq<Action>, task: Task) returns (after: seq<Action>)
    requires Possible(startup, t) && At(startup, t).pull.Processing?
    ensures Possible(startup, after) && t <= after
    ensures var s := At(startup, t);
            var window := s.shared.window;
            && At(startup, after) == s.(shared := s.shared.(window :=
                 if task.ExecuteCommand? then Remember(window, task.id) else window))
            && Executed(startup, after) ==
               Executed(startup, t) + if task.ExecuteCommand? && task.id !in window then [task.id] else []
  {
    MarkerHolds(startup, t);
    match task
    case NoOp =>
      after := t;
    case SelfUpdate =>
      Extend(startup, t, DeliverUpdate);
      after := Marked(startup, t + [DeliverUpdate], None);
    case ExecuteCommand(id) =>
      Extend(startup, t, Deliver(id));
      after := t + [Deliver(id)];
      if id !in At(startup, t).shared.window {
        after := Marked(startup, after, Some(id));
      }
  }
}
