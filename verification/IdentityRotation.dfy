/**
  Rotating the agent's own key (src/key_material.rs, src/signing.rs) against a server that
  keeps accepting the key a registration was signed with. Replies may be lost, every file
  operation may fail, and the process may crash between any two steps.
*/
module IdentityRotation {
  import opened Wrappers

  type Seed = nat

  /** A key file: whole, or cut short by a failed write. */
  datatype KeyFile = Whole(seed: Seed) | Partial

  /** The server accepts the registered key and the one that signed its registration. */
  datatype Server = Server(registered: Seed, overlap: Seed) {
    predicate Accepts(seed: Seed) {
      seed == registered || seed == overlap
    }

    function Register(signer: Seed, successor: Seed): Server {
      Server(successor, signer)
    }
  }

  datatype Phase =
    | Idle
    | Generated(seed: Seed)
    | Refused(seed: Seed)
    | Confirmed(seed: Seed)
    | OldMoved(seed: Seed)
    | Installed(seed: Seed)

  datatype State = State(
    key: Option<KeyFile>,
    next: Option<KeyFile>,
    previous: Option<KeyFile>,
    memory: Option<Seed>,
    server: Server,
    phase: Phase)

  /** The file may be cut short, or whole but not known to be on disk. */
  datatype CreateOutcome = NotCreated | CutShort | NotSynced | Written

  datatype RequestOutcome = NotDelivered | ReplyLost | SaidNo | SaidYes

  datatype Event =
    | Create(seed: Seed, outcome: CreateOutcome)
    | Request(reply: RequestOutcome)
    | RemoveNext(works: bool)
    | MoveOld(works: bool)
    | MoveNext(works: bool)
    | Adopt
    | Crash
    | Reload

  /** A generated seed is new to the server, and the server hears only those it accepts. */
  predicate Enabled(s: State, e: Event) {
    match e
    case Create(seed, _) => s.phase.Idle? && s.memory.Some? && !s.server.Accepts(seed)
    case Request(reply) =>
      && s.phase.Generated? && s.memory.Some?
      && (reply.ReplyLost? || reply.SaidYes? ==> s.server.Accepts(s.memory.value))
    case RemoveNext(_) => s.phase.Refused?
    case MoveOld(_) => s.phase.Confirmed?
    case MoveNext(works) => s.phase.OldMoved? && (works ==> s.next.Some?)
    case Adopt => s.phase.Installed? && s.memory.Some?
    case Crash => true
    case Reload => s.phase.Idle?
  }

  function Step(s: State, e: Event): State
    requires Enabled(s, e)
  {
    match e
    case Create(seed, outcome) =>
      if s.next.Some? || outcome.NotCreated? then s
      else if outcome.CutShort? then s.(next := Some(Partial))
      else if outcome.NotSynced? then s.(next := Some(Whole(seed)))
      else s.(next := Some(Whole(seed)), phase := Generated(seed))
    case Request(reply) =>
      (match reply
       case NotDelivered => s.(phase := Idle)
       case SaidNo => s.(phase := Refused(s.phase.seed))
       case ReplyLost => s.(server := s.server.Register(s.memory.value, s.phase.seed), phase := Idle)
       case SaidYes => s.(server := s.server.Register(s.memory.value, s.phase.seed), phase := Confirmed(s.phase.seed)))
    case RemoveNext(works) => if works then s.(next := None, phase := Idle) else s.(phase := Idle)
    case MoveOld(works) =>
      if s.key.Some? && works then s.(previous := s.key, key := None, phase := OldMoved(s.phase.seed))
      else s.(phase := OldMoved(s.phase.seed))
    case MoveNext(works) =>
      if works then s.(key := s.next, next := None, phase := Installed(s.phase.seed)) else s.(phase := Idle)
    case Adopt => s.(memory := Some(s.phase.seed), phase := Idle)
    case Crash => s.(memory := None, phase := Idle)
    case Reload =>
      if s.key.Some? && s.key.value.Whole? then s.(memory := Some(s.key.value.seed)) else s
  }

  predicate Usable(file: Option<KeyFile>, server: Server) {
    file.Some? && file.value.Whole? && server.Accepts(file.value.seed)
  }

  ghost predicate Invariant(s: State) {
    && (s.memory.Some? ==> s.server.Accepts(s.memory.value))
    && (s.key.Some? ==> Usable(s.key, s.server))
    && (s.key.None? ==>
          && Usable(s.previous, s.server)
          && s.next == Some(Whole(s.server.registered)))
    && (s.key.Some? && s.memory.Some? && !s.phase.Installed? ==> s.key == Some(Whole(s.memory.value)))
    && (s.phase.Generated? || s.phase.Refused? || s.phase.Confirmed? || s.phase.OldMoved? ==>
          s.next == Some(Whole(s.phase.seed)))
    && (s.phase.Generated? || s.phase.Refused? ==> !s.server.Accepts(s.phase.seed))
    && (s.phase.Generated? || s.phase.Confirmed? || s.phase.Refused? ==> s.key.Some?)
    && (s.phase.Confirmed? || s.phase.OldMoved? || s.phase.Installed? ==> s.phase.seed == s.server.registered)
    && (s.phase.Installed? ==> s.key == Some(Whole(s.phase.seed)) && s.next.None?)
  }

  lemma StepKeepsInvariant(s: State, e: Event)
    requires Invariant(s) && Enabled(s, e)
    ensures Invariant(Step(s, e))
  {
  }

  function After(s: State, t: seq<Event>): Option<State> {
    if t == [] then Some(s)
    else
      var before := After(s, t[..|t| - 1]);
      if before.Some? && Enabled(before.value, t[|t| - 1]) then Some(Step(before.value, t[|t| - 1])) else None
  }

  lemma {:induction false} InvariantHolds(s: State, t: seq<Event>)
    requires Invariant(s) && After(s, t).Some?
    ensures Invariant(After(s, t).value)
  {
    if t != [] {
      InvariantHolds(s, t[..|t| - 1]);
      StepKeepsInvariant(After(s, t[..|t| - 1]).value, t[|t| - 1]);
    }
  }

  /** An agent whose key file holds the seed it uses, which the server accepts. */
  ghost predicate Enrolled(s: State) {
    && s.phase.Idle? && s.memory.Some?
    && s.key == Some(Whole(s.memory.value)) && s.server.Accepts(s.memory.value)
  }

  /**
    After any sequence of attempts, lost replies, failures, crashes and restarts, some key
    file holds a seed the server accepts, and so does the running agent.
  */
  lemma AcceptedSeedIsNeverLost(s: State, t: seq<Event>)
    requires Enrolled(s) && After(s, t).Some?
    ensures var end := After(s, t).value;
            && (Usable(end.key, end.server) || (Usable(end.next, end.server) && Usable(end.previous, end.server)))
            && (end.memory.Some? ==> end.server.Accepts(end.memory.value))
  {
    InvariantHolds(s, t);
  }

  /**
    No step destroys a next key that the server has registered: it stays where it is, or it
    becomes the key file.
  */
  lemma RegisteredNextIsKept(s: State, t: seq<Event>, e: Event)
    requires Enrolled(s) && After(s, t).Some? && Enabled(After(s, t).value, e)
    requires var now := After(s, t).value; now.next == Some(Whole(now.server.registered))
    ensures var now := After(s, t).value;
            var after := Step(now, e);
            && after.server == now.server
            && (after.next == now.next || after.key == now.next)
  {
    InvariantHolds(s, t);
  }

  /** A rotation that reports success leaves memory, key file and server in agreement. */
  lemma SuccessMeansAgreement(s: State, t: seq<Event>)
    requires Enrolled(s) && t != [] && t[|t| - 1].Adopt? && After(s, t).Some?
    ensures var end := After(s, t).value;
            && end.memory == Some(end.server.registered)
            && end.key == Some(Whole(end.server.registered))
            && end.next.None?
  {
    InvariantHolds(s, t[..|t| - 1]);
  }

  /**
    A next key left behind is never destroyed: no later attempt, crash or restart changes any
    key file or what the server accepts. In particular a key registered by a request whose
    reply was lost survives, and no rotation gets past it.
  */
  lemma {:induction false} LeftoverNextSurvives(s: State, t: seq<Event>)
    requires Invariant(s) && s.phase.Idle? && s.next.Some? && After(s, t).Some?
    ensures var end := After(s, t).value;
            && end.phase.Idle?
            && end.(memory := s.memory) == s
  {
    if t != [] {
      LeftoverNextSurvives(s, t[..|t| - 1]);
    }
  }

  lemma Extend(s: State, t: seq<Event>, e: Event) returns (longer: seq<Event>)
    requires After(s, t).Some? && Enabled(After(s, t).value, e)
    ensures longer == t + [e] && After(s, longer) == Some(Step(After(s, t).value, e))
  {
    longer := t + [e];
    assert longer[..|t|] == t;
  }

  /** One run after another. */
  lemma {:induction false} Joined(s: State, t: seq<Event>, u: seq<Event>)
    requires After(s, t).Some? && After(After(s, t).value, u).Some?
    ensures After(s, t + u) == After(After(s, t).value, u)
  {
    if u == [] {
      assert t + u == t;
    } else {
      var v := u[..|u| - 1];
      Joined(s, t, v);
      assert (t + u)[..|t + u| - 1] == t + v;
    }
  }

  // ---- which attempts succeed, and what a restart finds --------------------------------------

  /** Where one attempt may go each way. */
  datatype Outcomes = Outcomes(create: CreateOutcome, reply: RequestOutcome, removes: bool, oldMoves: bool,
                               nextMoves: bool)

  /** The events of one attempt on an agent whose next key file is there, or not. */
  function Attempt(leftover: bool, seed: Seed, o: Outcomes): seq<Event> {
    [Create(seed, o.create)] +
    if leftover || !o.create.Written? then []
    else
      [Request(o.reply)] +
      match o.reply
      case NotDelivered => []
      case ReplyLost => []
      case SaidNo => [RemoveNext(o.removes)]
      case SaidYes => PuttingInPlace(o)
  }

  function PuttingInPlace(o: Outcomes): seq<Event> {
    [MoveOld(o.oldMoves), MoveNext(o.nextMoves)] + if o.nextMoves then [Adopt] else []
  }

  /** A run in which the agent adopts a new key. */
  ghost predicate Rotates(s: State, t: seq<Event>) {
    After(s, t).Some? && t != [] && t[|t| - 1].Adopt?
  }

  /**
    From an enrolled agent a rotation can go through exactly when no next key file is in
    the way: a leftover one blocks every later attempt, and nothing else does.
  */
  lemma RotationPossibleIffNoLeftover(s: State)
    requires Enrolled(s)
    ensures (exists t :: Rotates(s, t)) <==> s.next.None?
  {
    if s.next.None? {
      var seed := s.server.registered + s.server.overlap + 1;
      var t := Extend(s, [], Create(seed, Written));
      t := Extend(s, t, Request(SaidYes));
      t := Extend(s, t, MoveOld(true));
      t := Extend(s, t, MoveNext(true));
      t := Extend(s, t, Adopt);
      assert Rotates(s, t);
    } else if t :| Rotates(s, t) {
      LeftoverNextSurvives(s, t[..|t| - 1]);
      assert false;
    }
  }

  /** A refused attempt that cleans up leaves the agent as it was, so a later one can succeed. */
  lemma RefusedAttemptCanBeRepeated(s: State, seed: Seed, o: Outcomes)
    requires Enrolled(s) && s.next.None? && !s.server.Accepts(seed)
    requires o.create.Written? && o.reply.SaidNo? && o.removes
    ensures After(s, Attempt(false, seed, o)) == Some(s)
    ensures exists t :: Rotates(s, t)
  {
    var u := Extend(s, [], Create(seed, Written));
    u := Extend(s, u, Request(SaidNo));
    u := Extend(s, u, RemoveNext(true));
    assert u == Attempt(false, seed, o);
    RotationPossibleIffNoLeftover(s);
  }

  /** A run after which the agent has its key in memory again. */
  ghost predicate Recovers(s: State, t: seq<Event>) {
    After(s, t).Some? && After(s, t).value.memory.Some?
  }

  /**
    After a crash the agent gets a key again exactly when there is a key file. Without one
    it waits for enrollment: the accepted seeds in key.next and key.previous are not looked at.
  */
  lemma RecoversIffKeyFile(s: State)
    requires Invariant(s) && s.phase.Idle? && s.memory.None?
    ensures (exists t :: Recovers(s, t)) <==> s.key.Some?
  {
    if s.key.Some? {
      var t := Extend(s, [], Reload);
      assert Recovers(s, t);
    } else if t :| Recovers(s, t) {
      NoKeyFileStays(s, t);
      assert false;
    }
  }

  lemma {:induction false} NoKeyFileStays(s: State, t: seq<Event>)
    requires s.phase.Idle? && s.memory.None? && s.key.None? && After(s, t).Some?
    ensures After(s, t).value == s
  {
    if t != [] {
      NoKeyFileStays(s, t[..|t| - 1]);
    }
  }

  /** That can happen: the process dies between the two renames of a confirmed rotation. */
  lemma CrashBetweenRenamesLosesKeyFile(s: State, seed: Seed) returns (t: seq<Event>)
    requires Enrolled(s) && s.next.None? && !s.server.Accepts(seed)
    ensures After(s, t).Some?
    ensures var end := After(s, t).value;
            && end.phase.Idle? && end.memory.None? && end.key.None?
            && end.next == Some(Whole(seed)) && end.server.registered == seed
            && !exists u :: Recovers(end, u)
  {
    t := Extend(s, [], Create(seed, Written));
    t := Extend(s, t, Request(SaidYes));
    t := Extend(s, t, MoveOld(true));
    t := Extend(s, t, Crash);
    InvariantHolds(s, t);
    RecoversIffKeyFile(After(s, t).value);
  }

  /** Where those events lead. */
  lemma InPlace(s: State, o: Outcomes)
    requires s.phase.Confirmed? && s.key.Some? && s.next.Some? && s.memory.Some?
    ensures After(s, PuttingInPlace(o)) ==
            Some(State(if o.nextMoves then s.next else if o.oldMoves then None else s.key,
                       if o.nextMoves then None else s.next,
                       if o.oldMoves then s.key else s.previous,
                       if o.nextMoves then Some(s.phase.seed) else s.memory,
                       s.server, Idle))
  {
    var t := Extend(s, [], MoveOld(o.oldMoves));
    t := Extend(s, t, MoveNext(o.nextMoves));
    if o.nextMoves {
      t := Extend(s, t, Adopt);
    }
    assert t == PuttingInPlace(o);
  }

  /** The agent's side: its files and its key in memory. */
  class AgentIdentity {
    var key: Option<KeyFile>
    var next: Option<KeyFile>
    var previous: Option<KeyFile>
    var memory: Seed

    ghost function At(server: Server, phase: Phase): State
      reads this
    {
      State(key, next, previous, Some(memory), server, phase)
    }

    /** Refuses to overwrite an existing file. */
    method GenerateAtNext(seed: Seed, outcome: CreateOutcome, ghost server: Server) returns (ok: bool)
      requires !server.Accepts(seed)
      modifies `next
      ensures At(server, if ok then Generated(seed) else Idle) == Step(old(At(server, Idle)), Create(seed, outcome))
    {
      if next.Some? {
        return false;
      }
      match outcome
      case NotCreated => ok := false;
      case CutShort =>
        next := Some(Partial);
        ok := false;
      case NotSynced =>
        next := Some(Whole(seed));
        ok := false;
      case Written =>
        next := Some(Whole(seed));
        ok := true;
    }

    /** The last part of a confirmed rotation: two renames, then the new key in memory. */
    method PutInPlace(server: Server, seed: Seed, o: Outcomes) returns (ok: bool)
      requires next == Some(Whole(seed)) && key.Some?
      modifies this
      ensures After(old(At(server, Confirmed(seed))), PuttingInPlace(o)) == Some(At(server, Idle))
      ensures ok == o.nextMoves
      ensures memory == if ok then seed else old(memory)
      ensures next == if ok then None else old(next)
      ensures key == if ok then Some(Whole(seed)) else if o.oldMoves then None else old(key)
      ensures previous == if o.oldMoves then old(key) else old(previous)
    {
      InPlace(At(server, Confirmed(seed)), o);
      if key.Some? {
        if o.oldMoves {
          previous := key;
          key := None;
        }
      }
      if !o.nextMoves {
        return false;
      }
      key := next;
      next := None;
      memory := seed;
      ok := true;
    }

    /**
      One rotation attempt: exactly the events of the protocol for these outcomes. It
      succeeds exactly when nothing is in the way and every step that must work does.
    */
    method RotateAgentCredential(server: Server, seed: Seed, o: Outcomes) returns (ok: bool, newServer: Server)
      requires Enrolled(At(server, Idle)) && !server.Accepts(seed)
      modifies this
      ensures After(old(At(server, Idle)), Attempt(old(next).Some?, seed, o)) == Some(At(newServer, Idle))
      ensures ok <==> old(next).None? && o.create.Written? && o.reply.SaidYes? && o.nextMoves
      ensures memory == if ok then seed else old(memory)
      ensures newServer ==
              if old(next).None? && o.create.Written? && (o.reply.SaidYes? || o.reply.ReplyLost?)
              then Server(seed, old(memory)) else server
      ensures next ==
              if old(next).Some? then old(next)
              else match o.create
                case NotCreated => None
                case CutShort => Some(Partial)
                case NotSynced => Some(Whole(seed))
                case Written =>
                  if (o.reply.SaidNo? && o.removes) || (o.reply.SaidYes? && o.nextMoves)
                  then None else Some(Whole(seed))
      ensures var confirmed := old(next).None? && o.create.Written? && o.reply.SaidYes?;
              && previous == (if confirmed && o.oldMoves then old(key) else old(previous))
              && key ==
                 if confirmed && o.nextMoves then Some(Whole(seed))
                 else if confirmed && o.oldMoves then None
                 else old(key)
    {
      ghost var start := At(server, Idle);
      ghost var t := [];
      newServer := server;
      var created := GenerateAtNext(seed, o.create, server);
      t := Extend(start, t, Create(seed, o.create));
      if !created {
        assert t == Attempt(old(next).Some?, seed, o);
        return false, newServer;
      }
      assert old(next).None? && o.create.Written?;
      t := Extend(start, t, Request(o.reply));
      if o.reply.SaidYes? || o.reply.ReplyLost? {
        newServer := server.Register(memory, seed);
      }
      if o.reply.NotDelivered? || o.reply.ReplyLost? {
        assert t == Attempt(false, seed, o);
        return false, newServer;
      }
      if o.reply.SaidNo? {
        if o.removes {
          next := None;
        }
        t := Extend(start, t, RemoveNext(o.removes));
        assert t == Attempt(false, seed, o);
        return false, newServer;
      }
      ok := PutInPlace(newServer, seed, o);
      Joined(start, t, PuttingInPlace(o));
      assert t + PuttingInPlace(o) == Attempt(false, seed, o);
    }
  }
}
