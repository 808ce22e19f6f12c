/**
  Reloading credentials that other processes rewrite (src/session_repair.rs, with the
  reload in src/agent_run.rs and the writers in src/signing.rs and src/config.rs).

  A file is the list of versions it has had; the disk holds the last one. A generation is
  read in two system calls, so it may mix the metadata of one version with the content
  of a later one. Versions may appear between any two steps of the watcher.
*/
module CredentialWatch {
  import opened Wrappers

  datatype Version = Absent | Present(mtime: nat, bytes: Bytes)

  datatype Generation = Generation(modified: nat, len: nat, tag: nat)

  /** The content fingerprint, the parser of the config file and the identity it names. */
  datatype Env = Env(hash: Bytes -> nat, parsesConfig: Bytes -> bool, identityIn: Bytes -> nat)

  const TAGGED_LENGTH: nat := 4096
  const SEED_LENGTH: nat := 32

  /** What file_generation returns when it stats `meta` and then reads `content`. */
  function Observed(env: Env, meta: Version, content: Version): Option<Generation> {
    match meta
    case Absent => None
    case Present(mtime, bytes) =>
      var tag := if |bytes| > TAGGED_LENGTH || content.Absent? then 0 else env.hash(content.bytes);
      Some(Generation(mtime, |bytes|, tag))
  }

  function GenerationOf(env: Env, v: Version): Option<Generation> {
    Observed(env, v, v)
  }

  /**
    The assumption on writers: time does not run backwards, the fingerprint separates the
    contents written, and every write yields a generation the file has not had before.
    A file may be missing any number of times.
  */
  ghost predicate FreshWrites(env: Env, h: seq<Version>) {
    && (forall i, j :: 0 <= i < j < |h| && h[i].Present? && h[j].Present? ==> h[i].mtime <= h[j].mtime)
    && (forall i :: 0 <= i < |h| && h[i].Present? ==> env.hash(h[i].bytes) != 0)
    && (forall i, j :: 0 <= i < |h| && 0 <= j < |h| && h[i].Present? && h[j].Present? ==>
          env.hash(h[i].bytes) == env.hash(h[j].bytes) ==> h[i].bytes == h[j].bytes)
    && (forall i, j :: 0 <= i < j < |h| && h[i].Present? && h[j].Present? ==>
          GenerationOf(env, h[i]) != GenerationOf(env, h[j]))
  }

  /** The newest version can be told from all others: it is there, or no earlier one was missing. */
  ghost predicate Telling(h: seq<Version>) {
    h != [] && (h[|h| - 1].Absent? ==> forall i :: 0 <= i < |h| - 1 ==> h[i].Present?)
  }

  /** A generation mixed from two versions is never mistaken for a version written later. */
  lemma MixedGenerationIsNeverLater(env: Env, h: seq<Version>, i: nat, j: nat, n: nat)
    requires FreshWrites(env, h) && i <= j <= n < |h| && Telling(h[..n + 1])
    requires Observed(env, h[i], h[j]) == GenerationOf(env, h[n])
    ensures j == n
  {
    if i < n {
      assert h[..n + 1][i] == h[i] && h[..n + 1][n] == h[n];
      assert h[i].Present? && h[n].Present?;
      assert GenerationOf(env, h[i]) != GenerationOf(env, h[n]);
      if |h[i].bytes| <= TAGGED_LENGTH {
        assert h[j].Present? && h[j].bytes == h[n].bytes;
        assert h[i].mtime <= h[j].mtime <= h[n].mtime by {
          assert i == j || h[i].mtime <= h[j].mtime;
          assert j == n || h[j].mtime <= h[n].mtime;
        }
        assert GenerationOf(env, h[j]) == GenerationOf(env, h[n]);
      }
    }
  }

  /**
    A watched file together with the service's copy of it. The last four fields only
    record history: which versions the recorded generation was read from, which version
    last failed to load, and whether the copy was changed without being saved.
  */
  datatype Watched = Watched(
    history: seq<Version>,
    memory: Bytes,
    recorded: Option<Generation>,
    metaAt: nat,
    tagAt: nat,
    failedAt: Option<nat>,
    unsaved: bool)
  {
    function Disk(): Version
      requires history != []
    {
      history[|history| - 1]
    }

    function Write(v: Version): Watched {
      this.(history := history + [v])
    }

    /** Remember a generation read from versions `i` and `j`; an equal one changes nothing. */
    function Record(env: Env, i: nat, j: nat): Watched
      requires i < |history| && j < |history|
    {
      var g := Observed(env, history[i], history[j]);
      if g == recorded then this else this.(recorded := g, metaAt := i, tagAt := j)
    }

    /** Load the version now on disk; on any error keep the copy. */
    function Load(loadable: bool): Watched
      requires history != []
      requires loadable ==> Disk().Present?
    {
      if loadable then this.(memory := Disk().bytes, unsaved := false)
      else this.(failedAt := Some(|history| - 1))
    }

    /** The service changes its copy and, if saving works, the file. */
    function Save(v: Version, saved: bool): Watched
      requires v.Present?
    {
      if saved then this.(memory := v.bytes, history := history + [v], unsaved := false)
      else this.(memory := v.bytes, unsaved := true)
    }

    ghost predicate Agrees()
      requires history != []
    {
      || (Disk().Present? && memory == Disk().bytes)
      || failedAt == Some(|history| - 1)
      || unsaved
    }

    ghost predicate Tracks(env: Env) {
      && metaAt <= tagAt < |history|
      && recorded == Observed(env, history[metaAt], history[tagAt])
      && (failedAt.Some? ==> failedAt.value < |history|)
    }

    /** No load is due: if the newest version is the one last observed, it was loaded. */
    ghost predicate Settled(env: Env) {
      Tracks(env) && (tagAt == |history| - 1 ==> Agrees())
    }
  }

  datatype CredentialChange = Unchanged | KeyUpdated | ConfigUpdated | ServerIdentityChanged

  function Classify(identityChanged: bool, keyUpdated: bool, configUpdated: bool): CredentialChange {
    if identityChanged then ServerIdentityChanged
    else if keyUpdated then KeyUpdated
    else if configUpdated then ConfigUpdated
    else Unchanged
  }

  /** How far one call of check, and the key reload after it, has come. */
  datatype CheckAt =
    | Idle
    | KeyStat(i: nat)
    | KeyRead(i: nat, j: nat)
    | ConfigStat(i: nat, j: nat, k: nat)
    | LoadingConfig(keyUpdated: bool)
    | LoadingKey
    | Restarting

  datatype State = State(key: Watched, config: Watched, identity: nat, at: CheckAt)

  datatype Event =
    | OtherWritesKey(v: Version)
    | OtherWritesConfig(v: Version)
    | OwnConfigSave(v: Version, saved: bool)
    | OwnKeySwap(v: Version)
    | StatKey
    | ReadKey
    | StatConfig
    | ReadConfigAndCompare
    | LoadConfig(readable: bool)
    | LoadKey(readable: bool)

  predicate Enabled(s: State, e: Event) {
    match e
    case OtherWritesKey(_) => true
    case OtherWritesConfig(_) => true
    case OwnConfigSave(v, _) => s.at.Idle? && v.Present?
    case OwnKeySwap(v) => s.at.Idle? && v.Present?
    case StatKey => s.at.Idle?
    case ReadKey => s.at.KeyStat?
    case StatConfig => s.at.KeyRead?
    case ReadConfigAndCompare => s.at.ConfigStat?
    case LoadConfig(_) => s.at.LoadingConfig?
    case LoadKey(_) => s.at.LoadingKey?
  }

  /** The end of check: compare identities, then let the caller reload the key. */
  function Decide(env: Env, s: State, keyUpdated: bool, configUpdated: bool): State {
    var now := env.identityIn(s.config.memory);
    match Classify(now != s.identity, keyUpdated, configUpdated)
    case ServerIdentityChanged => s.(identity := now, at := Restarting)
    case KeyUpdated => s.(at := LoadingKey)
    case ConfigUpdated => s.(identity := now, at := Idle)
    case Unchanged => s.(at := Idle)
  }

  function Step(env: Env, s: State, e: Event): State
    requires WellFormed(env, s) && Enabled(s, e)
  {
    match e
    case OtherWritesKey(v) => s.(key := s.key.Write(v))
    case OtherWritesConfig(v) => s.(config := s.config.Write(v))
    case OwnConfigSave(v, saved) => s.(config := s.config.Save(v, saved))
    case OwnKeySwap(v) => s.(key := s.key.Save(v, true))
    case StatKey => s.(at := KeyStat(|s.key.history| - 1))
    case ReadKey => s.(at := KeyRead(s.at.i, |s.key.history| - 1))
    case StatConfig => s.(at := ConfigStat(s.at.i, s.at.j, |s.config.history| - 1))
    case ReadConfigAndCompare =>
      Compare(env, s, s.key.Record(env, s.at.i, s.at.j),
              s.config.Record(env, s.at.k, |s.config.history| - 1))
    case LoadConfig(readable) =>
      Decide(env, s.(config := s.config.Load(readable && LoadableConfig(env, s.config.Disk()))),
             s.at.keyUpdated, true)
    case LoadKey(readable) =>
      s.(key := s.key.Load(readable && LoadableKey(s.key.Disk())), at := Idle)
  }

  predicate LoadableConfig(env: Env, v: Version) {
    v.Present? && env.parsesConfig(v.bytes)
  }

  predicate LoadableKey(v: Version) {
    v.Present? && |v.bytes| == SEED_LENGTH
  }

  /** Store both new generations and see which differ from the old ones. */
  function Compare(env: Env, s: State, key: Watched, config: Watched): State {
    var keyUpdated := key.recorded != s.key.recorded;
    var stored := s.(key := key, config := config);
    if config.recorded != s.config.recorded then stored.(at := LoadingConfig(keyUpdated))
    else Decide(env, stored, keyUpdated, false)
  }

  /** The positions a half-finished check remembers exist. */
  ghost predicate WellFormed(env: Env, s: State) {
    && s.key.Tracks(env) && s.config.Tracks(env)
    && match s.at
       case KeyStat(i) => i < |s.key.history|
       case KeyRead(i, j) => i <= j < |s.key.history|
       case ConfigStat(i, j, k) => i <= j < |s.key.history| && k < |s.config.history|
       case _ => true
  }

  /** Each copy is settled, except the one whose load is the next thing the loop does. */
  ghost predicate Invariant(env: Env, s: State) {
    && WellFormed(env, s)
    && (s.at.LoadingConfig? || s.at.Restarting? || s.config.Settled(env))
    && (s.at.LoadingKey? || s.at.Restarting? || (s.at.LoadingConfig? && s.at.keyUpdated) || s.key.Settled(env))
  }

  lemma WriteKeepsSettled(env: Env, w: Watched, v: Version)
    requires w.Tracks(env)
    ensures w.Write(v).Tracks(env) && w.Write(v).Settled(env)
  {
  }

  lemma RecordKeepsSettled(env: Env, w: Watched, i: nat, j: nat)
    requires w.Settled(env) && i <= j < |w.history|
    ensures w.Record(env, i, j).Tracks(env)
    ensures w.Record(env, i, j).recorded == w.recorded ==> w.Record(env, i, j).Settled(env)
  {
  }

  lemma LoadSettles(env: Env, w: Watched, loadable: bool)
    requires w.Tracks(env) && (loadable ==> w.Disk().Present?)
    ensures w.Load(loadable).Settled(env)
  {
  }

  lemma SaveKeepsSettled(env: Env, w: Watched, v: Version, saved: bool)
    requires w.Settled(env) && v.Present?
    ensures w.Save(v, saved).Settled(env)
  {
  }

  /** Comparing leaves each copy settled, or due for the load that comes next. */
  lemma CompareKeepsInvariant(env: Env, s: State, key: Watched, config: Watched)
    requires key.Tracks(env) && config.Tracks(env)
    requires key.recorded == s.key.recorded ==> key.Settled(env)
    requires config.recorded == s.config.recorded ==> config.Settled(env)
    ensures Invariant(env, Compare(env, s, key, config))
  {
  }

  lemma DecideKeepsInvariant(env: Env, s: State, keyUpdated: bool)
    requires s.key.Tracks(env) && s.config.Settled(env)
    requires keyUpdated || s.key.Settled(env)
    ensures Invariant(env, Decide(env, s, keyUpdated, true))
  {
  }

  lemma WritesKeepInvariant(env: Env, s: State, e: Event)
    requires Invariant(env, s) && Enabled(s, e) && !Quiet(e)
    ensures Invariant(env, Step(env, s, e))
  {
    match e
    case OtherWritesKey(v) => WriteKeepsSettled(env, s.key, v);
    case OtherWritesConfig(v) => WriteKeepsSettled(env, s.config, v);
    case OwnConfigSave(v, saved) => SaveKeepsSettled(env, s.config, v, saved);
    case OwnKeySwap(v) => SaveKeepsSettled(env, s.key, v, true);
  }

  lemma ReadsKeepInvariant(env: Env, s: State, e: Event)
    requires Invariant(env, s) && Enabled(s, e)
    requires e.StatKey? || e.ReadKey? || e.StatConfig?
    ensures Invariant(env, Step(env, s, e))
  {
  }

  lemma ComparingKeepsInvariant(env: Env, s: State)
    requires Invariant(env, s) && s.at.ConfigStat?
    ensures Invariant(env, Step(env, s, ReadConfigAndCompare))
  {
    var key := s.key.Record(env, s.at.i, s.at.j);
    var config := s.config.Record(env, s.at.k, |s.config.history| - 1);
    RecordKeepsSettled(env, s.key, s.at.i, s.at.j);
    RecordKeepsSettled(env, s.config, s.at.k, |s.config.history| - 1);
    assert s.key.Settled(env) && s.config.Settled(env);
    CompareKeepsInvariant(env, s, key, config);
    assert Step(env, s, ReadConfigAndCompare) == Compare(env, s, key, config);
  }

  lemma LoadsKeepInvariant(env: Env, s: State, e: Event)
    requires Invariant(env, s) && Enabled(s, e)
    requires e.LoadConfig? || e.LoadKey?
    ensures Invariant(env, Step(env, s, e))
  {
    match e
    case LoadConfig(readable) =>
      var config := s.config.Load(readable && LoadableConfig(env, s.config.Disk()));
      LoadSettles(env, s.config, readable && LoadableConfig(env, s.config.Disk()));
      DecideKeepsInvariant(env, s.(config := config), s.at.keyUpdated);
    case LoadKey(readable) =>
      LoadSettles(env, s.key, readable && LoadableKey(s.key.Disk()));
  }

  /** Every step of the watcher, of the service and of any other process keeps the invariant. */
  lemma StepKeepsInvariant(env: Env, s: State, e: Event)
    requires Invariant(env, s) && Enabled(s, e)
    ensures Invariant(env, Step(env, s, e))
  {
    if !Quiet(e) {
      WritesKeepInvariant(env, s, e);
    } else if e.StatKey? || e.ReadKey? || e.StatConfig? {
      ReadsKeepInvariant(env, s, e);
    } else if e.ReadConfigAndCompare? {
      ComparingKeepsInvariant(env, s);
    } else {
      LoadsKeepInvariant(env, s, e);
    }
  }

  lemma LoadsKeepWellFormed(env: Env, s: State, e: Event)
    requires WellFormed(env, s) && Enabled(s, e)
    requires e.LoadConfig? || e.LoadKey?
    ensures WellFormed(env, Step(env, s, e))
  {
    match e
    case LoadConfig(readable) =>
      LoadSettles(env, s.config, readable && LoadableConfig(env, s.config.Disk()));
    case LoadKey(readable) =>
      LoadSettles(env, s.key, readable && LoadableKey(s.key.Disk()));
  }

  lemma ReadsKeepWellFormed(env: Env, s: State, e: Event)
    requires WellFormed(env, s) && Enabled(s, e)
    requires e.StatKey? || e.ReadKey? || e.StatConfig?
    ensures WellFormed(env, Step(env, s, e))
  {
  }

  lemma CompareKeepsWellFormed(env: Env, s: State)
    requires WellFormed(env, s) && s.at.ConfigStat?
    ensures WellFormed(env, Step(env, s, ReadConfigAndCompare))
  {
    var key := s.key.Record(env, s.at.i, s.at.j);
    var config := s.config.Record(env, s.at.k, |s.config.history| - 1);
    RecordTracks(env, s.key, s.at.i, s.at.j);
    RecordTracks(env, s.config, s.at.k, |s.config.history| - 1);
    ComparedIsWellFormed(env, s, key, config);
    assert Step(env, s, ReadConfigAndCompare) == Compare(env, s, key, config);
  }

  lemma RecordTracks(env: Env, w: Watched, i: nat, j: nat)
    requires w.Tracks(env) && i <= j < |w.history|
    ensures w.Record(env, i, j).Tracks(env)
  {
  }

  lemma ComparedIsWellFormed(env: Env, s: State, key: Watched, config: Watched)
    requires key.Tracks(env) && config.Tracks(env)
    ensures WellFormed(env, Compare(env, s, key, config))
  {
  }

  lemma WritesKeepWellFormed(env: Env, s: State, e: Event)
    requires WellFormed(env, s) && Enabled(s, e) && !Quiet(e)
    ensures WellFormed(env, Step(env, s, e))
  {
  }

  lemma StepKeepsWellFormed(env: Env, s: State, e: Event)
    requires WellFormed(env, s) && Enabled(s, e)
    ensures WellFormed(env, Step(env, s, e))
  {
    if !Quiet(e) {
      WritesKeepWellFormed(env, s, e);
    } else if e.LoadConfig? || e.LoadKey? {
      LoadsKeepWellFormed(env, s, e);
    } else if e.ReadConfigAndCompare? {
      CompareKeepsWellFormed(env, s);
    } else {
      ReadsKeepWellFormed(env, s, e);
    }
  }

  /** The state after the events `t`, or None when they cannot happen in that order. */
  ghost function After(env: Env, s: State, t: seq<Event>): (r: Option<State>)
    requires WellFormed(env, s)
    ensures r.Some? ==> WellFormed(env, r.value)
    decreases |t|, 0
  {
    if t == [] then Some(s) else AfterOneMore(env, s, t[..|t| - 1], t[|t| - 1])
  }

  ghost function AfterOneMore(env: Env, s: State, t: seq<Event>, e: Event): (r: Option<State>)
    requires WellFormed(env, s)
    ensures r.Some? ==> WellFormed(env, r.value)
    decreases |t|, 1
  {
    var before := After(env, s, t);
    if before.Some? && Enabled(before.value, e) then
      StepKeepsWellFormed(env, before.value, e);
      Some(Step(env, before.value, e))
    else None
  }

  lemma {:induction false} InvariantHolds(env: Env, s: State, t: seq<Event>)
    requires Invariant(env, s) && After(env, s, t).Some?
    ensures Invariant(env, After(env, s, t).value)
  {
    if t != [] {
      var b := t[..|t| - 1];
      InvariantHolds(env, s, b);
      StepKeepsInvariant(env, After(env, s, b).value, t[|t| - 1]);
    }
  }

  /** The state just after the watch is created on `key` and `config` with the given copies in memory. */
  function Created(env: Env, key: Version, keyCopy: Bytes, config: Version, configCopy: Bytes): State {
    State(Watched([key], keyCopy, GenerationOf(env, key), 0, 0, None, false),
          Watched([config], configCopy, GenerationOf(env, config), 0, 0, None, false),
          env.identityIn(configCopy), Idle)
  }

  /** The invariant holds at creation exactly when both copies are what the disk holds then. */
  lemma StartsSettledIffCopiesAgree(env: Env, key: Version, keyCopy: Bytes, config: Version, configCopy: Bytes)
    ensures Invariant(env, Created(env, key, keyCopy, config, configCopy)) <==>
            key.Present? && key.bytes == keyCopy && config.Present? && config.bytes == configCopy
  {
  }

  /** A change was seen: the load it calls for, or the end of the session, comes next. */
  predicate LoadDue(at: CheckAt) {
    at.LoadingConfig? || at.LoadingKey? || at.Restarting?
  }

  /** The recorded generation is that of the version on disk, which can be told from all others. */
  ghost predicate Recognised(env: Env, w: Watched) {
    FreshWrites(env, w.history) && Telling(w.history) && w.recorded == GenerationOf(env, w.Disk())
  }

  /**
    Convergence. However the writers interleave with the reads, compares and loads,
    whenever no load is due, in the middle of a check or not, and the recorded generation of
    a file is that of the disk, the service's copy equals the disk, or the load of that very
    version failed, or the service itself changed its copy and could not save it. A file that
    is missing for the second time is the exception: it looks as it did the first time.
  */
  lemma Converges(env: Env, s: State, t: seq<Event>)
    requires Invariant(env, s)
    requires After(env, s, t).Some? && !LoadDue(After(env, s, t).value.at)
    ensures var end := After(env, s, t).value;
            && (Recognised(env, end.key) ==> end.key.Agrees())
            && (Recognised(env, end.config) ==> end.config.Agrees())
  {
    InvariantHolds(env, s, t);
    var end := After(env, s, t).value;
    RecordedMeansSettled(env, end.key);
    RecordedMeansSettled(env, end.config);
  }

  /** One more event. */
  lemma Extend(env: Env, s: State, t: seq<Event>, e: Event) returns (longer: seq<Event>)
    requires WellFormed(env, s) && After(env, s, t).Some? && Enabled(After(env, s, t).value, e)
    ensures longer == t + [e] && After(env, s, longer) == Some(Step(env, After(env, s, t).value, e))
  {
    longer := t + [e];
    assert longer[..|t|] == t;
  }

  lemma RecordedMeansSettled(env: Env, w: Watched)
    requires w.Settled(env)
    ensures Recognised(env, w) ==> w.Agrees()
  {
    if Recognised(env, w) {
      assert w.history[..|w.history|] == w.history;
      MixedGenerationIsNeverLater(env, w.history, w.metaAt, w.tagAt, |w.history| - 1);
    }
  }

  predicate Quiet(e: Event) {
    !e.OtherWritesKey? && !e.OtherWritesConfig? && !e.OwnConfigSave? && !e.OwnKeySwap?
  }

  /** Nothing was written since both files were recorded, whatever the copies hold. */
  ghost predicate Unnoticed(env: Env, s: State) {
    && WellFormed(env, s)
    && s.key.recorded == GenerationOf(env, s.key.Disk())
    && s.config.recorded == GenerationOf(env, s.config.Disk())
    && s.identity == env.identityIn(s.config.memory)
    && match s.at
       case Idle => true
       case KeyStat(i) => i == |s.key.history| - 1
       case KeyRead(i, j) => i == j == |s.key.history| - 1
       case ConfigStat(i, j, k) => i == j == |s.key.history| - 1 && k == |s.config.history| - 1
       case _ => false
  }

  lemma QuietStepChangesNothing(env: Env, s: State, e: Event)
    requires Unnoticed(env, s) && Enabled(s, e) && Quiet(e)
    ensures var end := Step(env, s, e);
            Unnoticed(env, end) && end.key == s.key && end.config == s.config
  {
    StepKeepsWellFormed(env, s, e);
    if e.ReadConfigAndCompare? {
      assert s.key.Record(env, s.at.i, s.at.j) == s.key;
      assert s.config.Record(env, s.at.k, |s.config.history| - 1) == s.config;
    }
  }

  /**
    The agreement assumed at the start is needed: a write that falls between loading the
    files and creating the watch is recorded as seen, and as long as nothing else is
    written no number of checks loads it.
  */
  lemma {:induction false} StaleCopyIsKept(env: Env, s: State, t: seq<Event>)
    requires Unnoticed(env, s) && After(env, s, t).Some?
    requires forall k :: 0 <= k < |t| ==> Quiet(t[k])
    ensures var end := After(env, s, t).value;
            Unnoticed(env, end) && end.key == s.key && end.config == s.config
  {
    if t != [] {
      var b := t[..|t| - 1];
      StaleCopyIsKept(env, s, b);
      QuietStepChangesNothing(env, After(env, s, b).value, t[|t| - 1]);
    }
  }

  /** A watch just created has noticed nothing, whatever the copies hold. */
  lemma CreatedUnnoticed(env: Env, key: Version, keyCopy: Bytes, config: Version, configCopy: Bytes)
    ensures Unnoticed(env, Created(env, key, keyCopy, config, configCopy))
  {
  }

  /**
    So for the files and copies a watch is created with: after any number of checks without
    another write, both copies agree with the disk if and only if they did at creation.
  */
  lemma QuietRunAgreesIffCopiesDid(env: Env, key: Version, keyCopy: Bytes, config: Version, configCopy: Bytes,
                                   t: seq<Event>)
    requires After(env, Created(env, key, keyCopy, config, configCopy), t).Some?
    requires forall k :: 0 <= k < |t| ==> Quiet(t[k])
    ensures var end := After(env, Created(env, key, keyCopy, config, configCopy), t).value;
            end.key.Agrees() && end.config.Agrees() <==>
            key.Present? && key.bytes == keyCopy && config.Present? && config.bytes == configCopy
  {
    CreatedUnnoticed(env, key, keyCopy, config, configCopy);
    StaleCopyIsKept(env, Created(env, key, keyCopy, config, configCopy), t);
  }

  /** The watcher object of the source. */
  class CredentialWatch {
    var keyGen: Option<Generation>
    var configGen: Option<Generation>
    var identity: nat

    constructor (env: Env, key: Version, ghost keyCopy: Bytes, config: Version, copy: Bytes)
      ensures Holds(Created(env, key, keyCopy, config, copy))
    {
      keyGen := GenerationOf(env, key);
      configGen := GenerationOf(env, config);
      identity := env.identityIn(copy);
    }

    ghost predicate Holds(s: State)
      reads this
    {
      keyGen == s.key.recorded && configGen == s.config.recorded && identity == s.identity
    }

    /**
      One call of check when nothing is written while it runs. The copy of the config is
      passed in and handed back, as the source passes it by mutable reference.
    */
    method Check(env: Env, key: Version, config: Version, readable: bool, copy: Bytes, ghost s: State)
      returns (change: CredentialChange, newCopy: Bytes)
      requires WellFormed(env, s) && s.at.Idle? && Holds(s) && copy == s.config.memory
      requires key == s.key.Disk() && config == s.config.Disk()
      modifies this
      ensures var end := CheckWithoutWrites(env, s, readable);
              && Holds(end) && newCopy == end.config.memory
              && change == Classify(end.identity != old(identity), keyGen != old(keyGen), configGen != old(configGen))
              && (end.at.Restarting? <==> change.ServerIdentityChanged?)
              && (end.at.LoadingKey? <==> change.KeyUpdated?)
      ensures change.ServerIdentityChanged? <==> env.identityIn(newCopy) != old(identity)
      ensures change.KeyUpdated? <==> env.identityIn(newCopy) == old(identity) && keyGen != old(keyGen)
      ensures change.ConfigUpdated? <==>
                env.identityIn(newCopy) == old(identity) && keyGen == old(keyGen) && configGen != old(configGen)
      ensures newCopy ==
              if configGen != old(configGen) && readable && config.Present? && env.parsesConfig(config.bytes)
              then config.bytes else copy
      ensures keyGen == GenerationOf(env, key) && configGen == GenerationOf(env, config)
      ensures identity == env.identityIn(newCopy) || change.KeyUpdated? || change.Unchanged?
    {
      CheckOutcome(env, s, readable);
      var newKeyGen := GenerationOf(env, key);
      var newConfigGen := GenerationOf(env, config);
      var keyUpdated := newKeyGen != keyGen;
      var configUpdated := newConfigGen != configGen;
      keyGen, configGen := newKeyGen, newConfigGen;
      newCopy := copy;
      if configUpdated {
        if readable && config.Present? && env.parsesConfig(config.bytes) {
          newCopy := config.bytes;
        }
      }
      if env.identityIn(newCopy) != identity {
        identity := env.identityIn(newCopy);
        return ServerIdentityChanged, newCopy;
      }
      if keyUpdated {
        return KeyUpdated, newCopy;
      }
      if configUpdated {
        identity := env.identityIn(newCopy);
        return ConfigUpdated, newCopy;
      }
      return Unchanged, newCopy;
    }
  }

  /** What that comes to, field by field. */
  lemma CheckOutcome(env: Env, s: State, readable: bool)
    requires WellFormed(env, s) && s.at.Idle?
    ensures var end := CheckWithoutWrites(env, s, readable);
            var keyGen, configGen := GenerationOf(env, s.key.Disk()), GenerationOf(env, s.config.Disk());
            var configUpdated := configGen != s.config.recorded;
            var loads := configUpdated && readable && LoadableConfig(env, s.config.Disk());
            var copy := if loads then s.config.Disk().bytes else s.config.memory;
            var change := Classify(env.identityIn(copy) != s.identity, keyGen != s.key.recorded, configUpdated);
            && end.key.recorded == keyGen && end.config.recorded == configGen && end.config.memory == copy
            && (end.identity != s.identity <==> change.ServerIdentityChanged?)
            && (change.ServerIdentityChanged? ==> end.identity == env.identityIn(copy))
            && (end.at.Restarting? <==> change.ServerIdentityChanged?)
            && (end.at.LoadingKey? <==> change.KeyUpdated?)
  {
  }

  /** What one check does when nothing is written while it runs. */
  ghost function CheckWithoutWrites(env: Env, s: State, readable: bool): State
    requires WellFormed(env, s)
  {
    LoadedIfDue(env, Compared(env, s), readable)
  }

  /** Both files read in their newest version and compared. */
  ghost function Compared(env: Env, s: State): State
    requires s.key.history != [] && s.config.history != []
  {
    Compare(env, s,
            s.key.Record(env, |s.key.history| - 1, |s.key.history| - 1),
            s.config.Record(env, |s.config.history| - 1, |s.config.history| - 1))
  }

  ghost function LoadedIfDue(env: Env, compared: State, readable: bool): State
    requires compared.config.history != []
  {
    if compared.at.LoadingConfig? then
      var config := compared.config.Load(readable && LoadableConfig(env, compared.config.Disk()));
      Decide(env, compared.(config := config), compared.at.keyUpdated, true)
    else compared
  }

  /** `e` takes `s` to `next`. */
  ghost predicate Moves(env: Env, s: State, e: Event, next: State) {
    WellFormed(env, s) && Enabled(s, e) && Step(env, s, e) == next
  }

  /** Its steps are steps of the protocol: three reads, the comparison, and the load if one is due. */
  lemma CheckReads(env: Env, s: State)
    requires WellFormed(env, s) && s.at.Idle?
    ensures var k, c := |s.key.history| - 1, |s.config.history| - 1;
            && Moves(env, s, StatKey, s.(at := KeyStat(k)))
            && Moves(env, s.(at := KeyStat(k)), ReadKey, s.(at := KeyRead(k, k)))
            && Moves(env, s.(at := KeyRead(k, k)), StatConfig, s.(at := ConfigStat(k, k, c)))
  {
  }

  lemma CheckCompares(env: Env, s: State, readable: bool)
    requires WellFormed(env, s) && s.at.Idle?
    ensures var k, c := |s.key.history| - 1, |s.config.history| - 1;
            var compared := Compared(env, s);
            && Moves(env, s.(at := ConfigStat(k, k, c)), ReadConfigAndCompare, compared)
            && if compared.at.LoadingConfig?
               then Moves(env, compared, LoadConfig(readable), CheckWithoutWrites(env, s, readable))
               else compared == CheckWithoutWrites(env, s, readable)
  {
    CompareIsAStep(env, s);
    LoadIsAStep(env, Compared(env, s), readable);
  }

  lemma CompareIsAStep(env: Env, s: State)
    requires WellFormed(env, s) && s.at.Idle?
    ensures var k, c := |s.key.history| - 1, |s.config.history| - 1;
            Moves(env, s.(at := ConfigStat(k, k, c)), ReadConfigAndCompare, Compared(env, s))
    ensures WellFormed(env, Compared(env, s))
  {
    var read := s.(at := ConfigStat(|s.key.history| - 1, |s.key.history| - 1, |s.config.history| - 1));
    CompareKeepsWellFormed(env, read);
    StepIsCompared(env, s, read);
  }

  lemma StepIsCompared(env: Env, s: State, read: State)
    requires WellFormed(env, s) && WellFormed(env, read)
    requires read == s.(at := ConfigStat(|s.key.history| - 1, |s.key.history| - 1, |s.config.history| - 1))
    ensures Step(env, read, ReadConfigAndCompare) == Compared(env, s)
  {
    var k, c := |s.key.history| - 1, |s.config.history| - 1;
    StepCompares(env, read);
    CompareIgnoresProgress(env, s, read.at, s.key.Record(env, k, k), s.config.Record(env, c, c));
  }

  lemma StepCompares(env: Env, s: State)
    requires WellFormed(env, s) && s.at.ConfigStat?
    ensures Step(env, s, ReadConfigAndCompare) ==
            Compare(env, s, s.key.Record(env, s.at.i, s.at.j), s.config.Record(env, s.at.k, |s.config.history| - 1))
  {
  }

  lemma LoadIsAStep(env: Env, s: State, readable: bool)
    requires WellFormed(env, s)
    ensures if s.at.LoadingConfig? then Moves(env, s, LoadConfig(readable), LoadedIfDue(env, s, readable))
            else s == LoadedIfDue(env, s, readable)
  {
  }

  lemma CompareIgnoresProgress(env: Env, s: State, at: CheckAt, key: Watched, config: Watched)
    ensures Compare(env, s.(at := at), key, config) == Compare(env, s, key, config)
  {
  }

  /** What the service writes itself it holds at once; the file follows if the write works. */
  lemma OwnWritesAreHeld(env: Env, s: State, v: Version, saved: bool)
    requires WellFormed(env, s) && s.at.Idle? && v.Present?
    ensures var end := Step(env, s, OwnConfigSave(v, saved));
            && end.config.memory == v.bytes && end.config.Disk() == (if saved then v else s.config.Disk())
            && (end.config.unsaved <==> !saved) && end.key == s.key && end.at.Idle?
    ensures var end := Step(env, s, OwnKeySwap(v));
            && end.key.memory == v.bytes && end.key.Disk() == v && end.config == s.config && end.at.Idle?
  {
  }

  /** What others write appears on the disk alone. */
  lemma OtherWritesAppear(env: Env, s: State, v: Version)
    requires WellFormed(env, s)
    ensures var end := Step(env, s, OtherWritesKey(v));
            end.key.Disk() == v && end.key.memory == s.key.memory && end.config == s.config && end.at == s.at
    ensures var end := Step(env, s, OtherWritesConfig(v));
            end.config.Disk() == v && end.config.memory == s.config.memory && end.key == s.key && end.at == s.at
  {
  }

  // ---- what a check brings in ----------------------------------------------------------------

  /** The state after a check and, if it calls for one, the load of the key. */
  ghost function Refreshed(env: Env, s: State): State
    requires WellFormed(env, s)
  {
    var checked := CheckWithoutWrites(env, s, true);
    if checked.at.LoadingKey? then checked.(key := checked.key.Load(LoadableKey(checked.key.Disk())), at := Idle)
    else checked
  }

  /**
    One undisturbed check of readable files brings in every version it has not seen, and
    ends the session exactly when the configuration now names another server or agent.
  */
  lemma CheckBringsUpToDate(env: Env, s: State)
    requires WellFormed(env, s) && s.at.Idle?
    ensures var end := Refreshed(env, s);
            var key, config := s.key.Disk(), s.config.Disk();
            && (config.Present? && env.parsesConfig(config.bytes) && s.config.recorded != GenerationOf(env, config) ==>
                  end.config.memory == config.bytes)
            && (s.config.recorded == GenerationOf(env, config) || config.Absent? || !env.parsesConfig(config.bytes) ==>
                  end.config.memory == s.config.memory)
            && (end.at.Restarting? <==> env.identityIn(end.config.memory) != s.identity)
            && (!end.at.Restarting? ==>
                  && end.at.Idle?
                  && (key.Present? && |key.bytes| == 32 && s.key.recorded != GenerationOf(env, key) ==>
                        end.key.memory == key.bytes)
                  && (s.key.recorded == GenerationOf(env, key) || key.Absent? || |key.bytes| != 32 ==>
                        end.key.memory == s.key.memory))
  {
    CheckOutcome(env, s, true);
    CheckKeepsKey(env, s, true);
  }

  lemma CheckKeepsKey(env: Env, s: State, readable: bool)
    requires WellFormed(env, s) && s.at.Idle?
    ensures var end := CheckWithoutWrites(env, s, readable);
            && end.key.memory == s.key.memory && end.key.history == s.key.history
            && (end.at.Restarting? || end.at.LoadingKey? || end.at.Idle?)
  {
  }

  /** Two edits in one second that keep the length are told apart up to 4096 bytes, by content. */
  lemma EditsInOneSecond(env: Env, second: nat, before: Bytes, after: Bytes)
    requires |before| == |after| && env.hash(before) != env.hash(after)
    ensures GenerationOf(env, Present(second, before)) != GenerationOf(env, Present(second, after)) <==>
            |before| <= 4096
  {
  }

  /** Edits in different seconds, or of different length, always are. */
  lemma EditsApart(env: Env, v: Version, w: Version)
    requires v.Present? && w.Present? && (v.mtime != w.mtime || |v.bytes| != |w.bytes|)
    ensures GenerationOf(env, v) != GenerationOf(env, w)
  {
  }

  // ---- a file that goes missing twice -------------------------------------------------------

  /** A check that finds the key missing for the first time, and nothing else changed, calls for a load. */
  lemma MissingKeyIsNoticed(env: Env, s: State)
    requires WellFormed(env, s) && s.at.Idle? && s.key.Disk().Absent? && s.key.recorded.Some?
    requires s.config.recorded == GenerationOf(env, s.config.Disk()) && s.identity == env.identityIn(s.config.memory)
    ensures var k := |s.key.history| - 1;
            Compared(env, s) ==
            s.(key := s.key.(recorded := None, metaAt := k, tagAt := k), at := LoadingKey)
  {
  }

  /** Such a key comes back, is loaded, and goes missing again. */
  lemma BackAndGone(env: Env, w: Watched, back: Version)
    requires w.history != [] && LoadableKey(back) && w.failedAt.None? && !w.unsaved
    ensures var end := w.Write(back).Load(true).Write(Absent);
            && end.recorded == w.recorded && end.Disk() == Absent && end.memory == back.bytes && !end.Agrees()
  {
  }

  /**
    The exception occurs: a key that went missing, was loaded when it came back, and goes
    missing again before the next check looks as it did when that check saw it missing.
  */
  lemma MissingAgainIsNotNoticed(env: Env, s: State, back: Version) returns (t: seq<Event>)
    requires Invariant(env, s) && s.at.Idle? && LoadableKey(back)
    requires s.key.recorded.Some? && !s.key.unsaved && s.key.failedAt.None?
    requires FreshWrites(env, s.key.history + [Absent, back, Absent])
    requires s.config.recorded == GenerationOf(env, s.config.Disk()) && s.identity == env.identityIn(s.config.memory)
    ensures After(env, s, t).Some? && After(env, s, t).value.at.Idle?
    ensures var end := After(env, s, t).value.key;
            && FreshWrites(env, end.history) && end.recorded == GenerationOf(env, end.Disk())
            && !end.Agrees() && end.memory == back.bytes
  {
    var gone := s.(key := s.key.Write(Absent));
    t := Extend(env, s, [], OtherWritesKey(Absent));
    t := Checked(env, s, t, gone);
    var due := After(env, s, t).value.key;
    t := Extend(env, s, t, OtherWritesKey(back));
    t := Extend(env, s, t, LoadKey(true));
    t := Extend(env, s, t, OtherWritesKey(Absent));
    BackAndGone(env, due, back);
    assert s.key.history + [Absent] + [back] + [Absent] == s.key.history + [Absent, back, Absent];
  }

  /** The four steps of that check. */
  lemma Checked(env: Env, s: State, t: seq<Event>, gone: State) returns (longer: seq<Event>)
    requires WellFormed(env, s) && After(env, s, t) == Some(gone)
    requires gone.at.Idle? && gone.key.Disk().Absent? && gone.key.recorded.Some?
    requires gone.config.recorded == GenerationOf(env, gone.config.Disk())
    requires gone.identity == env.identityIn(gone.config.memory)
    ensures var k := |gone.key.history| - 1;
            After(env, s, longer) ==
            Some(gone.(key := gone.key.(recorded := None, metaAt := k, tagAt := k), at := LoadingKey))
  {
    CheckReads(env, gone);
    longer := Extend(env, s, t, StatKey);
    longer := Extend(env, s, longer, ReadKey);
    longer := Extend(env, s, longer, StatConfig);
    CheckCompares(env, gone, true);
    longer := Extend(env, s, longer, ReadConfigAndCompare);
    MissingKeyIsNoticed(env, gone);
  }

  function Written(s: State, versions: seq<Version>): State {
    s.(key := s.key.(history := s.key.history + versions))
  }

  lemma WrittenInTurn(s: State, v: Version, versions: seq<Version>)
    ensures Written(Written(s, [v]), versions) == Written(s, [v] + versions)
    ensures Written(s, []) == s
  {
    assert s.key.history + [v] + versions == s.key.history + ([v] + versions);
    assert s.key.history + [] == s.key.history;
  }

  lemma WriteOne(env: Env, s: State, t: seq<Event>, v: Version) returns (longer: seq<Event>)
    requires WellFormed(env, s) && After(env, s, t).Some?
    ensures After(env, s, longer) == Some(Written(After(env, s, t).value, [v]))
  {
    longer := Extend(env, s, t, OtherWritesKey(v));
  }

  /** Versions of the key written one after another, with no step of the watch in between. */
  lemma {:induction false} WriteAll(env: Env, s: State, t: seq<Event>, versions: seq<Version>)
    returns (longer: seq<Event>)
    requires WellFormed(env, s) && After(env, s, t).Some?
    ensures After(env, s, longer) == Some(Written(After(env, s, t).value, versions))
    decreases |versions|
  {
    var now := After(env, s, t).value;
    if versions == [] {
      WrittenInTurn(now, Absent, []);
      return t;
    }
    longer := WriteOne(env, s, t, versions[0]);
    longer := WriteAll(env, s, longer, versions[1..]);
    WrittenInTurn(now, versions[0], versions[1..]);
    assert [versions[0]] + versions[1..] == versions;
  }

  /** A check that finds the key missing, and the load that then fails. */
  lemma MissedOnce(env: Env, s: State, t: seq<Event>, gone: State) returns (longer: seq<Event>)
    requires WellFormed(env, s) && After(env, s, t) == Some(gone)
    requires gone.at.Idle? && gone.key.Disk().Absent? && gone.key.recorded.Some?
    requires gone.config.recorded == GenerationOf(env, gone.config.Disk())
    requires gone.identity == env.identityIn(gone.config.memory)
    ensures var k := |gone.key.history| - 1;
            After(env, s, longer) ==
            Some(gone.(key := gone.key.(recorded := None, metaAt := k, tagAt := k, failedAt := Some(k))))
  {
    longer := Checked(env, s, t, gone);
    LoadFails(env, After(env, s, longer).value);
    longer := Extend(env, s, longer, LoadKey(false));
  }

  lemma LoadFails(env: Env, s: State)
    requires WellFormed(env, s) && s.at.LoadingKey?
    ensures Step(env, s, LoadKey(false)) == s.(key := s.key.(failedAt := Some(|s.key.history| - 1)), at := Idle)
  {
  }

  /** From agreement at creation, the key's history became `h`, no load is due, and nothing looks changed. */
  ghost predicate LooksUnchanged(env: Env, h: seq<Version>, config: Version, t: seq<Event>)
    requires h != [] && h[0].Present? && config.Present?
  {
    var end := After(env, Created(env, h[0], h[0].bytes, config, config.bytes), t);
    && end.Some? && !LoadDue(end.value.at) && end.value.key.history == h
    && end.value.key.recorded == GenerationOf(env, end.value.key.Disk())
  }

  /** From creation to the point where the version `i` has been seen missing. */
  lemma MissedAt(env: Env, h: seq<Version>, config: Version, i: nat) returns (t: seq<Event>)
    requires i < |h| && h[0].Present? && config.Present? && h[i].Absent?
    ensures var s := Created(env, h[0], h[0].bytes, config, config.bytes);
            After(env, s, t) == Some(s.(key := Watched(h[..i + 1], h[0].bytes, None, i, i, Some(i), false)))
  {
    var s := Created(env, h[0], h[0].bytes, config, config.bytes);
    WrittenSinceCreation(env, h, config, i);
    t := WriteAll(env, s, [], h[1..i + 1]);
    t := MissedOnce(env, s, t, Written(s, h[1..i + 1]));
  }

  lemma WrittenSinceCreation(env: Env, h: seq<Version>, config: Version, i: nat)
    requires i < |h| && h[0].Present? && config.Present?
    ensures var s := Created(env, h[0], h[0].bytes, config, config.bytes);
            Written(s, h[1..i + 1]) ==
            s.(key := Watched(h[..i + 1], h[0].bytes, GenerationOf(env, h[0]), 0, 0, None, false))
    ensures h[..i + 1][|h[..i + 1]| - 1] == h[i]
    ensures GenerationOf(env, h[0]).Some?
  {
    assert [h[0]] + h[1..i + 1] == h[..i + 1];
  }

  /** The condition on the newest version is needed: without it some run ends without agreement. */
  lemma TellingIsNeeded(env: Env, h: seq<Version>, config: Version) returns (t: seq<Event>)
    requires FreshWrites(env, h) && h != [] && h[0].Present? && config.Present? && !Telling(h)
    ensures LooksUnchanged(env, h, config, t)
    ensures !After(env, Created(env, h[0], h[0].bytes, config, config.bytes), t).value.key.Agrees()
  {
    var s := Created(env, h[0], h[0].bytes, config, config.bytes);
    var i :| 0 <= i < |h| - 1 && h[i].Absent?;
    t := MissedAt(env, h, config, i);
    t := WriteAll(env, s, t, h[i + 1..]);
    MissingAtTheEnd(env, s, h, i);
  }

  lemma MissingAtTheEnd(env: Env, s: State, h: seq<Version>, i: nat)
    requires i < |h| - 1 && h[0].Present? && h[|h| - 1].Absent?
    ensures var missed := s.(key := Watched(h[..i + 1], h[0].bytes, None, i, i, Some(i), false));
            var end := Written(missed, h[i + 1..]).key;
            && end.history == h && end.recorded == GenerationOf(env, end.Disk()) && !end.Agrees()
  {
    assert h[..i + 1] + h[i + 1..] == h;
  }

  /**
    The exact condition: whatever run gave the key the history `h`, looking unchanged means
    agreement, if and only if the newest version can be told from all others.
  */
  lemma AgreementIffTelling(env: Env, h: seq<Version>, config: Version)
    requires FreshWrites(env, h) && h != [] && h[0].Present? && config.Present?
    ensures var s := Created(env, h[0], h[0].bytes, config, config.bytes);
            Telling(h) <==> forall t :: LooksUnchanged(env, h, config, t) ==> After(env, s, t).value.key.Agrees()
  {
    var s := Created(env, h[0], h[0].bytes, config, config.bytes);
    if Telling(h) {
      StartsSettledIffCopiesAgree(env, h[0], h[0].bytes, config, config.bytes);
      forall t | LooksUnchanged(env, h, config, t) ensures After(env, s, t).value.key.Agrees() {
        Converges(env, s, t);
      }
    } else {
      var t := TellingIsNeeded(env, h, config);
      assert LooksUnchanged(env, h, config, t);
    }
  }

  // ---- when the service's own save overwrites a write it has not seen -------------------------

  predicate WritesConfig(e: Event) {
    e.OtherWritesConfig? || e.OwnConfigSave?
  }

  /** The service is about to save over a version of the config it does not hold. */
  ghost predicate WouldOverwrite(w: Watched) {
    w.history != [] && w.Disk().Present? && w.memory != w.Disk().bytes
  }

  /** No check has seen that version, or it could not be loaded, or an earlier save failed. */
  ghost predicate Unseen(env: Env, w: Watched)
    requires w.history != []
  {
    FreshWrites(env, w.history) ==>
      || w.recorded != GenerationOf(env, w.Disk())
      || w.failedAt == Some(|w.history| - 1)
      || w.unsaved
  }

  /**
    That happens only with a version written since the last comparison, or one that could
    not be loaded, or after an earlier save failed.
  */
  lemma OverwritesOnlyUnseen(env: Env, s: State, t: seq<Event>)
    requires Invariant(env, s) && After(env, s, t).Some? && After(env, s, t).value.at.Idle?
    ensures WouldOverwrite(After(env, s, t).value.config) ==> Unseen(env, After(env, s, t).value.config)
  {
    Converges(env, s, t);
    NotSeenWhole(env, After(env, s, t).value.config);
  }

  lemma NotSeenWhole(env: Env, w: Watched)
    requires w.history != [] && (Recognised(env, w) ==> w.Agrees())
    ensures WouldOverwrite(w) ==> Unseen(env, w)
  {
  }

  /** A version saved over is gone: until the next write, disk and copy are what was saved. */
  lemma {:induction false} OverwrittenIsNeverLoaded(env: Env, s: State, v: Version, saved: State, t: seq<Event>)
    requires v.Present? && saved == s.(config := s.config.Save(v, true))
    requires WellFormed(env, saved) && After(env, saved, t).Some?
    requires forall k :: 0 <= k < |t| ==> !WritesConfig(t[k])
    ensures HoldsVersion(After(env, saved, t).value.config, v)
  {
    if t != [] {
      OverwrittenIsNeverLoaded(env, s, v, saved, t[..|t| - 1]);
      OtherStepsKeepConfig(env, After(env, saved, t[..|t| - 1]).value, t[|t| - 1], v);
    }
  }

  ghost predicate HoldsVersion(w: Watched, v: Version) {
    w.history != [] && w.Disk() == v && v.Present? && w.memory == v.bytes
  }

  lemma OtherStepsKeepConfig(env: Env, s: State, e: Event, v: Version)
    requires WellFormed(env, s) && Enabled(s, e) && !WritesConfig(e) && HoldsVersion(s.config, v)
    ensures HoldsVersion(Step(env, s, e).config, v)
  {
  }
}
