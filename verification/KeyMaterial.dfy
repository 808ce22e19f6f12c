/** Merging server-advertised keys into the agent's configuration (src/key_material.rs). */
module KeyMaterial {
  import opened Wrappers
  import opened Crypto
  import opened KeyContinuity
  import TaskVerify

  /** One kind of key in the configuration: current, previous, end of overlap. */
  datatype KeySlot = KeySlot(current: Option<string>, previous: Option<string>, overlapUntil: Option<string>)

  datatype Keys = Keys(task: KeySlot, release: KeySlot)

  /** What a payload advertises for one kind of key. */
  datatype Advertised = Advertised(
    key: Option<string>,
    previous: Option<string>,
    overlapUntil: Option<string>,
    continuity: Option<string>,
    chain: seq<Attestation>)

  /** A payload. Release keys come without a chain. */
  datatype Material = Material(task: Advertised, release: Advertised)

  datatype AcceptKey = Noop | Promote | Reject

  function AcceptSuccessorKey(scheme: Scheme, current: Option<string>, candidate: string,
                              previous: Option<string>, continuity: Option<string>,
                              chain: seq<Attestation>): AcceptKey
  {
    match current
    case None => Promote
    case Some(key) =>
      if key == candidate then Noop
      else if previous == Some(key) && continuity.Some? && Continues(scheme, key, candidate, continuity.value)
      then Promote
      else if Walk(scheme, key, candidate, chain) then Promote
      else Reject
  }

  predicate Offered(text: Option<string>) {
    text.Some? && !Blank(text.value)
  }

  predicate Promoted(scheme: Scheme, slot: KeySlot, a: Advertised, chain: seq<Attestation>) {
    Offered(a.key) &&
    AcceptSuccessorKey(scheme, slot.current, a.key.value, a.previous, a.continuity, chain) == Promote
  }

  /** The slot a payload leaves: promote if accepted, then the advertised previous key and overlap. */
  function Merged(scheme: Scheme, slot: KeySlot, a: Advertised, chain: seq<Attestation>): KeySlot {
    var promoted := Promoted(scheme, slot, a, chain);
    KeySlot(
      if promoted then a.key else slot.current,
      if Offered(a.previous) then a.previous
      else if promoted && slot.current.Some? then slot.current
      else slot.previous,
      a.overlapUntil)
  }

  function Applied(scheme: Scheme, k: Keys, m: Material): Keys {
    Keys(Merged(scheme, k.task, m.task, m.task.chain), Merged(scheme, k.release, m.release, []))
  }

  class AgentConfig {
    var taskKey: Option<string>
    var taskPrevious: Option<string>
    var taskOverlapUntil: Option<string>
    var releaseKey: Option<string>
    var releasePrevious: Option<string>
    var releaseOverlapUntil: Option<string>
    /** The keys in the file. */
    var onDisk: Keys

    function InMemory(): Keys
      reads this
    {
      Keys(KeySlot(taskKey, taskPrevious, taskOverlapUntil),
           KeySlot(releaseKey, releasePrevious, releaseOverlapUntil))
    }

    constructor (k: Keys)
      ensures InMemory() == onDisk == k
    {
      taskKey, taskPrevious, taskOverlapUntil := k.task.current, k.task.previous, k.task.overlapUntil;
      releaseKey, releasePrevious, releaseOverlapUntil := k.release.current, k.release.previous, k.release.overlapUntil;
      onDisk := k;
    }

    /** Writing a temporary file and renaming it: all or nothing. */
    method Save(works: bool) returns (ok: bool)
      modifies `onDisk
      ensures ok == works
      ensures onDisk == if works then InMemory() else old(onDisk)
    {
      if works {
        onDisk := InMemory();
      }
      ok := works;
    }

    method ApplyTaskKeys(scheme: Scheme, m: Material) returns (changed: bool)
      modifies `taskKey, `taskPrevious, `taskOverlapUntil
      ensures InMemory() == old(InMemory()).(task := Merged(scheme, old(InMemory()).task, m.task, m.task.chain))
      ensures changed <==> InMemory() != old(InMemory())
    {
      changed := false;
      if Offered(m.task.key) {
        var decision :=
          AcceptSuccessorKey(scheme, taskKey, m.task.key.value, m.task.previous, m.task.continuity, m.task.chain);
        if decision == Promote {
          if taskKey.Some? {
            taskPrevious := taskKey;
          }
          taskKey := m.task.key;
          changed := true;
        }
      }
      if Offered(m.task.previous) && taskPrevious != m.task.previous {
        taskPrevious := m.task.previous;
        changed := true;
      }
      if taskOverlapUntil != m.task.overlapUntil {
        taskOverlapUntil := m.task.overlapUntil;
        changed := true;
      }
    }

    method ApplyReleaseKeys(scheme: Scheme, m: Material) returns (changed: bool)
      modifies `releaseKey, `releasePrevious, `releaseOverlapUntil
      ensures InMemory() == old(InMemory()).(release := Merged(scheme, old(InMemory()).release, m.release, []))
      ensures changed <==> InMemory() != old(InMemory())
    {
      changed := false;
      if Offered(m.release.key) {
        var decision :=
          AcceptSuccessorKey(scheme, releaseKey, m.release.key.value, m.release.previous, m.release.continuity, []);
        if decision == Promote {
          if releaseKey.Some? {
            if releasePrevious != releaseKey {
              releasePrevious := releaseKey;
            }
          }
          releaseKey := m.release.key;
          changed := true;
        }
      }
      if Offered(m.release.previous) && releasePrevious != m.release.previous {
        releasePrevious := m.release.previous;
        changed := true;
      }
      if releaseOverlapUntil != m.release.overlapUntil {
        releaseOverlapUntil := m.release.overlapUntil;
        changed := true;
      }
    }

    /** Ok(true) exactly when the configuration really differs and was saved. */
    method ApplyKeyMaterial(scheme: Scheme, m: Material, saveWorks: bool) returns (r: Result<bool, ()>)
      modifies this
      ensures InMemory() == Applied(scheme, old(InMemory()), m)
      ensures old(taskKey).None? && m.task.key.Some? && !Blank(m.task.key.value) ==> taskKey == m.task.key
      ensures old(releaseKey).None? && m.release.key.Some? && !Blank(m.release.key.value) ==>
                releaseKey == m.release.key
      ensures var differs := InMemory() != old(InMemory());
              && r == (if differs && !saveWorks then Err(()) else Ok(differs))
              && onDisk == if differs && saveWorks then InMemory() else old(onDisk)
    {
      var task := ApplyTaskKeys(scheme, m);
      var release := ApplyReleaseKeys(scheme, m);
      if task || release {
        var saved := Save(saveWorks);
        if !saved {
          return Err(());
        }
      }
      return Ok(task || release);
    }

    /**
      Applying the same payload again changes nothing and says so. Hence a save that failed
      is not made up for by the server repeating itself: the file keeps the old keys, and a
      file that held what memory did ends apart from it exactly when that save failed.
    */
    method ApplyTwice(scheme: Scheme, m: Material, firstSave: bool, secondSave: bool)
      returns (first: Result<bool, ()>, second: Result<bool, ()>)
      modifies this
      ensures InMemory() == Applied(scheme, old(InMemory()), m)
      ensures second == Ok(false)
      ensures onDisk == if firstSave && InMemory() != old(InMemory()) then InMemory() else old(onDisk)
      ensures old(onDisk == InMemory()) ==> (onDisk == InMemory() <==> firstSave || InMemory() == old(InMemory()))
    {
      first := ApplyKeyMaterial(scheme, m, firstSave);
      ApplyingAgainIsNoop(scheme, old(InMemory()), m);
      second := ApplyKeyMaterial(scheme, m, secondSave);
    }
  }

  // ---- which keys are installed -------------------------------------------------------------

  /** The key in use names its successor, itself or through a chain. */
  ghost predicate Attested(scheme: Scheme, key: string, a: Advertised, chain: seq<Attestation>)
    requires a.key.Some?
  {
    || (&& a.previous == Some(key) && a.continuity.Some?
        && Verified(scheme, Attestation(key, a.key.value, a.continuity.value)))
    || Walk(scheme, key, a.key.value, chain)
  }

  /** The first key offered is trusted. */
  lemma FirstKeyIsInstalled(scheme: Scheme, slot: KeySlot, a: Advertised, chain: seq<Attestation>)
    requires slot.current.None? && a.key.Some? && !Blank(a.key.value)
    ensures Merged(scheme, slot, a, chain).current == a.key
  {
  }

  /** Any later one replaces the key in use exactly when that key attests it. */
  lemma InstalledIffAttested(scheme: Scheme, slot: KeySlot, a: Advertised, chain: seq<Attestation>)
    requires slot.current.Some? && a.key.Some? && !Blank(a.key.value) && a.key != slot.current
    ensures Merged(scheme, slot, a, chain).current ==
            if Attested(scheme, slot.current.value, a, chain) then a.key else slot.current
  {
  }

  /** Nothing offered, nothing replaced. */
  lemma KeyStaysWithoutOffer(scheme: Scheme, slot: KeySlot, a: Advertised, chain: seq<Attestation>)
    requires a.key.None? || Blank(a.key.value) || a.key == slot.current
    ensures Merged(scheme, slot, a, chain).current == slot.current
  {
  }

  /** The previous key is the one advertised, else the key just replaced, else what it was. */
  lemma PreviousAfterMerge(scheme: Scheme, slot: KeySlot, a: Advertised, chain: seq<Attestation>)
    ensures var after := Merged(scheme, slot, a, chain);
            && after.overlapUntil == a.overlapUntil
            && if a.previous.Some? && !Blank(a.previous.value) then after.previous == a.previous
               else if slot.current.Some? && after.current != slot.current then after.previous == slot.current
               else after.previous == slot.previous
  {
  }

  /** An honest chain takes an agent from any of its keys to any later one, foreign attestations or not. */
  lemma HonestSuccessorIsInstalled(scheme: Scheme, slot: KeySlot, a: Advertised, chain: seq<Attestation>,
                                   keys: seq<string>, i: nat, j: nat)
    requires Distinct(keys) && ChainOver(scheme, keys, IssuedBy(chain, set k | k in keys))
    requires i < j < |keys| && slot.current == Some(keys[i]) && a.key == Some(keys[j]) && !Blank(keys[j])
    ensures Merged(scheme, slot, a, chain).current == Some(keys[j])
  {
    NoisyChainGoesForwardOnly(scheme, keys, chain, i, j);
    InstalledIffAttested(scheme, slot, a, chain);
  }

  /** Release keys do not follow chains. */
  lemma ReleaseKeysIgnoreChains(scheme: Scheme, k: Keys, m: Material, chain: seq<Attestation>)
    ensures Applied(scheme, k, m.(release := m.release.(chain := chain))) == Applied(scheme, k, m)
  {
  }

  lemma MergedOnceIsEnough(scheme: Scheme, slot: KeySlot, a: Advertised, chain: seq<Attestation>)
    ensures var once := Merged(scheme, slot, a, chain); Merged(scheme, once, a, chain) == once
  {
    var once := Merged(scheme, slot, a, chain);
    assert !Promoted(scheme, once, a, chain);
  }

  lemma ApplyingAgainIsNoop(scheme: Scheme, k: Keys, m: Material)
    ensures Applied(scheme, Applied(scheme, k, m), m) == Applied(scheme, k, m)
  {
    MergedOnceIsEnough(scheme, k.task, m.task, m.task.chain);
    MergedOnceIsEnough(scheme, k.release, m.release, []);
  }

  // ---- lineage ----------------------------------------------------------------------------

  /** The keys after a whole sequence of payloads. */
  function Run(scheme: Scheme, k: Keys, payloads: seq<Material>): Keys {
    if payloads == [] then k
    else Applied(scheme, Run(scheme, k, payloads[..|payloads| - 1]), payloads[|payloads| - 1])
  }

  /** `after` holds a key that descends from the one `before` holds. */
  ghost predicate Succeeds(scheme: Scheme, before: KeySlot, after: KeySlot) {
    before.current.Some? ==>
      after.current.Some? && Descends(scheme, before.current.value, after.current.value)
  }

  lemma MergeKeepsLineage(scheme: Scheme, slot: KeySlot, a: Advertised, chain: seq<Attestation>)
    ensures Succeeds(scheme, slot, Merged(scheme, slot, a, chain))
  {
    if slot.current.Some? {
      var key := slot.current.value;
      DescendsFromItself(scheme, key);
      if Promoted(scheme, slot, a, chain) {
        var candidate := a.key.value;
        if a.previous == Some(key) && a.continuity.Some? && Continues(scheme, key, candidate, a.continuity.value) {
          OneLinkDescends(scheme, Attestation(key, candidate, a.continuity.value));
        } else {
          var picked := WalkFollowsLinks(scheme, key, candidate, chain);
          LeadsGivesDescent(scheme, key, candidate, chain, picked);
        }
      }
    }
  }

  /**
    After any payloads, once a task key or a release key is installed it is never unset, and
    every later key is reached from it by a path of verified continuity links.
  */
  lemma {:induction false} KeysKeepTheirLineage(scheme: Scheme, k: Keys, payloads: seq<Material>, n: nat)
    requires n <= |payloads|
    ensures Succeeds(scheme, Run(scheme, k, payloads[..n]).task, Run(scheme, k, payloads).task)
    ensures Succeeds(scheme, Run(scheme, k, payloads[..n]).release, Run(scheme, k, payloads).release)
  {
    var start := Run(scheme, k, payloads[..n]);
    if n == |payloads| {
      assert payloads[..n] == payloads;
      if start.task.current.Some? { DescendsFromItself(scheme, start.task.current.value); }
      if start.release.current.Some? { DescendsFromItself(scheme, start.release.current.value); }
    } else {
      var b := payloads[..|payloads| - 1];
      assert b[..n] == payloads[..n];
      KeysKeepTheirLineage(scheme, k, b, n);
      var before := Run(scheme, k, b);
      var m := payloads[|payloads| - 1];
      MergeKeepsLineage(scheme, before.task, m.task, m.task.chain);
      MergeKeepsLineage(scheme, before.release, m.release, []);
      SucceedsTransitively(scheme, start.task, before.task, Run(scheme, k, payloads).task);
      SucceedsTransitively(scheme, start.release, before.release, Run(scheme, k, payloads).release);
    }
  }

  lemma SucceedsTransitively(scheme: Scheme, a: KeySlot, b: KeySlot, c: KeySlot)
    requires Succeeds(scheme, a, b) && Succeeds(scheme, b, c)
    ensures Succeeds(scheme, a, c)
  {
    if a.current.Some? {
      DescendsTransitively(scheme, a.current.value, b.current.value, c.current.value);
    }
  }

  // ---- which tasks stay accepted ------------------------------------------------------------

  /** The keys a task is checked against; without a current key every task is refused. */
  function TaskKeys(slot: KeySlot): seq<string> {
    if slot.current.None? then []
    else [slot.current.value] + if slot.previous.Some? then [slot.previous.value] else []
  }

  ghost predicate AgentAccepts(scheme: Scheme, k: Keys, task: TaskVerify.Task) {
    TaskVerify.Accepted(scheme, TaskKeys(k.task), task)
  }

  /** With a current key, a task is accepted exactly under it or under the previous one. */
  lemma AcceptedUnderEitherKey(scheme: Scheme, k: Keys, task: TaskVerify.Task)
    ensures AgentAccepts(scheme, k, task) <==>
              && k.task.current.Some?
              && (|| TaskVerify.Accepted(scheme, [k.task.current.value], task)
                  || (k.task.previous.Some? && TaskVerify.Accepted(scheme, [k.task.previous.value], task)))
  {
    if k.task.current.Some? {
      var keys := TaskKeys(k.task);
      assert forall key :: key in keys <==> key in [k.task.current.value] || Some(key) == k.task.previous;
    }
  }

  /** A promotion whose payload names another previous key than the one in use. */
  predicate ReplacesOverlap(scheme: Scheme, k: Keys, m: Material) {
    && Promoted(scheme, k.task, m.task, m.task.chain)
    && Offered(m.task.previous)
    && m.task.previous != k.task.current
  }

  /**
    A task accepted under the current key stays accepted after any payload, except after a
    promotion that names another previous key.
  */
  lemma AcceptedTasksStayAccepted(scheme: Scheme, k: Keys, m: Material, task: TaskVerify.Task)
    requires k.task.current.Some? && TaskVerify.Accepted(scheme, [k.task.current.value], task)
    requires !ReplacesOverlap(scheme, k, m)
    ensures AgentAccepts(scheme, Applied(scheme, k, m), task)
  {
    var key := k.task.current.value;
    assert key in TaskKeys(Applied(scheme, k, m).task);
  }

  /** Only a promotion by chain can be the exception: a direct one names the old key itself. */
  lemma OnlyChainsReplaceOverlap(scheme: Scheme, k: Keys, m: Material)
    requires k.task.current.Some? && ReplacesOverlap(scheme, k, m)
    ensures Walk(scheme, k.task.current.value, m.task.key.value, m.task.chain)
  {
  }

  /** In the exceptional case exactly the tasks of the new key and of the key it names remain. */
  lemma AcceptedAfterReplacement(scheme: Scheme, k: Keys, m: Material, task: TaskVerify.Task)
    requires ReplacesOverlap(scheme, k, m)
    ensures AgentAccepts(scheme, Applied(scheme, k, m), task) <==>
            TaskVerify.Accepted(scheme, [m.task.key.value, m.task.previous.value], task)
  {
    assert TaskKeys(Applied(scheme, k, m).task) == [m.task.key.value, m.task.previous.value];
  }

  const KEY_A: Bytes := seq(KEY_LENGTH, i => 0)
  const OTHER_KEY: Bytes := seq(KEY_LENGTH, i => 1)
  const SIGNATURE: Bytes := seq(SIGNATURE_LENGTH, i => 2)

  /** A scheme in which only the key written "a" ever verifies anything. */
  function OnlyA(): Scheme {
    Scheme((text: string) => Some(if text == "a" then KEY_A else if text == "s" then SIGNATURE else OTHER_KEY),
           (text: string) => [],
           (bytes: Bytes) => "",
           (key: Bytes) => true,
           (key: Bytes, message: Bytes, signature: Bytes) => key == KEY_A,
           (a: string, b: string) => a)
  }

  lemma OneLetterIsTrimmed(text: string)
    requires |text| == 1 && !IsSpace(text[0])
    ensures Trim(text) == text && !Blank(text)
  {
    assert TrimStart(text) == text && TrimEnd(text) == text;
  }

  lemma OnlyASigns(key: string, message: Bytes)
    ensures OnlyA().SignatureIn("s") == Some(SIGNATURE)
    ensures key != "s" ==> (OnlyA().Signs(key, message, SIGNATURE) <==> key == "a")
  {
    assert KEY_A[0] != OTHER_KEY[0];
  }

  /** The exception is real: a task of the key in use is refused after such a promotion. */
  lemma OverlapCanBeLost() returns (scheme: Scheme, k: Keys, m: Material, task: TaskVerify.Task)
    ensures k.task.current.Some? && TaskVerify.Accepted(scheme, [k.task.current.value], task)
    ensures ReplacesOverlap(scheme, k, m)
    ensures !AgentAccepts(scheme, Applied(scheme, k, m), task)
  {
    scheme := OnlyA();
    k := Keys(KeySlot(Some("a"), None, None), KeySlot(None, None, None));
    var link := Attestation("a", "b", "s");
    m := Material(Advertised(Some("b"), Some("c"), None, None, [link]), Advertised(None, None, None, None, []));
    task := TaskVerify.Task("t", "s");
    OneLetterIsTrimmed("a");
    OneLetterIsTrimmed("b");
    OneLetterIsTrimmed("c");
    OneLetterIsTrimmed("s");
    OnlyASigns("a", []);
    OnlyASigns("b", []);
    OnlyASigns("c", []);
    assert Verified(scheme, link);
    assert Walk(scheme, "a", "b", [link]);
    assert TaskVerify.Accepted(scheme, ["a"], task) by {
      assert "a" in ["a"];
    }
    AcceptedAfterReplacement(scheme, k, m, task);
  }
}
