# Verified model of the lampad agent core

A Dafny model of the parts of `hecate-lampad-core` that hold state and have invariants to
lose: the pull session with its heartbeat thread, key rotation, the watch on credential
files, self-update with rollback, the recursive folder copy, and four sharp loops and
printers. `dafny verify dfyconfig.toml` checks all of it.

## How it is built

* **Protocols** (`PullSession`, `CredentialWatch`, `IdentityRotation`) are step functions
  over an explicit state. One step is one atomic load, store or critical section, one
  system call, or one crash. Theorems quantify over every list of steps that is possible.
  The objects of the source (`AgentSessionState`, `CredentialWatch`, `AgentIdentity`) are
  classes whose methods are shown to perform exactly those steps. In `AgentSessionState` the
  other thread may act before every load and store, and the object's history is always a
  possible interleaving of the protocol.
* **File work** (`Updater`, `TreeCopy`) runs on `FileSystem.Disk`, whose operations may
  fail, write part of a chunk, or (`OtherProcess`) be interfered with. Each change appends a
  snapshot to the ghost field `past`; a statement about all of `past` holds at every moment
  a crash could freeze. `faults` counts operations that failed although they were possible,
  `attempts` lists the moves and removals tried, with their results, and `elevations` counts
  how often elevated rights were asked for.
* **Loops** of the source are loops with invariants; what they compute is a property or a
  specification function about which the lemmas are proved.
* **Cryptography** is a record of unknown functions (`Crypto.Scheme`). Base64, UTF-8,
  SHA-256 and Ed25519 are otherwise free; a lemma that needs more says so in its `requires`.

| file | covers |
|---|---|
| `RecentIds.dfy`, `PullSession.dfy`, `SessionState.dfy` | dedup window, two threads, sessions in a row |
| `Progress.dfy` | what a session can always go on to do |
| `TagRefresh.dfy`, `Backoff.dfy` | the other loop state of a session |
| `CredentialWatch.dfy` | reloading files that others rewrite |
| `Crypto.dfy`, `TaskVerify.dfy`, `KeyContinuity.dfy`, `KeyMaterial.dfy`, `IdentityRotation.dfy` | keys |
| `Release.dfy`, `FileSystem.dfy`, `Updater.dfy` | signed releases and self-update |
| `TreeCopy.dfy` | folder copy |
| `ShellQuote.dfy`, `LimitedRead.dfy` | quoting, bounded reading |

## What the code does not keep, stated as lemmas

* `CredentialWatch.StaleCopyIsKept`: a write between loading the files and creating the
  watch is never picked up, so agreement at creation is needed (`StartsSettledIffCopiesAgree`,
  `QuietRunAgreesIffCopiesDid`).
* `KeyMaterial.AgentConfig.ApplyTwice`: when saving fails the keys change in memory, and the
  same payload is then a no-op, so it is not saved later either.
* `KeyMaterial.OverlapCanBeLost`: a promotion by chain whose payload names a third key as
  previous drops the key in use; `AcceptedTasksStayAccepted` and `AcceptedAfterReplacement`
  give the exact condition.
* `IdentityRotation.LeftoverNextSurvives`: a next key left by a lost reply is safe, but it
  also blocks every later rotation (`RotationPossibleIffNoLeftover`).
* `IdentityRotation.CrashBetweenRenamesLosesKeyFile`: a crash between the two renames leaves no
  key file; accepted seeds are in the other two files, but nothing reads them, so the agent
  waits for enrollment (`RecoversIffKeyFile`).
* `Release.MalformedKeyHidesLaterKeys`: the content check stops at a key that is not base64.
* `TagRefresh.TagRefresher.ChangeLostWhenCollectionFails`: helper tags that change while the
  machine tags cannot be collected are not queued; `UpToDateIff` is the exact condition.
* `CredentialWatch.MissingAgainIsNotNoticed`: a file that goes missing, is loaded when it comes
  back, and is missing again at the next check looks unchanged; `AgreementIffTelling` is the
  exact condition.
* `CredentialWatch.OverwrittenIsNeverLoaded`: the service's own save can replace a configuration
  that another process wrote since the last check; `OverwritesOnlyUnseen` says when.
* `TreeCopy.CopyIntoItselfNeverFinishes`: a copy into its own source nests without bound.

The comment on the dedup window calls it LRU-like; it is first in, first out, and is modelled so.

## Model

| member | source | states |
|---|---|---|
| RecentIds.RecentCommandIds.InsertIfNew | src/pull.rs:44-55 | queue and hash set keep the same distinct ids, at most 512; new exactly when not held |
| RecentIds.WindowIsLastAccepted | src/pull.rs:44-55 | after any deliveries the window is the last 512 accepted ids |
| RecentIds.SkippedExactlyWhenRecent | src/agent_run.rs:394-400 | a delivery is skipped exactly when its id is among the last 512 accepted |
| RecentIds.AtMostOnceWindow | src/pull.rs:22-23 | any 513 consecutive accepted ids are pairwise distinct |
| PullSession.StepKeepsMarker | src/pull.rs:229-251 | every step of either thread keeps busy flag, command id and window consistent with where the loop is |
| PullSession.ReportedCommandIsRunning | src/pull.rs:254-280 | under every interleaving an id read by the heartbeat is the newest accepted command, begun and not ended |
| PullSession.IdleReportNamesNothing | src/pull.rs:255-263 | a report with busy false carries no command id |
| PullSession.ExecutedAreAccepted | src/agent_run.rs:391-425 | the commands executed are exactly the accepted deliveries, in order, each once |
| PullSession.ExecutedAtMostOnce | src/agent_run.rs:391-425 | within a session any 513 consecutive executed commands differ |
| PullSession.WindowOfDeliveries | src/pull.rs:240-245 | under every interleaving the window is the one of the deliveries so far: no other step touches it |
| PullSession.CounterCountsFailures | src/pull.rs:209-221 | the counter is the number of failures since the last reset and never passes six |
| PullSession.SelfStopNeedsSixFailures | src/pull.rs:355-366 | the thread stops itself only after six failures with no success and no completed round between them |
| PullSession.StopIsNeverCleared | src/pull.rs:197-203 | once set, the stop flag stays set |
| PullSession.AtMostOnePullAfterStop | src/agent_run.rs:258-262 | after the flag is set at most one more pull starts, and only if the check was already passed |
| PullSession.StopsWithinEightSteps | src/pull.rs:349-397 | once the flag is set the heartbeat thread can always go on and takes at most eight more steps, so joining it always becomes possible |
| PullSession.TakeHandsOverNewest | src/pull.rs:282-289 | a later take returns the newest set queued since the previous one, or nothing |
| PullSession.NeverTakenTwice | src/pull.rs:181-183 | no queued set is taken twice and sets are taken in queueing order |
| PullSession.StartupTakenOnceAndFirst | src/pull.rs:282-289 | startup tags go to the first taker, before any queued set, and to no other |
| PullSession.AtMostOneHeartbeatThread | src/pull.rs:390-397 | over all session restarts only the newest session can have a live heartbeat thread |
| PullSession.EverySessionIsAnInterleaving | src/agent_run.rs:72-124 | each session of the service follows a possible interleaving, so the theorems above apply to it |
| SessionState.AgentSessionState.BeginBusy | src/pull.rs:229-232 | whatever the heartbeat thread does before each of them, exactly the store to the flag and then the store to the id; nothing else is written |
| SessionState.AgentSessionState.EndCommand | src/pull.rs:248-251 | exactly the store clearing the flag and then the one clearing the id, with the heartbeat thread acting in between |
| SessionState.AgentSessionState.RememberCommandId | src/pull.rs:240-245 | one delivery; new exactly when the id is not in the window, and then the loop is about to begin it |
| SessionState.AgentSessionState.HealthSnapshot | src/pull.rs:254-280 | the read of the flag and then, only if it is set, the read of the id, with the loop acting in between; what is returned is the report of that interleaving |
| SessionState.AgentSessionState.TakeHeartbeatTags | src/pull.rs:282-289 | startup tags first; only if there are none the pending slot is looked at; each slot is emptied as it is read |
| SessionState.AgentSessionState.QueueTagRefresh | src/pull.rs:181-183 | the pending slot holds the newest set, whatever was taken meanwhile |
| SessionState.AgentSessionState.RecordHeartbeatFailure | src/pull.rs:214-217 | one increment; the thread is to stop exactly when the counter has reached six |
| SessionState.AgentSessionState.RecordHeartbeatSuccess | src/pull.rs:209-211 | the reset by the heartbeat thread |
| SessionState.AgentSessionState.ResetTransportFailures | src/pull.rs:219-221 | the reset by the pull loop at the end of a round |
| SessionState.AgentSessionState.RequestStop | src/pull.rs:197-199 | the same store whether the thread stops itself or is dropped |
| SessionState.AgentSessionState.SendHeartbeat | src/pull.rs:292-322 | the exact accesses of one heartbeat; undisturbed, what is reported, and that the tags taken are gone whether or not the server answered |
| SessionState.AgentSessionState.HeartbeatLoop | src/pull.rs:349-379 | the thread ends only with the flag set, by its own stop exactly when it gave up; left alone, it gives up exactly at the first sixth failure in a row |
| SessionState.AgentSessionState.RunTask | src/agent_run.rs:392-424 | the exact accesses of one task; a command runs exactly when its id is not in the window; the busy marker is gone afterwards |
| SessionState.AgentSessionState.RunTasks | src/agent_run.rs:391-425 | whatever the heartbeat thread does meanwhile, one round makes exactly the accesses of its tasks in order, executes exactly the commands not in the window when they come up, and leaves no busy marker |
| SessionState.RoundIsInterleaving | src/agent_run.rs:391-425 | in particular a round can run undisturbed from any point, executing the same commands |
| SessionState.ReachedMeansPossible | src/pull.rs:229-251 | the history of the object is always a possible interleaving leading to its fields, made of what each thread did, so every theorem of `PullSession` applies to it |
| SessionState.AgentSessionState.OtherActs | src/pull.rs:349-379 | whatever the other thread does keeps the object on a possible interleaving and leaves the fields it does not write |
| Progress.SessionStarts | src/agent_run.rs:223-239 | a new session reaches the head of its loop and its heartbeat thread the top of its own |
| Progress.PulledTasksRun | src/agent_run.rs:366-428 | from the head of the loop, for every list of tasks a successful pull can bring, exactly those that are not duplicates are executed and the loop returns to its head with the failures forgotten |
| Progress.NewCommandRuns | src/agent_run.rs:391-425 | a command whose id is not in the window is executed |
| Progress.FailedPullIsRetried | src/agent_run.rs:434-445 | a failed pull leaves everything as it was and the loop comes back to try again |
| Progress.StoppedLoopLeaves | src/agent_run.rs:258-262 | a loop that finds the flag set leaves without another pull |
| Progress.ReportIsComposed | src/pull.rs:292-314 | startup tags if any, else pending ones, and the busy flag with the running command are what goes into the report |
| Progress.HeartbeatGoesOut | src/pull.rs:349-379 | a thread at the top of its loop sends; an answer clears the counter and the thread goes on |
| Progress.LostHeartbeatCounts | src/pull.rs:353-366 | a lost heartbeat counts one; below six the thread goes on, at six it sets the flag and stops |
| Progress.SilenceStopsSession | src/pull.rs:353-366 | with no answer and no completed round the thread can stop the session from any count |
| Progress.HeadIsReached | src/agent_run.rs:258-447 | wherever the loop is, unless it has left, it can come back to its head |
| Progress.EverySessionCanEnd | src/pull.rs:390-397 | no deadlock: from every reachable state the session can come to its end with the thread stopped |
| Progress.SessionCanBeLeft | src/agent_run.rs:250-256 | a session can be left before it enters the loop, before a pull and during one |
| Progress.NextSessionOpens | src/agent_run.rs:76-123 | the next session opens exactly when the last one has ended, and starts afresh |
| TagRefresh.SortedListingIsUnique | src/agent_run.rs:333-334 | a tag set has one strictly sorted listing, so sort then dedup is determined by its result |
| TagRefresh.SortDedupSorts | src/agent_run.rs:333-334 | sorting and dedup keep exactly the tags and leave them strictly ascending |
| TagRefresh.LessMeans | src/agent_run.rs:333 | the order of tags is decided at the first differing character, a prefix coming first |
| TagRefresh.HelperTagMeans | src/agent_run.rs:322-326 | the tags left out are exactly those in the three name spaces of the helpers |
| TagRefresh.Merge | src/agent_run.rs:321-334 | strictly sorted, and a tag is in the merged list exactly when it is a tag of the machine outside the helpers' name spaces or of one of the helpers |
| TagRefresh.TagRefresher.Refresh | src/agent_run.rs:312-364 | the queued set after one iteration exactly, with tags collected for each helper by itself: the union of the last change that could be collected, else as before |
| TagRefresh.TagRefresher.RefreshAll | src/agent_run.rs:312-364 | over any number of iterations the last queued set is the union with the latest probes |
| TagRefresh.TagRefresher.RefreshRounds | src/agent_run.rs:312-364 | for any helpers and any failures of either collection the queue holds the union as of the last change that could be collected |
| TagRefresh.LastChangeDecides | src/agent_run.rs:318-338 | that is the last change if collection worked then, else whatever was queued before it |
| TagRefresh.UpToDateIff | src/agent_run.rs:318-338 | the queue is up to date exactly when nothing was ever reported or that union is the one wanted now |
| TagRefresh.CollectedLastChangeIsQueued | src/agent_run.rs:318-338 | collection working at the last change is enough, whatever failed before |
| TagRefresh.TagRefresher.ChangeLostWhenCollectionFails | src/agent_run.rs:319-338 | a change of either helper seen while collection fails is never queued as long as the probes stay the same |
| Backoff.RunPullSession | src/agent_run.rs:258-447 | every sleep is the closed-form delay; a pull is made only after fewer than five failures; how a session ends |
| Backoff.SessionSleeps | src/agent_run.rs:284-295 | every sleep is the interval after a success or a first failure, else twice the one before up to the maximum; no pull follows five failures in a row |
| Backoff.PullLoop.RunIteration | src/pull.rs:483-509 | after every outcome, revocations included, the stored delay is the closed form for the failures since the last success |
| Backoff.PullLoop.Run | src/pull.rs:511-520 | sleeps exactly as the session loop does for the same history, and carries on after a revocation without sleeping |
| Backoff.SleepsOfStreak | src/agent_run.rs:443-444 | the sleeps of the failing streak a history ends in add up to the closed-form total |
| Backoff.FailingStreakIsShort | src/session_repair.rs:131-133 | up to the reset a failing streak sleeps at most 31 intervals |
| CredentialWatch.MixedGenerationIsNeverLater | src/session_repair.rs:32-58 | a generation mixed from two versions never equals that of a later version |
| CredentialWatch.StepKeepsInvariant | src/session_repair.rs:80-121 | reads, compares, loads and writes by anyone keep every copy settled or due for loading |
| CredentialWatch.Converges | src/agent_run.rs:264-282 | whenever no load is due, recorded generation equal to the disk's means the copy equals the disk, or that version failed to load, or an own save failed |
| CredentialWatch.StartsSettledIffCopiesAgree | src/session_repair.rs:70-77 | the invariant holds at creation exactly when both copies equal the disk |
| CredentialWatch.StaleCopyIsKept | src/session_repair.rs:86-120 | without further writes no number of checks repairs a copy that was stale at creation |
| CredentialWatch.QuietRunAgreesIffCopiesDid | src/session_repair.rs:70-77 | from creation, after any checks without another write both copies agree with the disk exactly when they did at creation |
| CredentialWatch.MissingAgainIsNotNoticed | src/session_repair.rs:86-99 | a key loaded between two absences and missing again at the next check looks unchanged |
| CredentialWatch.TellingIsNeeded | src/session_repair.rs:86-99 | for every history that ends missing and was missing before, some run looks unchanged without agreement |
| CredentialWatch.AgreementIffTelling | src/session_repair.rs:80-121 | looking unchanged means agreement on every run with a given history exactly when its newest version can be told from all others |
| CredentialWatch.OverwritesOnlyUnseen | src/config.rs:91-145 | the service saves over a version it does not hold only if no check has seen it, it could not be loaded, or an earlier save failed |
| CredentialWatch.OverwrittenIsNeverLoaded | src/agent_run.rs:264-282 | a version saved over is gone: until the next write disk and copy are what was saved |
| CredentialWatch.CredentialWatch.Check | src/session_repair.rs:80-121 | the object's check is the composition of the protocol's steps; a changed identity is reported first, then a changed key, then a changed configuration, each exactly when it is the case |
| CredentialWatch.CheckReads | src/session_repair.rs:86-87 | the reads of an undisturbed check are three steps of the protocol and see the newest versions |
| CredentialWatch.CheckCompares | src/session_repair.rs:86-99 | that composition compares and then loads as the protocol does |
| CredentialWatch.CheckBringsUpToDate | src/session_repair.rs:80-121 | one undisturbed check, with the load of the key it calls for, brings in every readable version not seen before and nothing else; it ends the session exactly when the configuration names another server or agent |
| CredentialWatch.EditsInOneSecond | src/session_repair.rs:47-58 | two edits of one length in one second are told apart exactly up to 4096 bytes |
| CredentialWatch.OwnWritesAreHeld | src/config.rs:91-145 | what the service writes itself it holds at once, and the file follows if the write works |
| TaskVerify.VerifyWithKey | src/task_verify.rs:105-122 | succeeds exactly when the text is a valid key under which the signature verifies |
| TaskVerify.VerifyServerTaskSigAny | src/task_verify.rs:32-78 | accepts exactly when some key that is not blank verifies, whatever the order and the malformed ones |
| TaskVerify.GenuineTaskIsAccepted | src/task_verify.rs:32-78 | a genuine signature is accepted wherever its key stands, whatever the other keys are |
| KeyContinuity.WalkContinuityChain | src/key_material.rs:134-157 | the cursor loop computes the recursive walk |
| KeyContinuity.HolderAttestsSuccessor | src/key_material.rs:159-178 | what the holder of a key signs about itself and its successor, in that order, is a valid attestation, white space around the texts or not |
| KeyContinuity.WalkFollowsLinks | src/key_material.rs:134-157 | a successful walk is a verified in-order subsequence of the chain from start to target |
| KeyContinuity.WalkGoesForwardOnly | src/key_material.rs:134-157 | over an honest chain of distinct keys the walk from key i to key j succeeds exactly when i is before j |
| KeyContinuity.ForeignLinksDoNotMatter | src/key_material.rs:140-143 | attestations of keys the walk never stands at can be inserted anywhere |
| KeyContinuity.NoisyChainGoesForwardOnly | src/key_material.rs:134-157 | forward only, also with foreign attestations mixed in |
| KeyMaterial.AgentConfig.ApplyKeyMaterial | src/key_material.rs:18-102 | reports a change exactly when the configuration differs; saves then and only then; a first key that is offered is installed |
| KeyMaterial.AgentConfig.ApplyTaskKeys | src/key_material.rs:21-56 | the task half: field by field it is the merge of the advertised keys, nothing else changes, and the flag says whether anything did |
| KeyMaterial.AgentConfig.ApplyReleaseKeys | src/key_material.rs:58-96 | the release half: the same merge without a chain, although the code also skips a previous key it already holds |
| KeyMaterial.AgentConfig.Save | src/config.rs:91-145 | writes the whole configuration or leaves the file as it was |
| KeyMaterial.AgentConfig.ApplyTwice | src/key_material.rs:98-101 | the same payload again changes nothing and says so; file and memory end apart exactly when there was a change and its save failed |
| KeyMaterial.ApplyingAgainIsNoop | src/key_material.rs:18-102 | applying a payload is idempotent for every configuration |
| KeyMaterial.FirstKeyIsInstalled | src/key_material.rs:118 | the first key offered is trusted |
| KeyMaterial.InstalledIffAttested | src/key_material.rs:119-130 | a later key is installed exactly when the key in use attests it, itself or through the chain |
| KeyMaterial.HonestSuccessorIsInstalled | src/key_material.rs:126-128 | an honest chain, also with foreign attestations in it, takes the agent from any of its keys to any later one |
| KeyMaterial.PreviousAfterMerge | src/key_material.rs:31-56 | the previous key is the one advertised, else the key just replaced, else what it was |
| KeyMaterial.ReleaseKeysIgnoreChains | src/key_material.rs:58-70 | a chain does not change which release key is installed |
| KeyMaterial.MergeKeepsLineage | src/key_material.rs:110-132 | a promoted key descends from the current one by verified links |
| KeyMaterial.AcceptedUnderEitherKey | src/agent_run.rs:468-480 | a task is accepted exactly under the current or the previous key, and never without a current one |
| KeyMaterial.KeysKeepTheirLineage | src/key_material.rs:18-132 | after any payloads task and release key descend from every earlier one and are never unset |
| KeyMaterial.AcceptedTasksStayAccepted | src/agent_run.rs:468-480 | a task accepted under the current key stays accepted unless a promotion names another previous key |
| KeyMaterial.OnlyChainsReplaceOverlap | src/key_material.rs:121-128 | only a promotion by chain can be that exception |
| KeyMaterial.AcceptedAfterReplacement | src/key_material.rs:44-52 | in the exception exactly the tasks of the new key and of the named key are accepted |
| KeyMaterial.OverlapCanBeLost | src/key_material.rs:44-52 | the exception occurs: a concrete payload after which a task of the old key is refused |
| IdentityRotation.StepKeepsInvariant | src/key_material.rs:181-214 | every step, failure, lost reply, crash and restart keeps files, memory and server consistent |
| IdentityRotation.AcceptedSeedIsNeverLost | src/key_material.rs:181-214 | some key file always holds a seed the server accepts, and so does the running agent |
| IdentityRotation.SuccessMeansAgreement | src/key_material.rs:204-213 | success means memory, key file and registered key agree and no next key is left |
| IdentityRotation.LeftoverNextSurvives | src/signing.rs:98-103 | an existing next key is never destroyed, and blocks later rotations |
| IdentityRotation.RegisteredNextIsKept | src/key_material.rs:199-207 | no step destroys a next key the server has registered: it stays or becomes the key file |
| IdentityRotation.RotationPossibleIffNoLeftover | src/key_material.rs:189-190 | an enrolled agent can complete a rotation exactly when no next key file is in the way |
| IdentityRotation.RefusedAttemptCanBeRepeated | src/key_material.rs:199-202 | a refused attempt that cleans up leaves the agent as it was, and a later one can succeed |
| IdentityRotation.RecoversIffKeyFile | src/agent_run.rs:158-170 | after a crash the agent gets a key again, without enrolling, exactly when the key file is there |
| IdentityRotation.CrashBetweenRenamesLosesKeyFile | src/key_material.rs:204-207 | a crash between the renames of a confirmed rotation leaves the registered key in the next file and no way back to it |
| IdentityRotation.AgentIdentity.GenerateAtNext | src/signing.rs:92-139 | refuses to overwrite; one creation step of the protocol |
| IdentityRotation.AgentIdentity.RotateAgentCredential | src/key_material.rs:181-214 | for every combination of outcomes exactly these protocol events, when it succeeds, when the server registers the new key, and what the three key files and the key in memory are afterwards |
| Release.SignRelease | src/bin/sign-release.rs:55-66 | signs the canonical message for a known kind, else refuses |
| Release.CanonicalLines | src/updater.rs:86-90 | the canonical message is the five lines v1, kind, version, expected hash, hash found |
| Release.LowerMeans | src/updater.rs:69 | hashes are compared without regard to the case of letters, and only that |
| Release.ReleaseVerifyKeys | src/updater.rs:600-611 | current key first, then the previous one, no blanks, no repetition |
| Release.VerifyContentSignature | src/updater.rs:566-598 | accepts exactly when a key signs the bytes and every earlier key is base64 |
| Release.VerifyBytes | src/updater.rs:67-107 | accepts exactly when the hash matches and content or canonical signature verifies; each error exactly in its case |
| Release.SignedReleaseIsAccepted | src/updater.rs:67-107 | what is signed is accepted, with the signing key current or previous |
| Release.SignedContentIsAccepted | src/updater.rs:81-84 | a signature over the file itself is accepted too, by the current or the previous key, whatever the case of the hash |
| Release.CanonicalIsInjective | src/bin/sign-release.rs:62-65 | the message determines kind, version and hash even if the version holds newlines |
| Release.SignatureBindsRelease | src/updater.rs:81-104 | a signature that fits one message under the artifact's keys installs only that kind, version and hash, or the message itself as a file |
| Release.MalformedKeyHidesLaterKeys | src/updater.rs:583-590 | the content check depends on key order when a key is not base64 |
| Updater.CopyRegularNofollow | src/updater.rs:274-296 | success means a whole copy; at every moment only the destination is touched |
| Updater.ReplaceFileDirect | src/updater.rs:421-454 | the data is whole at one of the two paths at every moment; success puts it at the destination, failure leaves it at the source; except on Windows the destination is never missing |
| Updater.ElevatedMove | src/updater.rs:486-497 | the data is whole at source or destination at every moment, and where the result says afterwards |
| Updater.ElevatedInstall | src/updater.rs:500-512 | the source is kept throughout; success leaves a whole copy |
| Updater.ReplaceFileElevated | src/updater.rs:457-474 | the same for the elevated path |
| Updater.ReplaceFile | src/updater.rs:405-419 | the same for direct, then elevated; the attempt is on record; a possible move fails only if renaming did, and for the service user only if `mv` and `install` did too; nobody else asks for elevated rights |
| Updater.WriteVerified | src/updater.rs:326-334 | success means exactly the given bytes at the verified path; on failure nothing is left there unless the removal failed too; no other path but staging is touched |
| Updater.Stage | src/updater.rs:114-125 | success means the bytes staging held when read, accepted, and whole at the verified path, whatever happened to the staging file meanwhile |
| Updater.BackUp | src/updater.rs:127-140 | the original is whole in place or in the backup throughout |
| Updater.Install | src/updater.rs:142-154 | original or accepted bytes whole throughout; on failure the original is back in place, or putting it back was attempted, failed, and it is in the backup |
| Updater.Swap | src/updater.rs:127-154 | backing up and installing together, with staging changing in between |
| Updater.Apply | src/updater.rs:113-155 | crash safety at every step; exact result on success; on failure the original is in place unless a recorded rollback failed, and then in the backup; an acceptable release fails only if an operation did, and for the service user a move only if all three ways did |
| TreeCopy.CopyFileNofollow | src/commands/file_ops.rs:336-388 | success adds exactly a copy of a regular file; nothing outside the destination changes |
| TreeCopy.DirMirrors | src/commands/file_ops.rs:517-546 | a directory is mirrored once its entries are and nothing else was added |
| TreeCopy.CopyEntry | src/commands/file_ops.rs:520-545 | links and special files are refused; anything else copied is mirrored; a plain tree is refused only if an operation failed |
| TreeCopy.CopyEntries | src/commands/file_ops.rs:517-546 | the loop mirrors one entry after another and touches nothing outside the destination |
| TreeCopy.CreateDirAll | src/commands/file_ops.rs:514-516 | makes exactly the missing parents and the directory; nothing is made at the path itself on failure |
| TreeCopy.CopyDirRecursiveInner | src/commands/file_ops.rs:513-548 | terminates, nesting no deeper than the size of the tree; success mirrors the source tree; changes stay below the destination but for missing parents |
| TreeCopy.CopyDirRecursive | src/commands/file_ops.rs:499-511 | success mirrors; failure leaves the disk as before, but for missing parents, unless a recorded removal failed; without faults it succeeds exactly for a directory without links and special files and a reachable destination; an existing destination is refused |
| TreeCopy.RestoredExactly | src/commands/file_ops.rs:499-511 | if the parent of the destination was there, as before means exactly as before |
| TreeCopy.CopyIntoItselfRepeats | src/commands/file_ops.rs:513-537 | in whatever state the turn of the inner entry comes, the copy meets the same situation one level deeper |
| TreeCopy.CopyIntoItselfNeverFinishes | src/commands/file_ops.rs:513-548 | no nesting depth is enough for a copy into its own source to succeed, while one outside needs at most the size of the tree |
| ShellQuote.ReadEscaped | src/desktop_ipc/mod.rs:138-140 | in front of any text, a quoted value reads as that one word |
| ShellQuote.EscapedIsOneWord | src/desktop_ipc/mod.rs:138-140 | quoting then tokenising gives back the single word |
| ShellQuote.NeedsFix | src/desktop_ipc/mod.rs:55-67 | true exactly when a path has another group or is present but does not tell its group |
| ShellQuote.BuildScript | src/desktop_ipc/mod.rs:72-88 | the script parses to exactly the intended chgrp and chmod commands |
| ShellQuote.RepairScript | src/desktop_ipc/mod.rs:41-88 | a script is produced exactly when a present path has the wrong group or does not tell it, and parses as intended |
| LimitedRead.ReadFromReader | src/commands/shell_run.rs:193-218 | first min(n, limit) bytes and truncated exactly when n exceeds the limit, for every chunking |
| LimitedRead.StreamIsTheChunks | src/commands/shell_run.rs:200-214 | what the reader hands over up to its end is the stream, in order |

## Left out

- HTTP, TLS, sockets, child processes and sudo itself: they appear only as outcomes (answered, lost, refused, failed). An elevated `mv` that reports failure is taken to have left its source in place.
- Power loss: a crash stops the process between two file operations; what a disk cache may reorder is not modelled.
- Permissions, owners and modes of files, and directories as the source or target of a rename.
- `exists()` is taken to be faithful; the model does not cover a stat that fails for a file that is there.
- Health timing: the `healthy` flag and the ages in a heartbeat depend on clocks and are not modelled.
- The runtime mode, status file and server state sync: they touch none of the modelled state except that a revocation ends the session, which is the `Leave` step.
- `hecate_protocol` is not part of this model: the task canonical string and the continuity message are unknown functions, and policy checks are absent.
- The state of the two IPC paths is taken not to change during one repair.
- Enrollment, which is what gives an agent without a key file a key again.
- The name of the IPC group comes from a crate that is not part of this model; any plain word will do. Paths are taken as text, without the lossy conversion of non-UTF-8 names.
- `to_lowercase` on the expected hash is modelled on ASCII letters; no other character maps to a hexadecimal digit.
- Duration overflow: delays are unbounded numbers.
- IdentityRotation: a newly generated seed is assumed to be one the server does not accept yet (256 random bits).
- The mutex around the shared keypair (which key a heartbeat signs with) and the time of the last successful pull are not part of `PullSession`.
- Distinct generations: two writes that leave modification second, length and content tag all equal are excluded by assumption, as is a collision of the 64-bit content tag.
- The override of `key_path` after loading the configuration; a copy of the configuration is its content.
- Text decoding after the bounded read, which can lengthen the output.
- Updater.Apply: requires the four paths to be distinct, which fails only if the installed binary itself has the extension `prev` or the download is staged onto it.
- TreeCopy.CopyDirRecursive: requires a destination outside the source, since the source otherwise recurses into its own output (`CopyIntoItselfNeverFinishes`). Outside is a matter of path text: a parent of the destination that is a link into the source is not modelled, nor is a source that changes during the copy.
- CredentialWatch.Converges: the enroll command's truncate-then-write is two writes by another process; how a partial write is split is not fixed.
- `atomic_write_file`, enrollment with its key backup, command schemas, status printing and version parsing: they would add only easy members.
