/** Replacing the running binary with backup and rollback (src/updater.rs). */
module Updater {
  import opened Wrappers
  import opened Crypto
  import opened FileSystem
  import Release

  datatype UpdaterError = Unreadable | Rejected(reason: Release.ReleaseError) | StagingFailed | Aborted

  const COPY_CHUNK: nat := 8192

  /** Every state since position `n` differs from `start` at most at the two paths. */
  ghost predicate OnlyTouched(past: seq<Snapshot>, n: nat, start: Snapshot, src: Path, dest: Path) {
    forall k :: n <= k < |past| ==> SameExcept(past[k], start, {src, dest})
  }

  ghost predicate SourceKept(past: seq<Snapshot>, n: nat, start: Snapshot, src: Path) {
    forall k :: n <= k < |past| ==> SameAt(past[k], start, src)
  }

  /** At every moment since `n` the data was whole at one of the two paths. */
  ghost predicate NeverLost(past: seq<Snapshot>, n: nat, src: Path, dest: Path, data: Bytes) {
    forall k :: n <= k < |past| ==> Holds(past[k], src, data) || Holds(past[k], dest, data)
  }

  /** There was something at `dest` at every moment since `n`. */
  ghost predicate NeverMissing(past: seq<Snapshot>, n: nat, dest: Path) {
    forall k :: n <= k < |past| ==> dest in past[k]
  }

  /** `src` can be put at `dest`, by renaming it or by copying it. */
  predicate CanMove(s: Snapshot, src: Path, dest: Path) {
    IsFile(s, src) && (dest in s ==> s[dest].File? || s[dest].Link?)
  }

  /** A moved file is as it was, or gone. */
  ghost predicate KeptOrGone(s: Snapshot, start: Snapshot, src: Path) {
    src in s ==> SameAt(s, start, src)
  }

  lemma OneChanged(s: Snapshot, src: Path, dest: Path, p: Path, node: Node)
    requires p == src || p == dest
    ensures SameExcept(s[p := node], s, {src, dest})
    ensures SameExcept(s - {p}, s, {src, dest})
  {
    assert s[p := node] - {src, dest} == s - {src, dest};
    assert s - {p} - {src, dest} == s - {src, dest};
  }

  /** Appends the file at `src` to the empty file at `dest`, chunk by chunk. */
  method CopyChunks(disk: Disk, src: Path, dest: Path) returns (ok: bool)
    requires src != dest && IsFile(disk.nodes, src) && Holds(disk.nodes, dest, [])
    modifies disk`nodes, disk`past, disk`faults
    ensures old(disk.past) <= disk.past
    ensures OnlyTouched(disk.past, |old(disk.past)|, old(disk.nodes), src, dest)
    ensures SourceKept(disk.past, |old(disk.past)|, old(disk.nodes), src)
    ensures SameExcept(disk.nodes, old(disk.nodes), {src, dest}) && SameAt(disk.nodes, old(disk.nodes), src)
    ensures ok ==> Holds(disk.nodes, dest, old(disk.nodes)[src].data)
    ensures IsFile(disk.nodes, dest) && NeverMissing(disk.past, |old(disk.past)|, dest)
    ensures old(disk.faults) <= disk.faults && (!ok ==> disk.faults > old(disk.faults))
  {
    ghost var data := disk.nodes[src].data;
    var offset := 0;
    while true
      invariant old(disk.past) <= disk.past
      invariant OnlyTouched(disk.past, |old(disk.past)|, old(disk.nodes), src, dest)
      invariant SourceKept(disk.past, |old(disk.past)|, old(disk.nodes), src)
      invariant SameExcept(disk.nodes, old(disk.nodes), {src, dest})
      invariant Holds(disk.nodes, src, data)
      invariant disk.faults == old(disk.faults) && NeverMissing(disk.past, |old(disk.past)|, dest)
      invariant offset <= |data| && Holds(disk.nodes, dest, data[..offset])
      decreases |data| - offset
    {
      var chunk := disk.ReadSome(src, offset, COPY_CHUNK);
      if chunk.None? {
        return false;
      }
      if chunk.value == [] {
        assert data[..offset] == data;
        return true;
      }
      assert data[..offset] + chunk.value == data[..offset + |chunk.value|];
      ghost var before := disk.nodes;
      var written := disk.Append(dest, chunk.value);
      OneChanged(before, src, dest, dest, disk.nodes[dest]);
      if !written {
        return false;
      }
      offset := offset + |chunk.value|;
    }
  }

  /** May stop half way through the destination; never touches the source. */
  method CopyRegularNofollow(disk: Disk, src: Path, dest: Path) returns (ok: bool)
    requires src != dest
    modifies disk`nodes, disk`past, disk`faults
    ensures old(disk.past) <= disk.past
    ensures OnlyTouched(disk.past, |old(disk.past)|, old(disk.nodes), src, dest)
    ensures SourceKept(disk.past, |old(disk.past)|, old(disk.nodes), src)
    ensures SameExcept(disk.nodes, old(disk.nodes), {src, dest}) && SameAt(disk.nodes, old(disk.nodes), src)
    ensures ok ==>
              && IsFile(old(disk.nodes), src)
              && Holds(disk.nodes, dest, old(disk.nodes)[src].data)
    ensures old(disk.faults) <= disk.faults
    ensures CanMove(old(disk.nodes), src, dest) ==> CanMove(disk.nodes, src, dest)
    ensures dest in old(disk.nodes) && !old(disk.nodes)[dest].Link? ==>
              dest in disk.nodes && NeverMissing(disk.past, |old(disk.past)|, dest)
    ensures !ok && CanMove(old(disk.nodes), src, dest) ==> disk.faults > old(disk.faults)
  {
    ghost var start := disk.nodes;
    OneChanged(start, src, dest, dest, File([]));
    if dest in disk.nodes && disk.nodes[dest].Link? {
      var removed := disk.RemoveFile(dest);
      if !removed {
        return false;
      }
    }
    if !IsFile(disk.nodes, src) {
      return false;
    }
    OneChanged(disk.nodes, src, dest, dest, File([]));
    var truncated := disk.Truncate(dest);
    if !truncated {
      return false;
    }
    ok := CopyChunks(disk, src, dest);
    if ok {
      ok := disk.Sync();
    }
  }

  /** What this process may do, and on which platform it runs. */
  datatype Platform = Platform(windows: bool, privileged: bool, elevationAvailable: bool) {
    /** The service user, who can ask for more rights. */
    predicate MayElevate() {
      !privileged && elevationAvailable
    }
  }

  /** Across devices: the source goes once the copy is whole. */
  method CopyThenRemove(disk: Disk, src: Path, dest: Path, ghost data: Bytes) returns (ok: bool)
    requires src != dest
    modifies disk`nodes, disk`past, disk`faults
    ensures old(disk.past) <= disk.past
    ensures OnlyTouched(disk.past, |old(disk.past)|, old(disk.nodes), src, dest)
    ensures SameExcept(disk.nodes, old(disk.nodes), {src, dest}) && KeptOrGone(disk.nodes, old(disk.nodes), src)
    ensures old(disk.faults) <= disk.faults
    ensures dest in old(disk.nodes) && !old(disk.nodes)[dest].Link? ==>
              dest in disk.nodes && NeverMissing(disk.past, |old(disk.past)|, dest)
    ensures !ok && CanMove(old(disk.nodes), src, dest) ==>
              disk.faults > old(disk.faults) && CanMove(disk.nodes, src, dest)
    ensures ok && src in disk.nodes ==> disk.faults > old(disk.faults)
    ensures Holds(old(disk.nodes), src, data) ==>
              && NeverLost(disk.past, |old(disk.past)|, src, dest, data)
              && Holds(disk.nodes, if ok then dest else src, data)
  {
    ok := CopyRegularNofollow(disk, src, dest);
    if ok {
      OneChanged(disk.nodes, src, dest, src, File([]));
      var _ := disk.RemoveFile(src);
    }
  }

  method ReplaceFileDirect(disk: Disk, platform: Platform, src: Path, dest: Path, ghost data: Bytes) returns (ok: bool)
    requires src != dest
    modifies disk`nodes, disk`past, disk`faults
    ensures old(disk.past) <= disk.past
    ensures OnlyTouched(disk.past, |old(disk.past)|, old(disk.nodes), src, dest)
    ensures SameExcept(disk.nodes, old(disk.nodes), {src, dest}) && KeptOrGone(disk.nodes, old(disk.nodes), src)
    ensures old(disk.faults) <= disk.faults
    ensures !platform.windows && dest in old(disk.nodes) && !old(disk.nodes)[dest].Link? ==>
              dest in disk.nodes && NeverMissing(disk.past, |old(disk.past)|, dest)
    ensures !ok && CanMove(old(disk.nodes), src, dest) ==>
              disk.faults > old(disk.faults) && CanMove(disk.nodes, src, dest)
    ensures ok && src in disk.nodes ==> disk.faults > old(disk.faults)
    ensures Holds(old(disk.nodes), src, data) ==>
              && NeverLost(disk.past, |old(disk.past)|, src, dest, data)
              && Holds(disk.nodes, if ok then dest else src, data)
  {
    if platform.windows && Exists(disk.nodes, dest) {
      OneChanged(disk.nodes, src, dest, dest, File([]));
      var removed := disk.RemoveFile(dest);
      if !removed {
        return false;
      }
    }
    ghost var before := disk.nodes;
    var renamed := disk.Rename(src, dest);
    match renamed
    case Renamed =>
      assert disk.nodes - {src, dest} == before - {src, dest};
      return true;
    case RenameFailed =>
      return false;
    case CrossesDevices =>
      ok := CopyThenRemove(disk, src, dest, data);
  }

  /** `mv -f` run with elevated rights: a rename, or a copy followed by removing the source. */
  method ElevatedMove(disk: Disk, src: Path, dest: Path, ghost data: Bytes) returns (ok: bool)
    requires src != dest
    modifies disk`nodes, disk`past, disk`faults
    ensures old(disk.past) <= disk.past
    ensures OnlyTouched(disk.past, |old(disk.past)|, old(disk.nodes), src, dest)
    ensures SameExcept(disk.nodes, old(disk.nodes), {src, dest}) && KeptOrGone(disk.nodes, old(disk.nodes), src)
    ensures old(disk.faults) <= disk.faults
    ensures ok ==> src !in disk.nodes
    ensures !ok && CanMove(old(disk.nodes), src, dest) ==>
              disk.faults > old(disk.faults) && CanMove(disk.nodes, src, dest)
    ensures Holds(old(disk.nodes), src, data) ==>
              && NeverLost(disk.past, |old(disk.past)|, src, dest, data)
              && Holds(disk.nodes, if ok then dest else src, data)
  {
    var renamed := disk.Rename(src, dest);
    if !renamed.CrossesDevices? {
      assert disk.nodes - {src, dest} == old(disk.nodes) - {src, dest};
      return renamed.Renamed?;
    }
    OneChanged(disk.nodes, src, dest, dest, File([]));
    var _ := disk.RemoveFile(dest);
    ok := CopyRegularNofollow(disk, src, dest);
    if ok {
      OneChanged(disk.nodes, src, dest, src, File([]));
      ok := disk.RemoveFile(src);
    }
  }

  /** `install -m 755` run with elevated rights: a fresh copy, the source stays. */
  method ElevatedInstall(disk: Disk, src: Path, dest: Path) returns (ok: bool)
    requires src != dest
    modifies disk`nodes, disk`past, disk`faults
    ensures old(disk.past) <= disk.past
    ensures OnlyTouched(disk.past, |old(disk.past)|, old(disk.nodes), src, dest)
    ensures SourceKept(disk.past, |old(disk.past)|, old(disk.nodes), src)
    ensures SameExcept(disk.nodes, old(disk.nodes), {src, dest}) && SameAt(disk.nodes, old(disk.nodes), src)
    ensures ok ==>
              && IsFile(old(disk.nodes), src)
              && Holds(disk.nodes, dest, old(disk.nodes)[src].data)
    ensures old(disk.faults) <= disk.faults
    ensures !ok && CanMove(old(disk.nodes), src, dest) ==> disk.faults > old(disk.faults)
  {
    OneChanged(disk.nodes, src, dest, dest, File([]));
    var _ := disk.RemoveFile(dest);
    ok := CopyRegularNofollow(disk, src, dest);
  }

  method ReplaceFileElevated(disk: Disk, platform: Platform, src: Path, dest: Path, ghost data: Bytes)
    returns (ok: bool)
    requires src != dest
    modifies disk`nodes, disk`past, disk`faults, disk`elevations
    ensures disk.elevations == old(disk.elevations) + 1
    ensures old(disk.past) <= disk.past
    ensures OnlyTouched(disk.past, |old(disk.past)|, old(disk.nodes), src, dest)
    ensures SameExcept(disk.nodes, old(disk.nodes), {src, dest}) && KeptOrGone(disk.nodes, old(disk.nodes), src)
    ensures old(disk.faults) <= disk.faults
    ensures ok && src in disk.nodes ==> disk.faults > old(disk.faults)
    ensures !ok && !platform.windows && CanMove(old(disk.nodes), src, dest) ==>
              disk.faults >= old(disk.faults) + 2
    ensures Holds(old(disk.nodes), src, data) ==>
              && NeverLost(disk.past, |old(disk.past)|, src, dest, data)
              && Holds(disk.nodes, if ok then dest else src, data)
  {
    disk.elevations := disk.elevations + 1;
    if platform.windows {
      return false;
    }
    ok := ElevatedMove(disk, src, dest, data);
    if !ok {
      ok := ElevatedInstall(disk, src, dest);
      if ok {
        OneChanged(disk.nodes, src, dest, src, File([]));
        var _ := disk.RemoveFile(src);
      }
    }
  }

  /** Direct first, elevated when this process lacks the rights and can get them. */
  method ReplaceFile(disk: Disk, platform: Platform, src: Path, dest: Path, ghost data: Bytes) returns (ok: bool)
    requires src != dest
    modifies disk
    ensures old(disk.past) <= disk.past
    ensures OnlyTouched(disk.past, |old(disk.past)|, old(disk.nodes), src, dest)
    ensures SameExcept(disk.nodes, old(disk.nodes), {src, dest}) && KeptOrGone(disk.nodes, old(disk.nodes), src)
    ensures disk.attempts == old(disk.attempts) + [Moved(src, dest, ok)]
    ensures old(disk.faults) <= disk.faults
    ensures !ok && CanMove(old(disk.nodes), src, dest) ==>
              disk.faults >= old(disk.faults) + if platform.MayElevate() && !platform.windows then 3 else 1
    ensures ok && src in disk.nodes ==> disk.faults > old(disk.faults)
    ensures old(disk.elevations) <= disk.elevations
    ensures disk.elevations > old(disk.elevations) ==> platform.MayElevate()
    ensures Holds(old(disk.nodes), src, data) ==>
              && NeverLost(disk.past, |old(disk.past)|, src, dest, data)
              && Holds(disk.nodes, if ok then dest else src, data)
  {
    ok := ReplaceFileDirect(disk, platform, src, dest, data);
    if !ok && !platform.privileged && platform.elevationAvailable {
      ok := ReplaceFileElevated(disk, platform, src, dest, data);
    }
    disk.attempts := disk.attempts + [Moved(src, dest, ok)];
  }

  /** The four paths of one update; staging belongs to whoever downloaded the file. */
  datatype InstallPaths = InstallPaths(current: Path, backup: Path, staging: Path, verified: Path) {
    predicate Distinct() {
      && current != backup && current != staging && current != verified
      && backup != staging && backup != verified && staging != verified
    }

    ghost function All(): set<Path> {
      {current, backup, staging, verified}
    }
  }

  /** The old binary is whole in place or in the backup, or the accepted new one is in place. */
  ghost predicate Safe(s: Snapshot, paths: InstallPaths, original: Bytes, accepted: Bytes) {
    || Holds(s, paths.current, original)
    || Holds(s, paths.backup, original)
    || Holds(s, paths.current, accepted)
  }

  ghost predicate AlwaysSafe(past: seq<Snapshot>, n: nat, paths: InstallPaths, original: Bytes, accepted: Bytes) {
    forall k :: n <= k < |past| ==> Safe(past[k], paths, original, accepted)
  }

  /** Nothing but the four paths was ever touched since `n`. */
  ghost predicate Confined(past: seq<Snapshot>, n: nat, start: Snapshot, paths: InstallPaths) {
    forall k :: n <= k < |past| ==> SameExcept(past[k], start, paths.All())
  }

  lemma Widen(s: Snapshot, t: Snapshot, some: set<Path>, all: set<Path>)
    requires SameExcept(s, t, some) && some <= all
    ensures SameExcept(s, t, all)
  {
    assert s - all == s - some - all;
    assert t - all == t - some - all;
  }

  /** What happens between two of the four paths stays confined to them. */
  lemma StaysConfined(past: seq<Snapshot>, n: nat, start: Snapshot, src: Path, dest: Path, paths: InstallPaths)
    requires OnlyTouched(past, n, start, src, dest)
    requires src in paths.All() && dest in paths.All()
    ensures Confined(past, n, start, paths)
  {
    forall k | n <= k < |past| ensures SameExcept(past[k], start, paths.All()) {
      Widen(past[k], start, {src, dest}, paths.All());
    }
  }

  /** A third path keeps its content while a file moves between two others. */
  lemma ThirdPathKept(past: seq<Snapshot>, n: nat, start: Snapshot, src: Path, dest: Path, third: Path)
    requires OnlyTouched(past, n, start, src, dest) && third != src && third != dest
    ensures SourceKept(past, n, start, third)
  {
    forall k | n <= k < |past| ensures SameAt(past[k], start, third) {
      SameAtOthers(past[k], start, {src, dest}, third);
    }
  }

  /**
    Writes the verified bytes under a new name. If that fails, what was written is gone again
    unless the removal failed as well.
  */
  method WriteVerified(disk: Disk, paths: InstallPaths, bytes: Bytes) returns (ok: bool)
    requires paths.Distinct()
    modifies disk`nodes, disk`past, disk`faults
    ensures old(disk.past) <= disk.past
    ensures OnlyTouched(disk.past, |old(disk.past)|, old(disk.nodes), paths.verified, paths.staging)
    ensures SameExcept(disk.nodes, old(disk.nodes), {paths.verified, paths.staging})
    ensures ok ==> Holds(disk.nodes, paths.verified, bytes)
    ensures old(disk.faults) <= disk.faults
    ensures !ok && paths.verified !in old(disk.nodes) ==> disk.faults > old(disk.faults)
    ensures !ok && paths.verified in disk.nodes && !IsDir(disk.nodes, paths.verified) ==>
              disk.faults > old(disk.faults) + if paths.verified in old(disk.nodes) then 0 else 1
  {
    ghost var start := disk.nodes;
    OneChanged(disk.nodes, paths.verified, paths.staging, paths.verified, File([]));
    ok := disk.CreateNew(paths.verified);
    if ok {
      ghost var before := disk.nodes;
      assert [] + bytes == bytes;
      ok := disk.Append(paths.verified, bytes);
      OneChanged(before, paths.verified, paths.staging, paths.verified, disk.nodes[paths.verified]);
      if ok {
        ok := disk.Sync();
      }
    }
    if !ok {
      OneChanged(disk.nodes, paths.verified, paths.staging, paths.verified, File([]));
      var _ := disk.RemoveFile(paths.verified);
    }
  }

  /** The staging file holds an acceptable release and the new name is free. */
  ghost predicate CanStage(scheme: Scheme, artifact: Release.Artifact, s: Snapshot, paths: InstallPaths) {
    && IsFile(s, paths.staging)
    && Release.Accepts(scheme, s[paths.staging].data, artifact)
    && paths.verified !in s
  }

  /** The current binary, if there is one, can be moved to the backup's place. */
  predicate CanBackUp(s: Snapshot, paths: InstallPaths) {
    (paths.current in s ==> IsFile(s, paths.current)) && !IsDir(s, paths.backup)
  }

  /** Reads the staging file once, verifies what was read, and writes exactly that. */
  method Stage(disk: Disk, scheme: Scheme, artifact: Release.Artifact, paths: InstallPaths)
    returns (r: Result<Bytes, UpdaterError>)
    requires paths.Distinct()
    modifies disk`nodes, disk`past, disk`faults
    ensures old(disk.past) <= disk.past
    ensures OnlyTouched(disk.past, |old(disk.past)|, old(disk.nodes), paths.verified, paths.staging)
    ensures SameExcept(disk.nodes, old(disk.nodes), {paths.verified, paths.staging})
    ensures r.Ok? ==>
              && Holds(old(disk.nodes), paths.staging, r.value)
              && Release.Accepts(scheme, r.value, artifact)
              && Holds(disk.nodes, paths.verified, r.value)
    ensures old(disk.faults) <= disk.faults
    ensures r.Err? && CanStage(scheme, artifact, old(disk.nodes), paths) ==> disk.faults > old(disk.faults)
  {
    var read := disk.ReadAll(paths.staging);
    if read.None? {
      return Err(Unreadable);
    }
    ghost var before := disk.nodes;
    disk.OtherProcess(paths.staging);
    Widen(disk.nodes, before, {paths.staging}, {paths.verified, paths.staging});
    SameAtOthers(disk.nodes, before, {paths.staging}, paths.verified);
    var verdict := Release.VerifyBytes(scheme, read.value, artifact);
    if verdict.Err? {
      return Err(Rejected(verdict.error));
    }
    var written := WriteVerified(disk, paths, read.value);
    if !written {
      return Err(StagingFailed);
    }
    return Ok(read.value);
  }

  /** Drops a stale backup and moves the current binary there. */
  method BackUp(disk: Disk, platform: Platform, paths: InstallPaths, ghost original: Bytes) returns (ok: bool)
    requires paths.Distinct()
    modifies disk
    ensures old(disk.past) <= disk.past
    ensures OnlyTouched(disk.past, |old(disk.past)|, old(disk.nodes), paths.current, paths.backup)
    ensures SameExcept(disk.nodes, old(disk.nodes), {paths.current, paths.backup})
    ensures KeptOrGone(disk.nodes, old(disk.nodes), paths.current)
    ensures old(disk.attempts) <= disk.attempts && old(disk.faults) <= disk.faults
    ensures !ok && CanBackUp(old(disk.nodes), paths) ==>
              disk.faults >= old(disk.faults) +
                if disk.attempts != old(disk.attempts) && platform.MayElevate() && !platform.windows then 3 else 1
    ensures ok && !Exists(old(disk.nodes), paths.current) ==> !Exists(disk.nodes, paths.backup)
    ensures disk.elevations > old(disk.elevations) ==> platform.MayElevate()
    ensures old(disk.elevations) <= disk.elevations
    ensures Holds(old(disk.nodes), paths.current, original) ==>
              && NeverLost(disk.past, |old(disk.past)|, paths.current, paths.backup, original)
              && Holds(disk.nodes, if ok then paths.backup else paths.current, original)
  {
    if Exists(disk.nodes, paths.backup) {
      OneChanged(disk.nodes, paths.current, paths.backup, paths.backup, File([]));
      var removed := disk.RemoveFile(paths.backup);
      if !removed {
        return false;
      }
    }
    ok := true;
    if Exists(disk.nodes, paths.current) {
      ok := ReplaceFile(disk, platform, paths.current, paths.backup, original);
    }
  }

  /** Neither the new file could be put in place nor the backup put back. */
  function FailedTwice(paths: InstallPaths): seq<Attempt> {
    [Moved(paths.verified, paths.current, false), Moved(paths.backup, paths.current, false)]
  }

  /** The last two moves attempted since `before` were those, in vain. */
  ghost predicate RollbackFailed(before: seq<Attempt>, now: seq<Attempt>, paths: InstallPaths) {
    |before| + 2 <= |now| && now[|now| - 2..] == FailedTwice(paths)
  }

  /** Moves the verified file into place and puts the backup back if that fails. */
  method Install(disk: Disk, platform: Platform, paths: InstallPaths, ghost original: Bytes, ghost accepted: Bytes)
    returns (ok: bool)
    requires paths.Distinct() && Holds(disk.nodes, paths.verified, accepted)
    modifies disk
    ensures old(disk.past) <= disk.past
    ensures Confined(disk.past, |old(disk.past)|, old(disk.nodes), paths)
    ensures SameExcept(disk.nodes, old(disk.nodes), paths.All())
    ensures ok ==>
              && Holds(disk.nodes, paths.current, accepted)
              && (paths.verified in disk.nodes ==> disk.faults > old(disk.faults))
    ensures Holds(old(disk.nodes), paths.backup, original) ==>
              && AlwaysSafe(disk.past, |old(disk.past)|, paths, original, accepted)
              && (ok ==> Holds(disk.nodes, paths.backup, original))
              && (!ok ==>
                    || Holds(disk.nodes, paths.current, original)
                    || (Holds(disk.nodes, paths.backup, original) &&
                        disk.attempts == old(disk.attempts) + FailedTwice(paths)))
    ensures old(disk.attempts) <= disk.attempts && old(disk.faults) <= disk.faults
    ensures !ok && CanMove(old(disk.nodes), paths.verified, paths.current) ==>
              disk.faults >= old(disk.faults) + if platform.MayElevate() && !platform.windows then 3 else 1
    ensures old(disk.elevations) <= disk.elevations
    ensures disk.elevations > old(disk.elevations) ==> platform.MayElevate()
  {
    ghost var start, n := disk.nodes, |disk.past|;
    ok := ReplaceFile(disk, platform, paths.verified, paths.current, accepted);
    StaysConfined(disk.past, n, start, paths.verified, paths.current, paths);
    ThirdPathKept(disk.past, n, start, paths.verified, paths.current, paths.backup);
    Widen(disk.nodes, start, {paths.verified, paths.current}, paths.All());
    SameAtOthers(disk.nodes, start, {paths.verified, paths.current}, paths.backup);

    OneChanged(disk.nodes, paths.verified, paths.verified, paths.verified, File([]));
    Widen(disk.nodes - {paths.verified}, disk.nodes, {paths.verified, paths.verified}, paths.All());
    var _ := disk.RemoveFile(paths.verified);

    if !ok && Exists(disk.nodes, paths.backup) {
      ghost var middle, m := disk.nodes, |disk.past|;
      var _ := ReplaceFile(disk, platform, paths.backup, paths.current, original);
      StaysConfined(disk.past, m, middle, paths.backup, paths.current, paths);
      Widen(disk.nodes, middle, {paths.backup, paths.current}, paths.All());
    }
  }

  /** Backs up and installs, while staging may change under another process. */
  method Swap(disk: Disk, platform: Platform, paths: InstallPaths, ghost original: Bytes, ghost accepted: Bytes)
    returns (ok: bool)
    requires paths.Distinct() && Holds(disk.nodes, paths.verified, accepted)
    modifies disk
    ensures old(disk.past) <= disk.past
    ensures Confined(disk.past, |old(disk.past)|, old(disk.nodes), paths)
    ensures ok ==>
              && Holds(disk.nodes, paths.current, accepted)
              && (paths.verified in disk.nodes ==> disk.faults > old(disk.faults))
    ensures Holds(old(disk.nodes), paths.current, original) ==>
              && AlwaysSafe(disk.past, |old(disk.past)|, paths, original, accepted)
              && (ok ==> Holds(disk.nodes, paths.backup, original))
              && (!ok ==>
                    || Holds(disk.nodes, paths.current, original)
                    || (Holds(disk.nodes, paths.backup, original) &&
                        RollbackFailed(old(disk.attempts), disk.attempts, paths)))
    ensures old(disk.attempts) <= disk.attempts && old(disk.faults) <= disk.faults
    ensures !ok && CanBackUp(old(disk.nodes), paths) ==>
              disk.faults >= old(disk.faults) +
                if disk.attempts != old(disk.attempts) && platform.MayElevate() && !platform.windows then 3 else 1
    ensures old(disk.elevations) <= disk.elevations
    ensures disk.elevations > old(disk.elevations) ==> platform.MayElevate()
  {
    ghost var start, n := disk.nodes, |disk.past|;
    ok := BackUp(disk, platform, paths, original);
    StaysConfined(disk.past, n, start, paths.current, paths.backup, paths);
    Widen(disk.nodes, start, {paths.current, paths.backup}, paths.All());
    SameAtOthers(disk.nodes, start, {paths.current, paths.backup}, paths.verified);
    if ok {
      ghost var late := disk.nodes;
      disk.OtherProcess(paths.staging);
      Widen(disk.nodes, late, {paths.staging}, paths.All());
      SameAtOthers(disk.nodes, late, {paths.staging}, paths.backup);
      SameAtOthers(disk.nodes, late, {paths.staging}, paths.verified);
      SameAtOthers(disk.nodes, late, {paths.staging}, paths.current);
      ok := Install(disk, platform, paths, original, accepted);
    }
  }

  /**
    One self-update. If the current binary holds `original`, then at every moment, whatever
    fails, wherever a copy stops and whenever the process dies, the original is whole in
    place or in the backup, or the bytes that were verified are whole in place. Success
    means the bytes that staging held at the start are in place and the original in the
    backup, no matter what became of the staging file. Failure means the original is in
    place, unless putting the backup back was attempted and failed: then it is in the backup.
    A release that verifies fails only if some operation did; for the service user, who may
    ask for more rights, a move fails only if renaming, `mv` and `install` all did. Nobody
    else asks for them.
  */
  method Apply(disk: Disk, platform: Platform, scheme: Scheme, artifact: Release.Artifact, paths: InstallPaths,
               ghost original: Bytes)
    returns (r: Result<Path, UpdaterError>, ghost accepted: Bytes)
    requires paths.Distinct()
    modifies disk
    ensures old(disk.past) <= disk.past
    ensures Confined(disk.past, |old(disk.past)|, old(disk.nodes), paths)
    ensures r.Ok? ==>
              && r.value == paths.backup
              && Release.Accepts(scheme, accepted, artifact)
              && Holds(old(disk.nodes), paths.staging, accepted)
              && Holds(disk.nodes, paths.current, accepted)
              && (paths.verified in disk.nodes ==> disk.faults > old(disk.faults))
    ensures Holds(old(disk.nodes), paths.current, original) ==>
              && (if Release.Accepts(scheme, accepted, artifact)
                  then AlwaysSafe(disk.past, |old(disk.past)|, paths, original, accepted)
                  else NeverLost(disk.past, |old(disk.past)|, paths.current, paths.current, original))
              && (r.Ok? ==> Holds(disk.nodes, paths.backup, original))
              && (r.Err? ==>
                    || Holds(disk.nodes, paths.current, original)
                    || (Holds(disk.nodes, paths.backup, original) &&
                        RollbackFailed(old(disk.attempts), disk.attempts, paths)))
    ensures CanStage(scheme, artifact, old(disk.nodes), paths) && CanBackUp(old(disk.nodes), paths) ==>
              r.Ok? || disk.faults > old(disk.faults)
    ensures CanStage(scheme, artifact, old(disk.nodes), paths) && CanBackUp(old(disk.nodes), paths) ==>
              platform.MayElevate() && !platform.windows && disk.attempts != old(disk.attempts) ==>
                r.Ok? || disk.faults >= old(disk.faults) + 3
    ensures disk.elevations > old(disk.elevations) ==> platform.MayElevate()
  {
    accepted := [];
    ghost var start, n := disk.nodes, |disk.past|;
    var staged := Stage(disk, scheme, artifact, paths);
    StaysConfined(disk.past, n, start, paths.verified, paths.staging, paths);
    ThirdPathKept(disk.past, n, start, paths.verified, paths.staging, paths.current);
    Widen(disk.nodes, start, {paths.verified, paths.staging}, paths.All());
    SameAtOthers(disk.nodes, start, {paths.verified, paths.staging}, paths.current);
    SameAtOthers(disk.nodes, start, {paths.verified, paths.staging}, paths.backup);
    if staged.Err? {
      return Err(staged.error), accepted;
    }
    accepted := staged.value;
    var ok := Swap(disk, platform, paths, original, accepted);
    return if ok then Ok(paths.backup) else Err(Aborted), accepted;
  }
}
