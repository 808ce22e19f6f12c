/**
  A file system whose operations may fail and may be cut short.

  Every change appends the resulting snapshot to `past`, so a statement about all of `past`
  is a statement about every state a crash can leave behind. `faults` counts the operations
  that failed although the paths they name allowed them, so a statement about runs without
  a new fault says what is done when nothing goes wrong.
*/
module FileSystem {
  import opened Wrappers

  type Path = seq<string>

  /** A link counts as existing when its target does. */
  datatype Node = Dir | File(data: Bytes) | Link(live: bool) | Special

  type Snapshot = map<Path, Node>

  datatype RenameResult = Renamed | CrossesDevices | RenameFailed

  /** A whole file moved, or a whole tree removed, and whether that worked. */
  datatype Attempt = Moved(src: Path, dest: Path, ok: bool) | TreeRemoved(root: Path, ok: bool)

  ghost predicate Holds(s: Snapshot, p: Path, data: Bytes) {
    p in s && s[p] == File(data)
  }

  predicate Exists(s: Snapshot, p: Path) {
    p in s && (s[p].Link? ==> s[p].live)
  }

  predicate IsFile(s: Snapshot, p: Path) {
    p in s && s[p].File?
  }

  predicate IsDir(s: Snapshot, p: Path) {
    p in s && s[p].Dir?
  }

  function Parent(p: Path): Path
    requires p != []
  {
    p[..|p| - 1]
  }

  /** `p` is a root, or what holds it is a directory or a link that leads somewhere. */
  predicate HasParent(s: Snapshot, p: Path) {
    p == [] || (Exists(s, Parent(p)) && (s[Parent(p)].Dir? || s[Parent(p)].Link?))
  }

  predicate CanCreateDir(s: Snapshot, p: Path) {
    p !in s && HasParent(s, p)
  }

  predicate CanRename(s: Snapshot, src: Path, dest: Path) {
    src in s && !s[src].Dir? && !IsDir(s, dest)
  }

  /** 1 when an operation failed although it was possible. */
  function Fault(possible: bool, ok: bool): nat {
    if possible && !ok then 1 else 0
  }

  /** `p` is `root` or lies below it. */
  predicate Under(p: Path, root: Path) {
    root <= p
  }

  ghost predicate SameAt(s: Snapshot, t: Snapshot, p: Path) {
    (p in s <==> p in t) && (p in s ==> s[p] == t[p])
  }

  ghost predicate SameExcept(s: Snapshot, t: Snapshot, paths: set<Path>) {
    s - paths == t - paths
  }

  lemma SameAtOthers(s: Snapshot, t: Snapshot, paths: set<Path>, p: Path)
    requires SameExcept(s, t, paths) && p !in paths
    ensures SameAt(s, t, p)
  {
    assert p in s <==> p in s - paths;
    assert p in t <==> p in t - paths;
    assert p in s ==> (s - paths)[p] == s[p];
    assert p in t ==> (t - paths)[p] == t[p];
  }

  ghost predicate SameOutside(s: Snapshot, t: Snapshot, root: Path) {
    forall p :: !Under(p, root) ==> SameAt(s, t, p)
  }

  function EntriesOf(s: Snapshot, p: Path): (names: set<string>)
    ensures forall name :: name in names <==> p + [name] in s
  {
    var names := set q | q in s && |q| == |p| + 1 && q[..|p|] == p :: q[|p|];
    assert forall name :: p + [name] in s ==> (p + [name])[..|p|] == p && (p + [name])[|p|] in names;
    assert forall q :: q in s && |q| == |p| + 1 && q[..|p|] == p ==> q == p + [q[|p|]];
    names
  }

  class Disk {
    var nodes: Snapshot
    ghost var past: seq<Snapshot>
    ghost var faults: nat
    /** The moves and removals attempted, in order. */
    ghost var attempts: seq<Attempt>
    /** How often elevated rights were asked for. */
    ghost var elevations: nat

    constructor (nodes: Snapshot)
      ensures this.nodes == nodes && past == [nodes] && faults == 0 && attempts == [] && elevations == 0
    {
      this.nodes := nodes;
      past, faults, attempts, elevations := [nodes], 0, [], 0;
    }

    /** Replaces `dest` in one step. */
    method Rename(src: Path, dest: Path) returns (r: RenameResult)
      modifies `nodes, `past, `faults
      ensures past == old(past) + [nodes]
      ensures faults == old(faults) + Fault(CanRename(old(nodes), src, dest), !r.RenameFailed?)
      ensures !r.RenameFailed? ==> CanRename(old(nodes), src, dest)
      ensures nodes == if r.Renamed? then (old(nodes) - {src})[dest := old(nodes)[src]] else old(nodes)
    {
      r := *;
      if !CanRename(nodes, src, dest) {
        r := RenameFailed;
      }
      faults := faults + Fault(CanRename(nodes, src, dest), !r.RenameFailed?);
      if r.Renamed? {
        nodes := (nodes - {src})[dest := nodes[src]];
      }
      past := past + [nodes];
    }

    method RemoveFile(p: Path) returns (ok: bool)
      modifies `nodes, `past, `faults
      ensures past == old(past) + [nodes]
      ensures faults == old(faults) + Fault(p in old(nodes) && !IsDir(old(nodes), p), ok)
      ensures ok ==> p in old(nodes) && !IsDir(old(nodes), p)
      ensures nodes == if ok then old(nodes) - {p} else old(nodes)
    {
      ok := *;
      ok := ok && p in nodes && !IsDir(nodes, p);
      faults := faults + Fault(p in nodes && !IsDir(nodes, p), ok);
      if ok {
        nodes := nodes - {p};
      }
      past := past + [nodes];
    }

    /** Exclusive creation. */
    method CreateNew(p: Path) returns (ok: bool)
      modifies `nodes, `past, `faults
      ensures past == old(past) + [nodes]
      ensures faults == old(faults) + Fault(p !in old(nodes), ok)
      ensures ok ==> p !in old(nodes)
      ensures nodes == if ok then old(nodes)[p := File([])] else old(nodes)
    {
      ok := *;
      ok := ok && p !in nodes;
      faults := faults + Fault(p !in nodes, ok);
      if ok {
        nodes := nodes[p := File([])];
      }
      past := past + [nodes];
    }

    /** Open for overwriting, creating if needed, never through a link. */
    method Truncate(p: Path) returns (ok: bool)
      modifies `nodes, `past, `faults
      ensures past == old(past) + [nodes]
      ensures faults == old(faults) + Fault(p !in old(nodes) || IsFile(old(nodes), p), ok)
      ensures ok ==> p !in old(nodes) || IsFile(old(nodes), p)
      ensures nodes == if ok then old(nodes)[p := File([])] else old(nodes)
    {
      ok := *;
      ok := ok && (p !in nodes || IsFile(nodes, p));
      faults := faults + Fault(p !in nodes || IsFile(nodes, p), ok);
      if ok {
        nodes := nodes[p := File([])];
      }
      past := past + [nodes];
    }

    /** Writes some prefix of `chunk`; all of it when it succeeds. */
    method Append(p: Path, chunk: Bytes) returns (ok: bool)
      requires IsFile(nodes, p)
      modifies `nodes, `past, `faults
      ensures past == old(past) + [nodes]
      ensures faults == old(faults) + Fault(true, ok)
      ensures exists n :: 0 <= n <= |chunk| && nodes == old(nodes)[p := File(old(nodes)[p].data + chunk[..n])]
      ensures ok ==> nodes == old(nodes)[p := File(old(nodes)[p].data + chunk)]
    {
      var n: nat :| n <= |chunk|;
      ok := n == |chunk|;
      faults := faults + Fault(true, ok);
      assert chunk[..|chunk|] == chunk;
      nodes := nodes[p := File(nodes[p].data + chunk[..n])];
      past := past + [nodes];
    }

    /** Flushes what was written. */
    method Sync() returns (ok: bool)
      modifies `faults
      ensures faults == old(faults) + Fault(true, ok)
    {
      ok := *;
      faults := faults + Fault(true, ok);
    }

    /** Asks what is at `p`, without following a link. */
    method Stat(p: Path) returns (known: bool)
      modifies `faults
      ensures faults == old(faults) + Fault(p in nodes, known)
      ensures known ==> p in nodes
    {
      known := *;
      known := known && p in nodes;
      faults := faults + Fault(p in nodes, known);
    }

    /** Reads at most `limit` bytes at `offset`; an empty read means the end of the file. */
    method ReadSome(p: Path, offset: nat, limit: nat) returns (r: Option<Bytes>)
      requires limit > 0
      modifies `faults
      ensures faults == old(faults) + Fault(IsFile(nodes, p), r.Some?)
      ensures r.Some? ==>
                && IsFile(nodes, p) && |r.value| <= limit
                && (r.value == [] <==> offset >= |nodes[p].data|)
                && (offset < |nodes[p].data| ==>
                      && offset + |r.value| <= |nodes[p].data|
                      && r.value == nodes[p].data[offset..offset + |r.value|])
    {
      var works: bool := *;
      works := works && IsFile(nodes, p);
      faults := faults + Fault(IsFile(nodes, p), works);
      if !works {
        return None;
      }
      var data := nodes[p].data;
      if offset >= |data| {
        return Some([]);
      }
      assert 1 <= limit && offset + 1 <= |data|;
      var n: nat :| 1 <= n <= limit && offset + n <= |data|;
      return Some(data[offset..offset + n]);
    }

    /** Reads a regular file to its end. */
    method ReadAll(p: Path) returns (r: Option<Bytes>)
      modifies `faults
      ensures faults == old(faults) + Fault(IsFile(nodes, p), r.Some?)
      ensures r.Some? ==> Holds(nodes, p, r.value)
    {
      var works: bool := *;
      works := works && IsFile(nodes, p);
      faults := faults + Fault(IsFile(nodes, p), works);
      return if works then Some(nodes[p].data) else None;
    }

    method CreateDir(p: Path) returns (ok: bool)
      modifies `nodes, `past, `faults
      ensures past == old(past) + [nodes]
      ensures faults == old(faults) + Fault(CanCreateDir(old(nodes), p), ok)
      ensures ok ==> CanCreateDir(old(nodes), p)
      ensures nodes == if ok then old(nodes)[p := Dir] else old(nodes)
    {
      ok := *;
      ok := ok && CanCreateDir(nodes, p);
      faults := faults + Fault(CanCreateDir(nodes, p), ok);
      if ok {
        nodes := nodes[p := Dir];
      }
      past := past + [nodes];
    }

    /** The names in a directory, each once, in no particular order. */
    method ReadDir(p: Path) returns (r: Option<seq<string>>)
      modifies `faults
      ensures faults == old(faults) + Fault(IsDir(nodes, p), r.Some?)
      ensures r.Some? ==>
                && IsDir(nodes, p)
                && (forall name :: name in r.value <==> p + [name] in nodes)
                && (forall i, j :: 0 <= i < j < |r.value| ==> r.value[i] != r.value[j])
    {
      var works: bool := *;
      works := works && IsDir(nodes, p);
      faults := faults + Fault(IsDir(nodes, p), works);
      if !works {
        return None;
      }
      var all := EntriesOf(nodes, p);
      var pending := all;
      var names := [];
      while pending != {}
        invariant forall name :: name in all <==> name in pending || name in names
        invariant forall i :: 0 <= i < |names| ==> names[i] !in pending
        invariant forall i, j :: 0 <= i < j < |names| ==> names[i] != names[j]
        decreases |pending|
      {
        var name :| name in pending;
        names := names + [name];
        pending := pending - {name};
      }
      return Some(names);
    }

    /** Removes `root` and everything below it, in some order; may stop half way. */
    method RemoveTree(root: Path) returns (ok: bool)
      modifies `nodes, `past, `faults, `attempts
      ensures old(past) <= past
      ensures forall k :: |old(past)| <= k < |past| ==> SameOutside(past[k], old(nodes), root)
      ensures SameOutside(nodes, old(nodes), root)
      ensures ok ==> forall p :: p in nodes ==> !Under(p, root)
      ensures faults == old(faults) + Fault(true, ok)
      ensures attempts == old(attempts) + [TreeRemoved(root, ok)]
    {
      var victims := set p | p in nodes && Under(p, root);
      ok := true;
      while victims != {} && ok
        invariant victims == set p | p in nodes && Under(p, root)
        invariant old(past) <= past && faults == old(faults) && attempts == old(attempts)
        invariant forall k :: |old(past)| <= k < |past| ==> SameOutside(past[k], old(nodes), root)
        invariant SameOutside(nodes, old(nodes), root)
        decreases |victims|, ok
      {
        ok := *;
        if ok {
          var p :| p in victims;
          nodes := nodes - {p};
          past := past + [nodes];
          victims := victims - {p};
        }
      }
      assert ok ==> forall p :: p in nodes && Under(p, root) ==> p in victims;
      faults := faults + Fault(true, ok);
      attempts := attempts + [TreeRemoved(root, ok)];
    }

    /** Another process puts anything, or nothing, at `p`. */
    method OtherProcess(p: Path)
      modifies `nodes, `past
      ensures past == old(past) + [nodes]
      ensures SameExcept(nodes, old(nodes), {p})
    {
      var node: Option<Node> := *;
      nodes := if node.Some? then nodes[p := node.value] else nodes - {p};
      assert nodes - {p} == old(nodes) - {p};
      past := past + [nodes];
    }
  }
}
