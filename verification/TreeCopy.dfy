/** Copying a directory tree with rollback (src/commands/file_ops.rs). */
module TreeCopy {
  import opened Wrappers
  import opened FileSystem

  const COPY_BUFFER: nat := 65536

  datatype CopyError = DestinationExists | CannotCreate | CannotRead | CannotWrite | IsSymlink | Unsupported

  function Subtree(s: Snapshot, root: Path): set<Path> {
    set p | p in s && Under(p, root)
  }

  /** Everything below `root` hangs from a directory. */
  ghost predicate IsTree(s: Snapshot, root: Path) {
    forall p, name :: Under(p, root) && p + [name] in s ==> p in s && s[p].Dir?
  }

  /** `dest` holds exactly the directories and regular files that `src` holds, and nothing else. */
  ghost predicate Mirrors(s: Snapshot, src: Path, t: Snapshot, dest: Path) {
    forall rest: Path ::
      && (src + rest in s <==> dest + rest in t)
      && (src + rest in s ==> s[src + rest] == t[dest + rest] && (s[src + rest].Dir? || s[src + rest].File?))
  }

  /** There is something at `root`, and neither it nor anything below is a link or special. */
  ghost predicate AllPlain(s: Snapshot, root: Path) {
    root in s && forall p :: p in s && Under(p, root) ==> s[p].Dir? || s[p].File?
  }

  ghost predicate NothingUnder(s: Snapshot, root: Path) {
    forall p :: p in s ==> !Under(p, root)
  }

  /** Neither of the two paths lies inside the other. */
  predicate Apart(p: Path, q: Path) {
    !Under(p, q) && !Under(q, p)
  }

  ghost predicate OnlyBelow(past: seq<Snapshot>, n: nat, start: Snapshot, root: Path) {
    forall k :: n <= k < |past| ==> SameOutside(past[k], start, root)
  }

  /** Fills the file just created at `dest`, buffer by buffer. */
  method CopyContents(disk: Disk, src: Path, dest: Path) returns (r: Result<(), CopyError>)
    requires src != dest && IsFile(disk.nodes, src) && Holds(disk.nodes, dest, [])
    modifies disk`nodes, disk`past, disk`faults
    ensures old(disk.past) <= disk.past
    ensures OnlyBelow(disk.past, |old(disk.past)|, old(disk.nodes), dest)
    ensures SameOutside(disk.nodes, old(disk.nodes), dest)
    ensures r.Ok? ==> disk.nodes == old(disk.nodes)[dest := old(disk.nodes)[src]]
    ensures old(disk.faults) <= disk.faults && (r.Err? ==> disk.faults > old(disk.faults))
  {
    ghost var data := disk.nodes[src].data;
    var offset := 0;
    while true
      invariant old(disk.past) <= disk.past
      invariant OnlyBelow(disk.past, |old(disk.past)|, old(disk.nodes), dest)
      invariant disk.faults == old(disk.faults)
      invariant offset <= |data| && disk.nodes == old(disk.nodes)[dest := File(data[..offset])]
      decreases |data| - offset
    {
      var chunk := disk.ReadSome(src, offset, COPY_BUFFER);
      if chunk.None? {
        return Err(CannotRead);
      }
      if chunk.value == [] {
        assert data[..offset] == data;
        return Ok(());
      }
      assert data[..offset] + chunk.value == data[..offset + |chunk.value|];
      var written := disk.Append(dest, chunk.value);
      if !written {
        return Err(CannotWrite);
      }
      offset := offset + |chunk.value|;
    }
  }

  /** Copies one regular file; a failure may leave part of it. */
  method CopyFileNofollow(disk: Disk, src: Path, dest: Path) returns (r: Result<(), CopyError>)
    requires Apart(src, dest)
    modifies disk`nodes, disk`past, disk`faults
    ensures old(disk.past) <= disk.past
    ensures OnlyBelow(disk.past, |old(disk.past)|, old(disk.nodes), dest)
    ensures SameOutside(disk.nodes, old(disk.nodes), dest)
    ensures r.Ok? ==>
              && src in old(disk.nodes) && old(disk.nodes)[src].File?
              && dest !in old(disk.nodes)
              && disk.nodes == old(disk.nodes)[dest := old(disk.nodes)[src]]
    ensures old(disk.faults) <= disk.faults
    ensures r.Err? && IsFile(old(disk.nodes), src) && dest !in old(disk.nodes) ==> disk.faults > old(disk.faults)
  {
    var known := disk.Stat(src);
    if !known {
      return Err(CannotRead);
    }
    if disk.nodes[src].Link? {
      return Err(IsSymlink);
    }
    if !disk.nodes[src].File? {
      return Err(Unsupported);
    }
    var created := disk.CreateNew(dest);
    if !created {
      return Err(CannotCreate);
    }
    r := CopyContents(disk, src, dest);
  }

  // ---- paths ------------------------------------------------------------------------------

  lemma ChildrenApart(p: Path, q: Path, name: string)
    requires Apart(p, q)
    ensures Apart(p + [name], q + [name]) && Apart(p, q + [name])
  {
    if |p| <= |q| {
      assert q[..|p|] != p;
      assert (q + [name])[..|p|] == q[..|p|];
    } else {
      assert p[..|q|] != q;
      assert (p + [name])[..|q|] == p[..|q|];
    }
  }

  lemma SiblingsApart(p: Path, a: string, b: string)
    requires a != b
    ensures Apart(p + [a], p + [b])
  {
    assert (p + [a])[|p|] == a && (p + [b])[|p|] == b;
  }

  /** What lies below a path apart from `root` does not lie below `root`. */
  lemma BelowApart(p: Path, root: Path, rest: Path)
    requires Apart(p, root)
    ensures !Under(p + rest, root)
  {
    if |root| <= |p| {
      assert (p + rest)[..|root|] == p[..|root|];
    } else if |root| <= |p + rest| {
      assert (p + rest)[..|root|][..|p|] == p;
    }
  }

  // ---- mirroring and what preserves it ------------------------------------------------------

  lemma MirrorKept(s: Snapshot, src: Path, t: Snapshot, u: Snapshot, dest: Path, root: Path)
    requires Mirrors(s, src, t, dest) && SameOutside(u, t, root) && Apart(dest, root)
    ensures Mirrors(s, src, u, dest)
  {
    forall rest: Path
      ensures src + rest in s <==> dest + rest in u
      ensures src + rest in s ==> s[src + rest] == u[dest + rest] && (s[src + rest].Dir? || s[src + rest].File?)
    {
      BelowApart(dest, root, rest);
      assert SameAt(u, t, dest + rest);
    }
  }

  lemma MirrorOfSame(s: Snapshot, v: Snapshot, src: Path, t: Snapshot, dest: Path, root: Path)
    requires Mirrors(v, src, t, dest) && SameOutside(v, s, root) && Apart(src, root)
    ensures Mirrors(s, src, t, dest)
  {
    forall rest: Path
      ensures src + rest in s <==> dest + rest in t
      ensures src + rest in s ==> s[src + rest] == t[dest + rest] && (s[src + rest].Dir? || s[src + rest].File?)
    {
      BelowApart(src, root, rest);
      assert SameAt(v, s, src + rest);
    }
  }

  lemma TreeKept(s: Snapshot, t: Snapshot, src: Path, root: Path)
    requires IsTree(s, src) && SameOutside(t, s, root) && Apart(src, root)
    ensures IsTree(t, src)
  {
    forall p, name | Under(p, src) && p + [name] in t ensures p in t && t[p].Dir? {
      BelowApart(src, root, p[|src|..]);
      BelowApart(src, root, (p + [name])[|src|..]);
      assert p == src + p[|src|..] && p + [name] == src + (p + [name])[|src|..];
      assert SameAt(t, s, p) && SameAt(t, s, p + [name]);
    }
  }

  /** Nothing hangs below something that is not a directory. */
  lemma {:induction false} LeafHasNothingBelow(s: Snapshot, src: Path, rest: Path)
    requires IsTree(s, src) && rest != [] && (src !in s || !s[src].Dir?)
    ensures src + rest !in s
    decreases |rest|
  {
    var up := rest[..|rest| - 1];
    assert src + rest == (src + up) + [rest[|rest| - 1]];
    assert Under(src + up, src);
    if up == [] {
      assert src + up == src;
    } else {
      LeafHasNothingBelow(s, src, up);
    }
  }

  /** A regular file copied to a free place mirrors it. */
  lemma FileMirrors(s: Snapshot, src: Path, t: Snapshot, dest: Path)
    requires IsTree(s, src) && src in s && s[src].File?
    requires NothingUnder(t, dest)
    ensures Mirrors(s, src, t[dest := s[src]], dest)
  {
    forall rest: Path
      ensures src + rest in s <==> dest + rest in t[dest := s[src]]
      ensures src + rest in s ==> s[src + rest] == t[dest := s[src]][dest + rest] && s[src + rest].File?
    {
      assert Under(dest + rest, dest);
      if rest == [] {
        assert src + rest == src && dest + rest == dest;
      } else {
        LeafHasNothingBelow(s, src, rest);
        assert dest + rest != dest;
      }
    }
  }

  /** A directory is mirrored once each of its entries is and nothing else was added. */
  lemma DirMirrors(s: Snapshot, src: Path, t: Snapshot, dest: Path, names: seq<string>)
    requires IsTree(s, src) && src in s && s[src].Dir? && dest in t && t[dest].Dir?
    requires forall name :: name in names <==> src + [name] in s
    requires forall name :: name in names ==> Mirrors(s, src + [name], t, dest + [name])
    requires forall name :: name !in names ==> NothingUnder(t, dest + [name])
    ensures Mirrors(s, src, t, dest)
  {
    forall rest: Path
      ensures src + rest in s <==> dest + rest in t
      ensures src + rest in s ==> s[src + rest] == t[dest + rest] && (s[src + rest].Dir? || s[src + rest].File?)
    {
      if rest == [] {
        assert src + rest == src && dest + rest == dest;
      } else {
        var name, deeper := rest[0], rest[1..];
        assert src + rest == src + [name] + deeper && dest + rest == dest + [name] + deeper;
        if name !in names {
          assert Under(dest + rest, dest + [name]);
          EntryMissing(s, src, name, deeper);
        }
      }
    }
  }

  lemma EntryMissing(s: Snapshot, src: Path, name: string, deeper: Path)
    requires IsTree(s, src) && src + [name] !in s
    ensures src + [name] + deeper !in s
  {
    if deeper == [] {
      assert src + [name] + deeper == src + [name];
    } else {
      SubtreeOfEntry(s, src, name);
      LeafHasNothingBelow(s, src + [name], deeper);
    }
  }

  lemma SubtreeOfEntry(s: Snapshot, src: Path, name: string)
    requires IsTree(s, src)
    ensures IsTree(s, src + [name])
    ensures Subtree(s, src + [name]) <= Subtree(s, src)
    ensures src in s ==> Subtree(s, src + [name]) < Subtree(s, src)
  {
    forall p | Under(p, src + [name]) ensures Under(p, src) {
      assert p[..|src|] == (src + [name])[..|src|] == src;
    }
    assert src !in Subtree(s, src + [name]);
    if src in s {
      assert src in Subtree(s, src);
    }
  }

  /** The entries of a plain tree are plain, also while the copy grows elsewhere. */
  lemma EntryIsPlain(s: Snapshot, src: Path, t: Snapshot, dest: Path, name: string)
    requires AllPlain(s, src) && SameOutside(t, s, dest) && Apart(src + [name], dest) && src + [name] in s
    ensures AllPlain(t, src + [name])
  {
    BelowApart(src + [name], dest, []);
    assert src + [name] + [] == src + [name] && SameAt(t, s, src + [name]);
    forall p | p in t && Under(p, src + [name]) ensures t[p].Dir? || t[p].File? {
      BelowApart(src + [name], dest, p[|src| + 1..]);
      assert p == src + [name] + p[|src| + 1..];
      UnderChild(p, src, name);
      assert SameAt(t, s, p);
    }
  }

  // ---- the copy -----------------------------------------------------------------------------

  // ---- missing parents ----------------------------------------------------------------------

  /** `p` is one of the parents of `dest` that are missing without a gap. */
  predicate MissingAbove(s: Snapshot, dest: Path, p: Path)
    decreases |dest|
  {
    dest != [] && Parent(dest) !in s && (p == Parent(dest) || MissingAbove(s, Parent(dest), p))
  }

  /** The nearest thing above `dest` that is there can hold a directory. */
  predicate Rooted(s: Snapshot, dest: Path)
    decreases |dest|
  {
    dest == [] || if Parent(dest) in s then HasParent(s, dest) else Rooted(s, Parent(dest))
  }

  /** `s` with the missing parents of `dest`. */
  function WithParents(s: Snapshot, dest: Path): Snapshot
    decreases |dest|
  {
    if dest == [] || Parent(dest) in s then s else WithParents(s, Parent(dest))[Parent(dest) := Dir]
  }

  /** `t` is `s`, except that some missing parents of `dest` were made. */
  ghost predicate OnlyParentsMade(s: Snapshot, t: Snapshot, dest: Path) {
    forall p :: SameAt(t, s, p) || (MissingAbove(s, dest, p) && p !in s && IsDir(t, p))
  }

  /** The same outside `dest`. */
  ghost predicate Grown(s: Snapshot, t: Snapshot, dest: Path) {
    forall p :: !Under(p, dest) ==> SameAt(t, s, p) || (MissingAbove(s, dest, p) && p !in s && IsDir(t, p))
  }

  ghost predicate OnlyGrown(past: seq<Snapshot>, n: nat, s: Snapshot, dest: Path) {
    forall k :: n <= k < |past| ==> Grown(s, past[k], dest)
  }

  /** Making `dest` itself as well. */
  ghost predicate MadeUpTo(s: Snapshot, t: Snapshot, dest: Path) {
    forall p :: SameAt(t, s, p) || ((p == dest || MissingAbove(s, dest, p)) && p !in s && IsDir(t, p))
  }

  lemma {:induction false} AboveIsShorter(s: Snapshot, dest: Path, p: Path)
    requires MissingAbove(s, dest, p)
    ensures |p| < |dest| && Under(dest, p)
    decreases |dest|
  {
    if p != Parent(dest) {
      AboveIsShorter(s, Parent(dest), p);
      assert dest[..|p|] == Parent(dest)[..|p|];
    }
  }

  lemma UnderBoth(p: Path, q: Path, root: Path)
    requires Under(p, q) && Under(q, root)
    ensures Under(p, root)
  {
    assert p[..|root|] == q[..|root|];
  }

  /** What is made up to the missing parent of `dest` is made above `dest`. */
  lemma ParentsMadeAbove(s: Snapshot, t: Snapshot, dest: Path)
    requires dest != [] && Parent(dest) !in s && MadeUpTo(s, t, Parent(dest))
    ensures OnlyParentsMade(s, t, dest) && MadeUpTo(s, t, dest) && SameAt(t, s, dest)
  {
    forall p ensures SameAt(t, s, p) || (MissingAbove(s, dest, p) && p !in s && IsDir(t, p)) {
      assert MissingAbove(s, dest, p) <==> p == Parent(dest) || MissingAbove(s, Parent(dest), p);
    }
    if MissingAbove(s, Parent(dest), dest) {
      AboveIsShorter(s, Parent(dest), dest);
    }
  }

  /** The missing parents and nothing else are added. */
  lemma {:induction false} ParentsAdded(s: Snapshot, dest: Path)
    ensures OnlyParentsMade(s, WithParents(s, dest), dest)
    decreases |dest|
  {
    if dest != [] && Parent(dest) !in s {
      ParentsAdded(s, Parent(dest));
    }
  }

  /** Making parents touches nothing in a tree apart from `dest`. */
  lemma ApartFromParents(s: Snapshot, t: Snapshot, src: Path, dest: Path)
    requires Apart(src, dest) && OnlyParentsMade(s, t, dest)
    ensures forall p :: Under(p, src) ==> SameAt(t, s, p)
    ensures Subtree(t, src) == Subtree(s, src)
  {
    forall p | Under(p, src) ensures SameAt(t, s, p) {
      if MissingAbove(s, dest, p) {
        AboveIsShorter(s, dest, p);
        UnderBoth(dest, p, src);
      }
    }
    forall p ensures p in Subtree(t, src) <==> p in Subtree(s, src) {
      assert Under(p, src) ==> SameAt(t, s, p);
    }
  }

  /** Nor anything at `dest` or below. */
  lemma BelowParents(s: Snapshot, t: Snapshot, dest: Path)
    requires OnlyParentsMade(s, t, dest)
    ensures forall p :: Under(p, dest) ==> SameAt(t, s, p)
  {
    forall p | Under(p, dest) ensures SameAt(t, s, p) {
      if MissingAbove(s, dest, p) {
        AboveIsShorter(s, dest, p);
      }
    }
  }

  /** A copy can start once the parents are there just as before. */
  lemma ReadyWithParents(s: Snapshot, src: Path, dest: Path)
    requires CanCopy(s, src, dest)
    ensures var t := WithParents(s, dest);
            && CanCopy(t, src, dest)
            && Subtree(t, src) == Subtree(s, src)
            && (AllPlain(t, src) <==> AllPlain(s, src))
            && (IsDir(t, src) <==> IsDir(s, src))
  {
    var t := WithParents(s, dest);
    ParentsAdded(s, dest);
    ApartFromParents(s, t, src, dest);
    BelowParents(s, t, dest);
    assert Under(src, src) && SameAt(t, s, src);
    forall p, name | Under(p, src) && p + [name] in t ensures IsDir(t, p) {
      assert (p + [name])[..|src|] == p[..|src|];
      assert SameAt(t, s, p) && SameAt(t, s, p + [name]);
    }
    forall p | p in t && Under(p, src) ensures p in s && t[p] == s[p] {
      assert SameAt(t, s, p);
    }
    forall p | p in s && Under(p, src) ensures p in t && t[p] == s[p] {
      assert SameAt(t, s, p);
    }
  }

  lemma MirrorWithoutParents(s: Snapshot, src: Path, t: Snapshot, dest: Path)
    requires Apart(src, dest) && Mirrors(WithParents(s, dest), src, t, dest)
    ensures Mirrors(s, src, t, dest)
  {
    ParentsAdded(s, dest);
    ApartFromParents(s, WithParents(s, dest), src, dest);
    forall rest: Path
      ensures src + rest in s <==> dest + rest in t
      ensures src + rest in s ==> s[src + rest] == t[dest + rest] && (s[src + rest].Dir? || s[src + rest].File?)
    {
      assert SameAt(WithParents(s, dest), s, src + rest);
    }
  }

  lemma GrownWithParents(s: Snapshot, t: Snapshot, dest: Path)
    requires SameOutside(t, WithParents(s, dest), dest)
    ensures Grown(s, t, dest)
  {
    ParentsAdded(s, dest);
    forall p | !Under(p, dest) ensures SameAt(t, s, p) || (MissingAbove(s, dest, p) && p !in s && IsDir(t, p)) {
      assert SameAt(t, WithParents(s, dest), p);
    }
  }

  lemma MadeUpToGrown(s: Snapshot, t: Snapshot, dest: Path)
    requires MadeUpTo(s, t, dest)
    ensures Grown(s, t, dest)
    ensures SameAt(t, s, dest) ==> OnlyParentsMade(s, t, dest)
  {
    assert Under(dest, dest);
  }

  /** With its parent in place, nothing but the destination can have changed. */
  lemma NothingMissing(past: seq<Snapshot>, n: nat, s: Snapshot, dest: Path)
    requires dest != [] && Parent(dest) in s && OnlyGrown(past, n, s, dest)
    ensures OnlyBelow(past, n, s, dest)
  {
    forall k | n <= k < |past| ensures SameOutside(past[k], s, dest) {
      assert Grown(s, past[k], dest);
    }
  }

  /** Creates `p` and whatever ancestors are missing. */
  method CreateDirAll(disk: Disk, p: Path) returns (ok: bool)
    modifies disk`nodes, disk`past, disk`faults
    ensures old(disk.past) <= disk.past
    ensures p in old(disk.nodes) ==> ok == IsDir(old(disk.nodes), p) && disk.nodes == old(disk.nodes)
    ensures forall k :: |old(disk.past)| <= k < |disk.past| ==> MadeUpTo(old(disk.nodes), disk.past[k], p)
    ensures MadeUpTo(old(disk.nodes), disk.nodes, p)
    ensures !ok && p !in old(disk.nodes) ==> p !in disk.nodes
    ensures ok && p !in old(disk.nodes) ==>
              disk.nodes == WithParents(old(disk.nodes), p)[p := Dir] && Rooted(old(disk.nodes), p)
    ensures old(disk.faults) <= disk.faults
    ensures !ok && p !in old(disk.nodes) && Rooted(old(disk.nodes), p) ==> disk.faults > old(disk.faults)
    decreases |p|
  {
    if p in disk.nodes {
      return disk.nodes[p].Dir?;
    }
    ghost var start, n := disk.nodes, |disk.past|;
    if p != [] && Parent(p) !in disk.nodes {
      ok := CreateDirAll(disk, Parent(p));
      forall k | n <= k < |disk.past| ensures MadeUpTo(start, disk.past[k], p) {
        ParentsMadeAbove(start, disk.past[k], p);
      }
      ParentsMadeAbove(start, disk.nodes, p);
      if !ok {
        return false;
      }
    }
    ok := disk.CreateDir(p);
  }

  /** A finite tree at `src` and a free `dest` outside it. */
  ghost predicate CanCopy(s: Snapshot, src: Path, dest: Path) {
    && Apart(src, dest)
    && IsTree(s, src)
    && NothingUnder(s, dest)
  }

  /** What the copy of `src` in state `s` has come to when it turns to the entry `name`. */
  ghost predicate TurnOf(s: Snapshot, t: Snapshot, dest: Path, name: string) {
    SameOutside(t, s, dest) && IsDir(t, dest) && NothingUnder(t, dest + [name])
  }

  /** The copy can have come to its end with no more than `depth` copies nested in it. */
  ghost predicate Finishes(s: Snapshot, src: Path, dest: Path, depth: nat)
    decreases depth, 2
  {
    forall name :: src + [name] in s[dest := Dir] ==> EntryFinishes(s, src, dest, name, depth)
  }

  /** There is a state in which the turn of `name` comes and its own copy ends. */
  ghost predicate EntryFinishes(s: Snapshot, src: Path, dest: Path, name: string, depth: nat)
    decreases depth, 1
  {
    exists t: Snapshot :: TurnOf(s, t, dest, name) && GoesDeeper(t, src + [name], dest + [name], depth)
  }

  ghost predicate GoesDeeper(t: Snapshot, src: Path, dest: Path, depth: nat)
    decreases depth, 0
  {
    IsDir(t, src) ==> depth > 0 && Finishes(t, src, dest, depth - 1)
  }

  lemma {:induction false} MoreDepthIsEnough(s: Snapshot, src: Path, dest: Path, depth: nat, more: nat)
    requires Finishes(s, src, dest, depth) && depth <= more
    ensures Finishes(s, src, dest, more)
    decreases depth
  {
    forall name | src + [name] in s[dest := Dir] ensures EntryFinishes(s, src, dest, name, more) {
      assert EntryFinishes(s, src, dest, name, depth);
      var t: Snapshot :| TurnOf(s, t, dest, name) && GoesDeeper(t, src + [name], dest + [name], depth);
      if IsDir(t, src + [name]) {
        MoreDepthIsEnough(t, src + [name], dest + [name], depth - 1, more - 1);
      }
      assert GoesDeeper(t, src + [name], dest + [name], more);
    }
  }

  /** The first `done` entries nest no deeper than the size of the tree. */
  ghost predicate EntriesFinished(s: Snapshot, src: Path, dest: Path, names: seq<string>, done: nat)
    requires done <= |names|
  {
    forall name :: name in names[..done] ==> EntryFinishes(s, src, dest, name, |Subtree(s, src)|)
  }

  /** The copy of one entry nests one level below the copy of the whole. */
  lemma OneMoreFinished(s: Snapshot, src: Path, t: Snapshot, dest: Path, names: seq<string>, done: nat)
    requires done < |names| && EntriesFinished(s, src, dest, names, done)
    requires TurnOf(s, t, dest, names[done]) && Subtree(t, src + [names[done]]) < Subtree(s, src)
    requires var from, to := src + [names[done]], dest + [names[done]];
             IsDir(t, from) ==> Finishes(t, from, to, |Subtree(t, from)|)
    ensures EntriesFinished(s, src, dest, names, done + 1)
  {
    var name := names[done];
    var inner, outer := Subtree(t, src + [name]), Subtree(s, src);
    assert outer == inner + (outer - inner) && outer - inner != {};
    if IsDir(t, src + [name]) {
      MoreDepthIsEnough(t, src + [name], dest + [name], |inner|, |outer| - 1);
    }
    assert GoesDeeper(t, src + [name], dest + [name], |outer|);
    assert EntryFinishes(s, src, dest, name, |outer|);
    assert names[..done + 1] == names[..done] + [name];
  }

  /** How far the loop over the entries of `src` has come. */
  ghost predicate Progress(s: Snapshot, src: Path, t: Snapshot, dest: Path, names: seq<string>, done: nat)
    requires done <= |names|
  {
    && SameOutside(t, s, dest) && IsDir(t, dest)
    && (forall name :: name in names[..done] ==> Mirrors(s, src + [name], t, dest + [name]))
    && (forall name :: name !in names[..done] ==> NothingUnder(t, dest + [name]))
  }

  /** One more entry copied. */
  lemma ProgressOne(s: Snapshot, src: Path, before: Snapshot, after: Snapshot, dest: Path,
                    names: seq<string>, done: nat)
    requires done < |names| && Apart(src, dest)
    requires forall i, j :: 0 <= i < j < |names| ==> names[i] != names[j]
    requires Progress(s, src, before, dest, names, done)
    requires SameOutside(after, before, dest + [names[done]])
    requires Mirrors(before, src + [names[done]], after, dest + [names[done]])
    ensures Progress(s, src, after, dest, names, done + 1)
  {
    var name := names[done];
    var target := dest + [name];
    assert names[..done + 1] == names[..done] + [name];
    assert !Under(dest, target);
    assert SameAt(after, before, dest);
    SameOutsideChild(s, before, after, dest, name);
    ChildrenApart(dest, src, name);
    ChildrenApart(src, dest, name);
    MirrorOfSame(s, before, src + [name], after, target, dest) by {
      assert Apart(src + [name], dest);
    }
    forall other | other in names[..done] ensures Mirrors(s, src + [other], after, dest + [other]) {
      SiblingsApart(dest, other, name);
      MirrorKept(s, src + [other], before, after, dest + [other], target);
    }
    forall other | other !in names[..done + 1] ensures NothingUnder(after, dest + [other]) {
      NothingAddedAt(before, after, dest, name, other);
    }
  }

  lemma SameOutsideChild(s: Snapshot, before: Snapshot, after: Snapshot, dest: Path, name: string)
    requires SameOutside(before, s, dest) && SameOutside(after, before, dest + [name])
    ensures SameOutside(after, s, dest)
  {
    forall p | !Under(p, dest) ensures SameAt(after, s, p) {
      UnderChild(p, dest, name);
      assert SameAt(after, before, p) && SameAt(before, s, p);
    }
  }

  lemma NothingAddedAt(before: Snapshot, after: Snapshot, dest: Path, name: string, other: string)
    requires NothingUnder(before, dest + [other]) && other != name
    requires SameOutside(after, before, dest + [name])
    ensures NothingUnder(after, dest + [other])
  {
    forall p | Under(p, dest + [other]) ensures p !in after {
      SiblingsApart(dest, other, name);
      BelowApart(dest + [other], dest + [name], p[|dest| + 1..]);
      assert p == dest + [other] + p[|dest| + 1..];
      assert SameAt(after, before, p);
    }
  }

  lemma UnderChild(p: Path, dest: Path, name: string)
    ensures Under(p, dest + [name]) ==> Under(p, dest)
  {
    if Under(p, dest + [name]) {
      assert p[..|dest|] == (dest + [name])[..|dest|];
    }
  }

  lemma TrailBelowChild(past: seq<Snapshot>, n: nat, s: Snapshot, before: Snapshot, dest: Path, name: string)
    requires SameOutside(before, s, dest) && OnlyBelow(past, n, before, dest + [name])
    ensures OnlyBelow(past, n, s, dest)
  {
    forall k | n <= k < |past| ensures SameOutside(past[k], s, dest) {
      SameOutsideChild(s, before, past[k], dest, name);
    }
  }

  /** One entry: refuse links and special files, recurse into directories, copy files. */
  method CopyEntry(disk: Disk, src: Path, target: Path) returns (r: Result<(), CopyError>)
    requires CanCopy(disk.nodes, src, target) && HasParent(disk.nodes, target)
    modifies disk`nodes, disk`past, disk`faults
    ensures old(disk.past) <= disk.past
    ensures OnlyBelow(disk.past, |old(disk.past)|, old(disk.nodes), target)
    ensures SameOutside(disk.nodes, old(disk.nodes), target)
    ensures r.Ok? ==> Mirrors(old(disk.nodes), src, disk.nodes, target)
    ensures r.Ok? && IsDir(old(disk.nodes), src) ==>
              Finishes(old(disk.nodes), src, target, |Subtree(old(disk.nodes), src)|)
    ensures old(disk.faults) <= disk.faults
    ensures r.Err? && AllPlain(old(disk.nodes), src) ==> disk.faults > old(disk.faults)
    decreases Subtree(disk.nodes, src), 3
  {
    assert Under(src, src) && Under(target, target);
    var known := disk.Stat(src);
    if !known {
      return Err(CannotRead);
    }
    match disk.nodes[src]
    case Link(_) =>
      return Err(IsSymlink);
    case Dir =>
      ghost var start, n := disk.nodes, |disk.past|;
      r := CopyDirRecursiveInner(disk, src, target);
      NothingMissing(disk.past, n, start, target);
    case File(_) =>
      r := CopyFileNofollow(disk, src, target);
      FileMirrors(old(disk.nodes), src, old(disk.nodes), target);
    case Special =>
      return Err(Unsupported);
  }

  /** Something that is not a directory is in the way. */
  predicate Occupied(s: Snapshot, dest: Path) {
    dest in s && !s[dest].Dir?
  }

  /** A directory of plain files and directories, ready to copy. */
  ghost predicate Copyable(s: Snapshot, src: Path, dest: Path) {
    CanCopy(s, src, dest) && Rooted(s, dest) && IsDir(s, src) && AllPlain(s, src)
  }

  method CopyDirRecursiveInner(disk: Disk, src: Path, dest: Path) returns (r: Result<(), CopyError>)
    requires Occupied(disk.nodes, dest) || CanCopy(disk.nodes, src, dest)
    modifies disk`nodes, disk`past, disk`faults
    ensures old(disk.past) <= disk.past
    ensures OnlyGrown(disk.past, |old(disk.past)|, old(disk.nodes), dest)
    ensures Grown(old(disk.nodes), disk.nodes, dest)
    ensures r.Ok? ==>
              && NothingUnder(old(disk.nodes), dest) && Rooted(old(disk.nodes), dest)
              && Mirrors(old(disk.nodes), src, disk.nodes, dest)
              && SameOutside(disk.nodes, WithParents(old(disk.nodes), dest), dest)
              && Finishes(WithParents(old(disk.nodes), dest), src, dest, |Subtree(old(disk.nodes), src)|)
    ensures IsDir(disk.nodes, dest) || (r.Err? && OnlyParentsMade(old(disk.nodes), disk.nodes, dest))
    ensures Occupied(old(disk.nodes), dest) ==> r == Err(CannotCreate) && disk.nodes == old(disk.nodes)
    ensures old(disk.faults) <= disk.faults
    ensures r.Err? && Copyable(old(disk.nodes), src, dest) ==> disk.faults > old(disk.faults)
    decreases Subtree(disk.nodes, src), 2
  {
    ghost var start, n := disk.nodes, |disk.past|;
    ghost var ready := WithParents(start, dest);
    assert Under(dest, dest);
    var made := CreateDirAll(disk, dest);
    MadeUpToGrown(start, disk.nodes, dest);
    forall k | n <= k < |disk.past| ensures Grown(start, disk.past[k], dest) {
      MadeUpToGrown(start, disk.past[k], dest);
    }
    if !made {
      return Err(CannotCreate);
    }
    ReadyWithParents(start, src, dest);
    ghost var m := |disk.past|;
    r := FillDir(disk, src, dest, ready);
    forall k | m <= k < |disk.past| ensures Grown(start, disk.past[k], dest) {
      GrownWithParents(start, disk.past[k], dest);
    }
    GrownWithParents(start, disk.nodes, dest);
    if r.Ok? {
      MirrorWithoutParents(start, src, disk.nodes, dest);
    }
  }

  /** Copies the entries of `src` into the directory just made; all else is as in `start`. */
  method FillDir(disk: Disk, src: Path, dest: Path, ghost start: Snapshot) returns (r: Result<(), CopyError>)
    requires CanCopy(start, src, dest) && disk.nodes == start[dest := Dir]
    modifies disk`nodes, disk`past, disk`faults
    ensures old(disk.past) <= disk.past
    ensures OnlyBelow(disk.past, |old(disk.past)|, start, dest)
    ensures SameOutside(disk.nodes, start, dest) && IsDir(disk.nodes, dest)
    ensures r.Ok? ==>
              Mirrors(start, src, disk.nodes, dest) && Finishes(start, src, dest, |Subtree(start, src)|)
    ensures old(disk.faults) <= disk.faults
    ensures r.Err? && IsDir(start, src) && AllPlain(start, src) ==> disk.faults > old(disk.faults)
    decreases Subtree(start, src), 1
  {
    var listing := disk.ReadDir(src);
    assert SameAt(disk.nodes, start, src);
    if listing.None? {
      return Err(CannotRead);
    }
    var names := listing.value;
    EntriesUnchanged(start, disk.nodes, src, dest, names);
    assert names[..0] == [];
    forall name ensures NothingUnder(disk.nodes, dest + [name]) {
      FreshDirIsEmpty(start, disk.nodes, dest, name);
    }
    r := CopyEntries(disk, src, dest, names, start);
    if r.Err? {
      return r;
    }
    assert names[..|names|] == names;
    DirMirrors(start, src, disk.nodes, dest, names);
  }

  /** The loop over the entries of `src`, which was in state `start` when the copy began. */
  method CopyEntries(disk: Disk, src: Path, dest: Path, names: seq<string>, ghost start: Snapshot)
    returns (r: Result<(), CopyError>)
    requires CanCopy(start, src, dest) && src in start
    requires forall i, j :: 0 <= i < j < |names| ==> names[i] != names[j]
    requires forall name :: name in names ==> src + [name] in start
    requires Progress(start, src, disk.nodes, dest, names, 0)
    modifies disk`nodes, disk`past, disk`faults
    ensures old(disk.past) <= disk.past
    ensures OnlyBelow(disk.past, |old(disk.past)|, start, dest)
    ensures SameOutside(disk.nodes, start, dest) && IsDir(disk.nodes, dest)
    ensures r.Ok? ==> Progress(start, src, disk.nodes, dest, names, |names|)
    ensures r.Ok? ==> EntriesFinished(start, src, dest, names, |names|)
    ensures old(disk.faults) <= disk.faults
    ensures r.Err? && AllPlain(start, src) ==> disk.faults > old(disk.faults)
    decreases Subtree(start, src), 0
  {
    for i := 0 to |names|
      invariant old(disk.past) <= disk.past && old(disk.faults) <= disk.faults
      invariant OnlyBelow(disk.past, |old(disk.past)|, start, dest)
      invariant Progress(start, src, disk.nodes, dest, names, i)
      invariant EntriesFinished(start, src, dest, names, i)
    {
      var name := names[i];
      ghost var before, m := disk.nodes, |disk.past|;
      EntryCanBeCopied(start, src, before, dest, names, i);
      assert TurnOf(start, before, dest, name);
      if AllPlain(start, src) {
        EntryIsPlain(start, src, before, dest, name);
      }
      r := CopyEntry(disk, src + [name], dest + [name]);
      TrailBelowChild(disk.past, m, start, before, dest, name);
      SameOutsideChild(start, before, disk.nodes, dest, name);
      assert SameAt(disk.nodes, before, dest);
      if r.Err? {
        return r;
      }
      ProgressOne(start, src, before, disk.nodes, dest, names, i);
      OneMoreFinished(start, src, before, dest, names, i);
    }
    r := Ok(());
  }

  lemma EntriesUnchanged(s: Snapshot, t: Snapshot, src: Path, dest: Path, names: seq<string>)
    requires SameOutside(t, s, dest) && Apart(src, dest)
    requires forall name :: name in names <==> src + [name] in t
    ensures forall name :: name in names <==> src + [name] in s
  {
    forall name ensures name in names <==> src + [name] in s {
      BelowApart(src, dest, [name]);
      assert SameAt(t, s, src + [name]);
    }
  }

  lemma FreshDirIsEmpty(s: Snapshot, t: Snapshot, dest: Path, name: string)
    requires NothingUnder(s, dest) && t == s[dest := Dir]
    ensures NothingUnder(t, dest + [name])
  {
    forall p | p in t ensures !Under(p, dest + [name]) {
      UnderChild(p, dest, name);
    }
  }

  lemma EntryCanBeCopied(s: Snapshot, src: Path, t: Snapshot, dest: Path, names: seq<string>, i: nat)
    requires CanCopy(s, src, dest) && src in s && i < |names|
    requires forall j, k :: 0 <= j < k < |names| ==> names[j] != names[k]
    requires Progress(s, src, t, dest, names, i)
    ensures CanCopy(t, src + [names[i]], dest + [names[i]]) && HasParent(t, dest + [names[i]])
    ensures Apart(src + [names[i]], dest)
    ensures Subtree(t, src + [names[i]]) < Subtree(s, src)
  {
    var name := names[i];
    ChildrenApart(src, dest, name);
    SubtreeOfEntry(s, src, name);
    assert Apart(src + [name], dest) by {
      ChildrenApart(dest, src, name);
    }
    TreeKept(s, t, src + [name], dest);
    assert Parent(dest + [name]) == dest;
    forall p | p in Subtree(t, src + [name]) ensures p in Subtree(s, src + [name]) {
      BelowApart(src + [name], dest, p[|src| + 1..]);
      assert p == src + [name] + p[|src| + 1..];
      assert SameAt(t, s, p);
    }
  }

  lemma RemovalConfined(before: seq<Snapshot>, past: seq<Snapshot>, n: nat, s: Snapshot, partial: Snapshot, root: Path)
    requires before <= past && n <= |before| && OnlyGrown(before, n, s, root)
    requires Grown(s, partial, root) && OnlyBelow(past, |before|, partial, root)
    ensures OnlyGrown(past, n, s, root)
  {
    forall k | n <= k < |past| ensures Grown(s, past[k], root) {
      if k < |before| {
        assert past[k] == before[k];
      } else {
        StillGrown(s, partial, past[k], root);
      }
    }
  }

  lemma StillGrown(s: Snapshot, t: Snapshot, u: Snapshot, root: Path)
    requires Grown(s, t, root) && SameOutside(u, t, root)
    ensures Grown(s, u, root)
  {
    forall p | !Under(p, root) ensures SameAt(u, s, p) || (MissingAbove(s, root, p) && p !in s && IsDir(u, p)) {
      assert SameAt(u, t, p);
    }
  }

  lemma Restored(s: Snapshot, t: Snapshot, root: Path)
    requires NothingUnder(s, root) && NothingUnder(t, root) && Grown(s, t, root)
    ensures OnlyParentsMade(s, t, root)
  {
    forall p ensures SameAt(t, s, p) || (MissingAbove(s, root, p) && p !in s && IsDir(t, p)) {
      if Under(p, root) {
        assert p !in s && p !in t;
      }
    }
  }

  /** If no parent was missing, that is the disk exactly as it was. */
  lemma RestoredExactly(s: Snapshot, t: Snapshot, dest: Path)
    requires OnlyParentsMade(s, t, dest) && dest != [] && Parent(dest) in s
    ensures t == s
  {
    assert forall p :: SameAt(t, s, p);
  }

  /**
    The whole copy. It ends for every finite tree. Nothing outside `dest` changes at any
    moment, except that missing parents of `dest` are made. Success means `dest` mirrors
    `src`; failure means that the disk is as before but for such parents, so exactly as
    before if none was missing (`RestoredExactly`), unless removing the partial copy was
    attempted and failed. When no operation fails, the copy succeeds exactly if `src` is a
    directory without links or special files and `dest` can be reached.
  */
  method CopyDirRecursive(disk: Disk, src: Path, dest: Path) returns (r: Result<(), CopyError>)
    requires Exists(disk.nodes, dest) || Occupied(disk.nodes, dest) || CanCopy(disk.nodes, src, dest)
    modifies disk
    ensures old(disk.past) <= disk.past
    ensures OnlyGrown(disk.past, |old(disk.past)|, old(disk.nodes), dest)
    ensures Grown(old(disk.nodes), disk.nodes, dest)
    ensures r.Ok? ==>
              && NothingUnder(old(disk.nodes), dest) && Mirrors(old(disk.nodes), src, disk.nodes, dest)
              && SameOutside(disk.nodes, WithParents(old(disk.nodes), dest), dest)
    ensures r.Err? ==>
              || OnlyParentsMade(old(disk.nodes), disk.nodes, dest)
              || disk.attempts == old(disk.attempts) + [TreeRemoved(dest, false)]
    ensures disk.faults == old(disk.faults) ==>
              && (r.Ok? <==> Copyable(old(disk.nodes), src, dest))
              && (r.Err? ==> OnlyParentsMade(old(disk.nodes), disk.nodes, dest))
    ensures dest in old(disk.nodes) ==>
              && disk.nodes == old(disk.nodes)
              && r == Err(if Exists(old(disk.nodes), dest) then DestinationExists else CannotCreate)
  {
    if Exists(disk.nodes, dest) {
      assert Under(dest, dest);
      return Err(DestinationExists);
    }
    ghost var start, n := disk.nodes, |disk.past|;
    r := CopyDirRecursiveInner(disk, src, dest);
    if r.Err? {
      if Exists(disk.nodes, dest) {
        ghost var partial, before := disk.nodes, disk.past;
        var removed := disk.RemoveTree(dest);
        RemovalConfined(before, disk.past, n, start, partial, dest);
        StillGrown(start, partial, disk.nodes, dest);
        if removed {
          Restored(start, disk.nodes, dest);
        }
      }
    } else {
      MirroredIsPlain(start, src, disk.nodes, dest);
    }
  }

  /** Only a plain tree can have been mirrored. */
  lemma MirroredIsPlain(s: Snapshot, src: Path, t: Snapshot, dest: Path)
    requires Mirrors(s, src, t, dest) && IsDir(t, dest)
    ensures IsDir(s, src) && AllPlain(s, src)
  {
    assert src + [] == src && dest + [] == dest;
    forall p | p in s && Under(p, src) ensures s[p].Dir? || s[p].File? {
      assert p == src + p[|src|..];
    }
  }

  // ---- why dest must lie outside src --------------------------------------------------------

  /** A copy of `src` into a free place inside itself. */
  ghost predicate IntoItself(s: Snapshot, src: Path, dest: Path) {
    && Under(dest, src) && dest != src
    && NothingUnder(s, dest)
    && forall n :: |src| <= n < |dest| ==> dest[..n] in s && s[dest[..n]].Dir?
  }

  /** The entry of `src` through which such a copy meets itself. */
  function Recurring(src: Path, dest: Path): string
    requires |src| < |dest|
  {
    dest[|src|]
  }

  /**
    Such a copy meets itself: the entry is listed once the destination exists, and in
    whatever state its turn comes, it is a directory whose copy is again a copy into a free
    place inside itself, one level deeper.
  */
  lemma CopyIntoItselfRepeats(s: Snapshot, src: Path, t: Snapshot, dest: Path)
    requires IntoItself(s, src, dest) && TurnOf(s, t, dest, Recurring(src, dest))
    ensures var entry := Recurring(src, dest);
            && src + [entry] in s[dest := Dir]
            && IsDir(t, src + [entry])
            && IntoItself(t, src + [entry], dest + [entry])
  {
    var entry := Recurring(src, dest);
    var deeper := dest + [entry];
    assert dest[..|src| + 1] == src + [entry];
    assert dest[..|dest|] == dest;
    forall n | |src| <= n <= |dest| ensures IsDir(t, dest[..n]) {
      assert n < |dest| ==> !Under(dest[..n], dest);
      assert n < |dest| ==> SameAt(t, s, dest[..n]);
    }
    forall n | |src| < n < |deeper| ensures deeper[..n] in t && t[deeper[..n]].Dir? {
      assert deeper[..n] == dest[..n] && IsDir(t, dest[..n]);
    }
    assert deeper[..|src| + 1] == src + [entry];
  }

  /** No nesting depth is enough, so such a copy never succeeds: it goes on until something fails. */
  lemma {:induction false} CopyIntoItselfNeverFinishes(s: Snapshot, src: Path, dest: Path, depth: nat)
    requires IntoItself(s, src, dest)
    ensures !Finishes(s, src, dest, depth)
    decreases depth
  {
    var entry := Recurring(src, dest);
    if Finishes(s, src, dest, depth) {
      assert dest[..|src| + 1] == src + [entry];
      assert |src| + 1 < |dest| ==> dest[..|src| + 1] in s;
      assert dest[..|dest|] == dest;
      assert EntryFinishes(s, src, dest, entry, depth);
      var t: Snapshot :| TurnOf(s, t, dest, entry) && GoesDeeper(t, src + [entry], dest + [entry], depth);
      CopyIntoItselfRepeats(s, src, t, dest);
      CopyIntoItselfNeverFinishes(t, src + [entry], dest + [entry], depth - 1);
    }
  }
}
