/**
Renaming by path, across the mount table: where the moved node is found
afterwards.
 */
module VfsRename {
  import opened Common
  import opened RamFs
  import opened RamFsOutcomes
  import opened RamFsRename
  import opened Paths
  import opened Vfs

  /** Both parents are resolved first; the two must lie on one filesystem. */
  ghost function RenamePath(mounts: seq<Mount>, disks: Disks, from: string, to: string): (Disks, Result<Unit, FsError>) {
    match SplitParent(from)
    case Err(e) => (disks, Err(e))
    case Ok((fromParent, fromName)) => (
      match SplitParent(to)
      case Err(e) => (disks, Err(e))
      case Ok((toParent, toName)) => (
        match Resolve(mounts, disks, fromParent)
        case Err(e) => (disks, Err(e))
        case Ok((id, op)) => (
          match Resolve(mounts, disks, toParent)
          case Err(e) => (disks, Err(e))
          case Ok((id', np)) =>
            if id != id' then (disks, Err(CrossDevice))
            else if id !in disks then (disks, Err(NotFound))
            else
              var (fs, r) := Rename(disks[id], op, fromName, np, toName);
              (disks[id := fs], r))))
  }

  // ---------------------------------------------------------------------
  // The way to the destination after the move
  // ---------------------------------------------------------------------

  /** Where a walk that has not taken the moved entry stands: at the same place
      outside the moved subtree, or at the moved node where it used to stand at
      the empty directory that was replaced. */
  ghost predicate Follows(fs: Fs, i: Inode, gone: Option<Inode>, d: Inode, d': Inode) {
    if gone == Some(d) then d' == i else d' == d && d in fs.nodes && !Above(fs.nodes, i, d)
  }

  lemma OutsideBelow(fs: Fs, i: Inode, d: Inode, c: Inode)
    requires !Above(fs.nodes, i, d) && Parent(fs.nodes, c) == d && c != i
    ensures !Above(fs.nodes, i, c)
  {
    if k: nat :| Up(fs.nodes, c, k) == i {
      assert k > 0 && Up(fs.nodes, d, k - 1) == i;
    }
  }

  lemma OutsideAbove(fs: Fs, i: Inode, d: Inode)
    requires !Above(fs.nodes, i, d)
    ensures d != i && !Above(fs.nodes, i, Parent(fs.nodes, d))
  {
    assert Up(fs.nodes, d, 0) == d;
    if k: nat :| Up(fs.nodes, Parent(fs.nodes, d), k) == i {
      assert Up(fs.nodes, d, k + 1) == i;
    }
  }

  lemma DestinationIsOutside(fs: Fs, op: Inode, on: string, np: Inode, nn: string, i: Inode, gone: Option<Inode>)
    requires MayMove(fs, op, on, np, nn, i, gone)
    ensures Follows(fs, i, gone, np, np)
  {
    Bystanders(fs, op, on, np, nn, i, gone);
    forall k: nat ensures Up(fs.nodes, np, k) != i {
      DestinationOutside(fs, op, on, np, nn, i, gone, k);
    }
  }

  /** One entry for each child. */
  lemma OneEntry(fs: Fs, d: Inode, n: string, e: Inode, m: string)
    requires WellFormed(fs) && Child(fs.nodes, d, n).Some? && Child(fs.nodes, d, n) == Child(fs.nodes, e, m)
    ensures d == e && n == m
  {
  }

  /** A step through an entry the move leaves alone, or through the replaced one. */
  lemma EntryStep(fs: Fs, op: Inode, on: string, np: Inode, nn: string, i: Inode, gone: Option<Inode>, d: Inode, n: string)
    requires MayMove(fs, op, on, np, nn, i, gone) && gone != Some(d) && Follows(fs, i, gone, d, d)
    requires Child(fs.nodes, d, n).Some? && !(d == op && n == on)
    ensures var c' := Child(Moved(fs.nodes, op, on, np, nn, i, gone), d, n);
            c'.Some? && Follows(fs, i, gone, Child(fs.nodes, d, n).value, c'.value)
  {
    hide Moved, Above, Mutual, ReachesRoot;
    MoveIsMutual(fs, op, on, np, nn, i, gone);
    EntryFacts(fs, d, n);
    EntryFacts(fs, op, on);
    var c := Child(fs.nodes, d, n).value;
    if c == i {
      OneEntry(fs, d, n, op, on);
    }
    if gone == Some(c) {
      OneEntry(fs, d, n, np, nn);
    } else {
      OutsideBelow(fs, i, d, c);
    }
  }

  lemma UpStep(fs: Fs, op: Inode, on: string, np: Inode, nn: string, i: Inode, gone: Option<Inode>, d: Inode)
    requires MayMove(fs, op, on, np, nn, i, gone) && gone != Some(d) && Follows(fs, i, gone, d, d)
    ensures var nodes' := Moved(fs.nodes, op, on, np, nn, i, gone);
            && d in nodes' && Parent(nodes', d) == Parent(fs.nodes, d)
            && Follows(fs, i, gone, Parent(fs.nodes, d), Parent(fs.nodes, d))
  {
    hide Moved, Above, Mutual, ReachesRoot;
    MoveIsMutual(fs, op, on, np, nn, i, gone);
    OutsideAbove(fs, i, d);
    ParentIsDir(fs, d);
    Bystanders(fs, op, on, np, nn, i, gone);
    if gone.Some? {
      ChildlessIsNoParent(fs, gone.value);
    }
  }

  lemma WalkStep(fs: Fs, op: Inode, on: string, np: Inode, nn: string, i: Inode, gone: Option<Inode>,
                 d: Inode, d': Inode, n: string)
    requires MayMove(fs, op, on, np, nn, i, gone) && Follows(fs, i, gone, d, d') && Lookup(fs.nodes, d, n).Ok?
    ensures var after := Lookup(Moved(fs.nodes, op, on, np, nn, i, gone), d', n);
            if d == op && n == on then after.Err?
            else after.Ok? && Follows(fs, i, gone, Lookup(fs.nodes, d, n).value, after.value)
  {
    hide Moved, Above, WellFormed;
    MoveIsMutual(fs, op, on, np, nn, i, gone);
    Bystanders(fs, op, on, np, nn, i, gone);
    EntryFacts(fs, op, on);
    if gone == Some(d) {
      EntryFacts(fs, np, nn);
      DestinationIsOutside(fs, op, on, np, nn, i, gone);
    } else {
      UpStep(fs, op, on, np, nn, i, gone, d);
      if n != "." && n != ".." && !(d == op && n == on) {
        EntryStep(fs, op, on, np, nn, i, gone, d, n);
      }
    }
  }

  /** Any names that led somewhere: they now fail if they take the entry that
      was moved away, and otherwise lead where they led, or to the moved node
      instead of the empty directory it replaced. */
  lemma {:induction false} WayKept(fs: Fs, op: Inode, on: string, np: Inode, nn: string, i: Inode, gone: Option<Inode>,
                                   d: Inode, d': Inode, names: seq<string>)
    requires MayMove(fs, op, on, np, nn, i, gone) && Follows(fs, i, gone, d, d') && Walk(fs.nodes, d, names).Ok?
    ensures var after := Walk(Moved(fs.nodes, op, on, np, nn, i, gone), d', names);
            if Takes(fs.nodes, d, names, op, on) then after.Err?
            else after.Ok? && Follows(fs, i, gone, Walk(fs.nodes, d, names).value, after.value)
    decreases |names|
  {
    hide Moved, MayMove, Lookup, Follows;
    if names != [] {
      WalkStep(fs, op, on, np, nn, i, gone, d, d', names[0]);
      if !(d == op && names[0] == on) {
        WayKept(fs, op, on, np, nn, i, gone, Lookup(fs.nodes, d, names[0]).value,
                Lookup(Moved(fs.nodes, op, on, np, nn, i, gone), d', names[0]).value, names[1..]);
      }
    }
  }

  /** What a rename leaves alone: every path of the filesystem that does not go
      through the old name still leads to the same node, and one that led to the
      replaced node leads to the moved one. */
  lemma OtherPathsKept(fs: Fs, op: Inode, on: string, np: Inode, nn: string, names: seq<string>)
    requires WellFormed(fs) && Rename(fs, op, on, np, nn).1.Ok? && !(op == np && on == nn)
    requires Walk(fs.nodes, ROOT, names).Ok?
    ensures Child(fs.nodes, op, on).Some?
    ensures var before, after := Walk(fs.nodes, ROOT, names).value, Walk(Rename(fs, op, on, np, nn).0.nodes, ROOT, names);
            if Takes(fs.nodes, ROOT, names, op, on) then after.Err?
            else after == Ok(if Child(fs.nodes, np, nn) == Some(before) then Child(fs.nodes, op, on).value else before)
  {
    hide Moved, Takes, Above, Walk;
    RenameMoves(fs, op, on, np, nn);
    var i, gone := Child(fs.nodes, op, on).value, Child(fs.nodes, np, nn);
    RootIsOutside(fs, op, on, np, nn, i, gone);
    WayKept(fs, op, on, np, nn, i, gone, ROOT, ROOT, names);
  }

  lemma RootIsOutside(fs: Fs, op: Inode, on: string, np: Inode, nn: string, i: Inode, gone: Option<Inode>)
    requires MayMove(fs, op, on, np, nn, i, gone)
    ensures Follows(fs, i, gone, ROOT, ROOT)
  {
    Bystanders(fs, op, on, np, nn, i, gone);
    forall k: nat ensures Up(fs.nodes, ROOT, k) != i {
      UpFromRoot(fs.nodes, k);
    }
  }

  /** On one filesystem: the destination's path leads to the moved node exactly
      when the rename had nothing to do or the way to the destination's parent
      does not take the old entry. */
  lemma RenamedBelow(fs: Fs, op: Inode, on: string, np: Inode, nn: string, names: seq<string>)
    requires WellFormed(fs) && Rename(fs, op, on, np, nn).1.Ok? && Walk(fs.nodes, ROOT, names) == Ok(np)
    ensures ValidName(nn) && Child(fs.nodes, op, on).Some? && Child(fs.nodes, op, on).value != ROOT
    ensures Walk(Rename(fs, op, on, np, nn).0.nodes, ROOT, names + [nn]) == Ok(Child(fs.nodes, op, on).value)
       <==> (op == np && on == nn) || !Takes(fs.nodes, ROOT, names, op, on)
  {
    hide Moved, Takes, Above;
    RenameMoves(fs, op, on, np, nn);
    EntryFacts(fs, op, on);
    var i, gone := Child(fs.nodes, op, on).value, Child(fs.nodes, np, nn);
    var nodes' := Rename(fs, op, on, np, nn).0.nodes;
    WalkAppend(nodes', ROOT, names, nn);
    if gone != Some(i) {
      RootIsOutside(fs, op, on, np, nn, i, gone);
      WayKept(fs, op, on, np, nn, i, gone, ROOT, ROOT, names);
      Bystanders(fs, op, on, np, nn, i, gone);
      MoveIsMutual(fs, op, on, np, nn, i, gone);
      assert Child(nodes', np, nn) == Some(i);
    }
  }

  // ---------------------------------------------------------------------
  // By path
  // ---------------------------------------------------------------------

  /** Resolving `path` looks up `name` in directory `dir` on the way. */
  ghost predicate LeadsThrough(mounts: seq<Mount>, disks: Disks, path: string, dir: Inode, name: string) {
    && path != "" && path[0] == '/' && Best(mounts, path).Some?
    && var m := Best(mounts, path).value;
       && StartsWithMount(path, m.path)
       && Takes(NodesOn(disks, m.fs), ROOT, Components(Relative(path, m.path)), dir, name)
  }

  /** The two parents resolve, on one filesystem. */
  ghost predicate Parents(mounts: seq<Mount>, disks: Disks, from: string, to: string, id: FsId, op: Inode, np: Inode) {
    && SplitParent(from).Ok? && SplitParent(to).Ok? && id in disks
    && Resolve(mounts, disks, SplitParent(from).value.0) == Ok((id, op))
    && Resolve(mounts, disks, SplitParent(to).value.0) == Ok((id, np))
  }

  /** What a caller can ask before the call: the destination is no mount point,
      and its parent's path does not lead through the entry to be moved, unless
      there is nothing to move. */
  ghost predicate StaysInReach(mounts: seq<Mount>, disks: Disks, from: string, to: string, op: Inode, np: Inode)
    requires SplitParent(from).Ok? && SplitParent(to).Ok?
  {
    var (fromName, (toParent, toName)) := (SplitParent(from).value.1, SplitParent(to).value);
    && !IsMountPoint(mounts, to)
    && ((op == np && fromName == toName) || !LeadsThrough(mounts, disks, toParent, op, fromName))
  }

  /** After a successful rename the destination path resolves to the node that
      was moved, exactly under that condition; only the one filesystem changed. */
  lemma RenamedIsFound(mounts: seq<Mount>, disks: Disks, from: string, to: string)
    returns (id: FsId, op: Inode, np: Inode, i: Inode)
    requires TableOk(mounts) && DisksOk(disks) && RenamePath(mounts, disks, from, to).1.Ok?
    ensures Parents(mounts, disks, from, to, id, op, np)
    ensures Child(disks[id].nodes, op, SplitParent(from).value.1) == Some(i)
    ensures var disks' := RenamePath(mounts, disks, from, to).0;
            && id in disks' && disks' == disks[id := disks'[id]] && WellFormed(disks'[id])
            && (Resolve(mounts, disks', to) == Ok((id, i)) <==> StaysInReach(mounts, disks, from, to, op, np))
  {
    id, op, np := RenameSucceeds(mounts, disks, from, to);
    hide SplitParent, TrimEnd, WellFormed, Rename, RenamePath, IsMountPoint, Resolve, LeadsThrough, Best, Child;
    var (fromName, (toParent, toName)) := (SplitParent(from).value.1, SplitParent(to).value);
    var fs := disks[id];
    var names := ParentWalk(mounts, disks, toParent, id, np);
    RenamedBelow(fs, op, fromName, np, toName, names);
    RenameKeepsWellFormed(fs, op, fromName, np, toName);
    TakesByPath(mounts, disks, toParent, id, names, op, fromName);
    i := Child(fs.nodes, op, fromName).value;
    var disks' := RenamePath(mounts, disks, from, to).0;
    var q := SplitShape(to, toParent, toName);
    if IsMountPoint(mounts, to) {
      DestinationHidden(mounts, disks', to, q, toParent, toName);
    } else {
      DestinationWalk(mounts, disks', to, q, toParent, toName, id, names);
    }
  }

  /** `rename` by path succeeds exactly when both parents resolve on one
      filesystem and that filesystem can do it; a failure changes nothing. */
  lemma RenamePathOutcome(mounts: seq<Mount>, disks: Disks, from: string, to: string)
    requires DisksOk(disks)
    ensures RenamePath(mounts, disks, from, to).1.Ok? <==>
            exists id, op, np :: Parents(mounts, disks, from, to, id, op, np)
                              && Renamable(disks[id], op, SplitParent(from).value.1, np, SplitParent(to).value.1)
    ensures RenamePath(mounts, disks, from, to).1.Err? ==> RenamePath(mounts, disks, from, to).0 == disks
  {
    hide SplitParent, Resolve, Rename, Renamable, WellFormed;
    if SplitParent(from).Ok? && SplitParent(to).Ok? {
      var (a, b) := (Resolve(mounts, disks, SplitParent(from).value.0), Resolve(mounts, disks, SplitParent(to).value.0));
      if a.Ok? && b.Ok? && a.value.0 == b.value.0 && a.value.0 in disks {
        var (id, op, np) := (a.value.0, a.value.1, b.value.1);
        assert Parents(mounts, disks, from, to, id, op, np);
        RenameOutcome(disks[id], op, SplitParent(from).value.1, np, SplitParent(to).value.1);
        RenameFails(disks[id], op, SplitParent(from).value.1, np, SplitParent(to).value.1);
        assert disks[id := disks[id]] == disks;
      }
    }
  }

  lemma RenameFails(fs: Fs, op: Inode, on: string, np: Inode, nn: string)
    ensures Rename(fs, op, on, np, nn).1.Err? ==> Rename(fs, op, on, np, nn).0 == fs
  {
    hide Moved, Above;
  }

  /** The two parents lie on different filesystems. */
  lemma CrossDeviceIff(mounts: seq<Mount>, disks: Disks, from: string, to: string)
    ensures RenamePath(mounts, disks, from, to).1 == Err(CrossDevice) <==>
            && SplitParent(from).Ok? && SplitParent(to).Ok?
            && var (a, b) := (Resolve(mounts, disks, SplitParent(from).value.0), Resolve(mounts, disks, SplitParent(to).value.0));
               a.Ok? && b.Ok? && a.value.0 != b.value.0
  {
    hide Moved, Above, Resolve, SplitParent;
    SplitsSomewhere(from);
    SplitsSomewhere(to);
    if SplitParent(from).Ok? && SplitParent(to).Ok? {
      ResolveErrors(mounts, disks, SplitParent(from).value.0);
      ResolveErrors(mounts, disks, SplitParent(to).value.0);
    }
  }

  lemma RenameSucceeds(mounts: seq<Mount>, disks: Disks, from: string, to: string) returns (id: FsId, op: Inode, np: Inode)
    requires RenamePath(mounts, disks, from, to).1.Ok?
    ensures Parents(mounts, disks, from, to, id, op, np)
    ensures var (fs, r) := Rename(disks[id], op, SplitParent(from).value.1, np, SplitParent(to).value.1);
            r.Ok? && RenamePath(mounts, disks, from, to).0 == disks[id := fs]
  {
    hide SplitParent, Resolve, Rename;
    id, op := Resolve(mounts, disks, SplitParent(from).value.0).value.0, Resolve(mounts, disks, SplitParent(from).value.0).value.1;
    np := Resolve(mounts, disks, SplitParent(to).value.0).value.1;
  }

  /** `path` lies on filesystem `id`, and `names` are what is walked there. */
  ghost predicate Walked(mounts: seq<Mount>, path: string, id: FsId, names: seq<string>) {
    && path != "" && path[0] == '/' && Best(mounts, path).Some?
    && var m := Best(mounts, path).value;
       m.fs == id && StartsWithMount(path, m.path) && names == Components(Relative(path, m.path))
  }

  lemma ParentWalk(mounts: seq<Mount>, disks: Disks, path: string, id: FsId, dir: Inode) returns (names: seq<string>)
    requires Resolve(mounts, disks, path) == Ok((id, dir)) && id in disks
    ensures Walked(mounts, path, id, names) && Walk(disks[id].nodes, ROOT, names) == Ok(dir)
  {
    hide Best, StartsWithMount, Components, Walk, Relative;
    BestIsLongest(mounts, path);
    names := Components(Relative(path, Best(mounts, path).value.path));
  }

  lemma TakesByPath(mounts: seq<Mount>, disks: Disks, path: string, id: FsId, names: seq<string>, dir: Inode, name: string)
    requires Walked(mounts, path, id, names) && id in disks
    ensures LeadsThrough(mounts, disks, path, dir, name) <==> Takes(disks[id].nodes, ROOT, names, dir, name)
  {
    hide Best, StartsWithMount, Components, Takes, Relative;
  }

  lemma DestinationHidden(mounts: seq<Mount>, disks: Disks, to: string, q: string, parent: string, name: string)
    requires TableOk(mounts) && Shape(to, TrimEnd(to), q, parent, name) && to != "" && to[0] == '/' && IsMountPoint(mounts, to)
    ensures exists id :: Resolve(mounts, disks, to) == Ok((id, ROOT))
  {
    hide Shape, TrimEnd, Resolve;
    var m :| m in mounts && m.path == TrimEnd(to);
    NamedMountPoint(mounts, disks, to, q, parent, name, m);
  }

  lemma DestinationWalk(mounts: seq<Mount>, disks: Disks, to: string, q: string, parent: string, name: string,
                        id: FsId, names: seq<string>)
    requires TableOk(mounts) && Shape(to, TrimEnd(to), q, parent, name) && to != "" && to[0] == '/'
    requires !IsMountPoint(mounts, to) && Walked(mounts, parent, id, names) && id in disks && ValidName(name)
    ensures Resolve(mounts, disks, to) ==
            match Walk(disks[id].nodes, ROOT, names + [name]) { case Ok(i) => Ok((id, i)) case Err(e) => Err(e) }
  {
    hide Best, StartsWithMount, Components, Walk, TrimEnd, Shape, Relative;
    OnParentsMount(mounts, to, q, parent, name);
    BestIsLongest(mounts, to);
    ParentComponents(to, TrimEnd(to), q, parent, name, Best(mounts, to).value.path);
    ComponentsOfName(name);
  }

  // ---------------------------------------------------------------------
  // Renaming "/a" to "/a/../b"
  // ---------------------------------------------------------------------

  const A_DIR: Inode := 2

  /** One filesystem at "/" that holds one empty directory, "a". */
  const ONE_DIR := Fs(map[ROOT := Node(ROOT, Directory(map["a" := A_DIR])), A_DIR := Node(ROOT, Directory(map[]))], 3)
  const ONE_MOUNT := [Mount("/", 0)]
  const ONE_DISK: Disks := map[0 := ONE_DIR]

  lemma OneDirIsOk()
    ensures TableOk(ONE_MOUNT) && DisksOk(ONE_DISK)
  {
    var nodes := ONE_DIR.nodes;
    assert Up(nodes, ROOT, 0) == ROOT && Up(nodes, A_DIR, 1) == Up(nodes, ROOT, 0);
    assert Child(nodes, ROOT, "a") == Some(A_DIR);
    assert ValidName("a");
  }

  lemma SplitsAt(path: string, k: nat)
    requires k + 1 < |path| && path[0] == '/' && path[k] == '/' && '/' !in path[k + 1..]
    ensures SplitParent(path) == Ok((if k == 0 then "/" else path[..k], path[k + 1..]))
  {
    hide TrimEnd, LastSlash;
    NothingToTrim(path, k);
    LastSlashAt(path, k);
  }

  lemma NothingToTrim(path: string, k: nat)
    requires k + 1 < |path| && '/' !in path[k + 1..]
    ensures TrimEnd(path) == path
  {
    assert path[|path| - 1] == path[k + 1..][|path| - k - 2];
  }

  lemma LastSlashAt(path: string, k: nat)
    requires k < |path| && path[k] == '/' && '/' !in path[k + 1..]
    ensures LastSlash(path) == k
  {
    var last := LastSlash(path);
    hide LastSlash;
    assert forall j | k < j < |path| :: path[j] == path[k + 1..][j - k - 1];
    assert forall j | last < j < |path| :: path[j] == path[last + 1..][j - last - 1];
  }

  lemma ClimbingSplits()
    ensures SplitParent("/a") == Ok(("/", "a")) && SplitParent("/a/../b") == Ok(("/a/..", "b"))
  {
    hide SplitParent;
    assert "/a"[1..] == "a" && "/a/../b"[..5] == "/a/.." && "/a/../b"[6..] == "b";
    SplitsAt("/a", 0);
    SplitsAt("/a/../b", 5);
  }

  lemma BelowSlash(rest: string)
    ensures Components(Relative("/" + rest, "/")) == Components(rest)
  {
    hide Components;
    assert ("/" + rest)[1..] == rest;
    ComponentsTrimStart(rest);
  }

  lemma ClimbingComponents()
    ensures Components(Relative("/", "/")) == [] && Components(Relative("/a/..", "/")) == ["a", ".."]
    ensures Components(Relative("/a/../b", "/")) == ["a", "..", "b"]
  {
    hide Components, Relative;
    assert "/" == "/" + "" && "/a/.." == "/" + "a/.." && "/a/../b" == "/" + "a/../b";
    BelowSlash("");
    BelowSlash("a/..");
    BelowSlash("a/../b");
    ComponentsOfName("");
    ComponentsOfName("a");
    ComponentsOfName("..");
    ComponentsOfName("b");
    assert "a/.." == "a" + "/" + ".." && "a/../b" == "a/.." + "/" + "b";
    ComponentsJoin("a", "..");
    ComponentsJoin("a/..", "b");
  }

  lemma OneMountResolves(disks: Disks, path: string)
    requires path != "" && path[0] == '/'
    ensures Resolve(ONE_MOUNT, disks, path) ==
            match Walk(NodesOn(disks, 0), ROOT, Components(Relative(path, "/"))) { case Ok(i) => Ok((0, i)) case Err(e) => Err(e) }
  {
    hide Components, Relative, Walk;
    assert ONE_MOUNT[..0] == [];
  }

  lemma OneDirRenamed()
    ensures var (fs, r) := Rename(ONE_DIR, ROOT, "a", ROOT, "b"); r.Ok? && Lookup(fs.nodes, ROOT, "a") == Err(NotFound)
  {
    hide Moved, WellFormed;
    OneDirIsOk();
    var nodes := ONE_DIR.nodes;
    forall k: nat ensures Up(nodes, ROOT, k) != A_DIR {
      UpFromRoot(nodes, k);
    }
    assert ONE_DISK[0] == ONE_DIR;
    RenameMoves(ONE_DIR, ROOT, "a", ROOT, "b");
    MoveIsMutual(ONE_DIR, ROOT, "a", ROOT, "b", A_DIR, None);
    assert Child(Moved(nodes, ROOT, "a", ROOT, "b", A_DIR, None), ROOT, "a") == None;
  }

  lemma UpAndDown()
    ensures Walk(ONE_DIR.nodes, ROOT, ["a", ".."]) == Ok(ROOT)
  {
    assert ["a", ".."][1..] == [".."] && [".."][1..] == [];
    assert Lookup(ONE_DIR.nodes, ROOT, "a") == Ok(A_DIR) && Lookup(ONE_DIR.nodes, A_DIR, "..") == Ok(ROOT);
    assert Walk(ONE_DIR.nodes, A_DIR, [".."]) == Ok(ROOT);
  }

  /** It succeeds, and afterwards the destination path does not resolve. */
  lemma ClimbingOutOfTheMoved()
    ensures RenamePath(ONE_MOUNT, ONE_DISK, "/a", "/a/../b").1.Ok?
    ensures Resolve(ONE_MOUNT, RenamePath(ONE_MOUNT, ONE_DISK, "/a", "/a/../b").0, "/a/../b") == Err(NotFound)
  {
    hide SplitParent, Components, Relative, Rename, Resolve, Lookup;
    ClimbingSplits();
    ClimbingComponents();
    UpAndDown();
    OneDirRenamed();
    OneMountResolves(ONE_DISK, "/");
    OneMountResolves(ONE_DISK, "/a/..");
    OneMountResolves(RenamePath(ONE_MOUNT, ONE_DISK, "/a", "/a/../b").0, "/a/../b");
    assert Walk(ONE_DIR.nodes, ROOT, []) == Ok(ROOT);
  }
}
