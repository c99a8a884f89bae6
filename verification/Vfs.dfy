/**
The mount table over a set of filesystems: longest-prefix resolution, and the
creating form of `open`.
 */
module Vfs {
  import opened Common
  import opened RamFs
  import opened RamFsOutcomes
  import opened Paths

  /** Identity of a mounted filesystem object. */
  type FsId = nat

  datatype Mount = Mount(path: string, fs: FsId)

  // ---------------------------------------------------------------------
  // Choosing a mount
  // ---------------------------------------------------------------------

  /** The last mount of greatest path length among those that match. */
  function Best(mounts: seq<Mount>, path: string): Option<Mount>
    decreases |mounts|
  {
    if mounts == [] then None
    else
      var n := |mounts| - 1;
      var before := Best(mounts[..n], path);
      if !StartsWithMount(path, mounts[n].path) then before
      else if before.None? || |before.value.path| <= |mounts[n].path| then Some(mounts[n])
      else before
  }

  ghost predicate Distinct(mounts: seq<Mount>) {
    forall i, j | 0 <= i < j < |mounts| :: mounts[i].path != mounts[j].path
  }

  ghost predicate TableOk(mounts: seq<Mount>) {
    Distinct(mounts) && forall m | m in mounts :: Normal(m.path)
  }

  /** Matching, and no shorter than any other match. */
  ghost predicate Longest(mounts: seq<Mount>, path: string, m: Mount) {
    && m in mounts && StartsWithMount(path, m.path)
    && forall o | o in mounts && StartsWithMount(path, o.path) :: |o.path| <= |m.path|
  }

  lemma {:induction false} BestIsLongest(mounts: seq<Mount>, path: string)
    ensures Best(mounts, path).Some? ==> Longest(mounts, path, Best(mounts, path).value)
    ensures Best(mounts, path).None? ==> forall m | m in mounts :: !StartsWithMount(path, m.path)
    decreases |mounts|
  {
    if mounts != [] {
      var n := |mounts| - 1;
      assert mounts == mounts[..n] + [mounts[n]];
      BestIsLongest(mounts[..n], path);
    }
  }

  /** Two matches of an absolute path with paths of the same length are at the
      same path. */
  lemma MatchesOfSameLength(path: string, a: string, b: string)
    requires path != "" && path[0] == '/'
    requires StartsWithMount(path, a) && StartsWithMount(path, b) && |a| == |b|
    ensures a == b
  {
    assert "/" <= path;
    assert a == path[..|a|] && b == path[..|b|];
  }

  lemma LongestIsUnique(mounts: seq<Mount>, mounts': seq<Mount>, path: string, m: Mount, m': Mount)
    requires path != "" && path[0] == '/' && Distinct(mounts)
    requires forall x :: x in mounts <==> x in mounts'
    requires Longest(mounts, path, m) && Longest(mounts', path, m')
    ensures m == m'
  {
    MatchesOfSameLength(path, m.path, m'.path);
    var i :| 0 <= i < |mounts| && mounts[i] == m;
    var j :| 0 <= j < |mounts| && mounts[j] == m';
  }

  /** The choice does not depend on the order in which mounts were made. */
  lemma BestIgnoresOrder(mounts: seq<Mount>, mounts': seq<Mount>, path: string)
    requires path != "" && path[0] == '/' && Distinct(mounts)
    requires forall x :: x in mounts <==> x in mounts'
    ensures Best(mounts, path) == Best(mounts', path)
  {
    BestIsLongest(mounts, path);
    BestIsLongest(mounts', path);
    if Best(mounts, path).Some? && Best(mounts', path).Some? {
      LongestIsUnique(mounts, mounts', path, Best(mounts, path).value, Best(mounts', path).value);
    }
  }

  // ---------------------------------------------------------------------
  // Resolution
  // ---------------------------------------------------------------------

  type Disks = map<FsId, Fs>

  function NodesOn(disks: Disks, id: FsId): Nodes {
    if id in disks then disks[id].nodes else map[]
  }

  /** Walk an absolute path to a filesystem and inode. */
  function Resolve(mounts: seq<Mount>, disks: Disks, path: string): Result<(FsId, Inode), FsError> {
    if path == "" || path[0] != '/' then Err(InvalidPath)
    else
      match Best(mounts, path)
      case None => Err(NotFound)
      case Some(m) =>
        BestIsLongest(mounts, path);
        match Walk(NodesOn(disks, m.fs), ROOT, Components(Relative(path, m.path)))
        case Ok(i) => Ok((m.fs, i))
        case Err(e) => Err(e)
  }

  lemma {:induction false} WalkErrors(nodes: Nodes, d: Inode, names: seq<string>)
    ensures Walk(nodes, d, names).Err? ==>
              Walk(nodes, d, names).error == NotFound || Walk(nodes, d, names).error == NotADirectory
    decreases |names|
  {
    if names != [] && Lookup(nodes, d, names[0]).Ok? {
      WalkErrors(nodes, Lookup(nodes, d, names[0]).value, names[1..]);
    }
  }

  /** Why a path does not resolve. */
  lemma ResolveErrors(mounts: seq<Mount>, disks: Disks, path: string)
    ensures Resolve(mounts, disks, path) == Err(InvalidPath) <==> path == "" || path[0] != '/'
    ensures Resolve(mounts, disks, path).Err? ==>
              Resolve(mounts, disks, path).error in {InvalidPath, NotFound, NotADirectory}
  {
    if path != "" && path[0] == '/' && Best(mounts, path).Some? {
      var m := Best(mounts, path).value;
      BestIsLongest(mounts, path);
      WalkErrors(NodesOn(disks, m.fs), ROOT, Components(Relative(path, m.path)));
    }
  }

  /** Resolution is independent of the order of the mount table. */
  lemma ResolveIgnoresOrder(mounts: seq<Mount>, mounts': seq<Mount>, disks: Disks, path: string)
    requires Distinct(mounts) && forall x :: x in mounts <==> x in mounts'
    ensures Resolve(mounts, disks, path) == Resolve(mounts', disks, path)
  {
    if path != "" && path[0] == '/' {
      BestIgnoresOrder(mounts, mounts', path);
    }
  }

  // ---------------------------------------------------------------------
  // Opening
  // ---------------------------------------------------------------------

  datatype OpenFlags = OpenFlags(read: bool, write: bool, append: bool, create: bool, truncate: bool, exclusive: bool)

  datatype OpenFile = OpenFile(fs: FsId, inode: Inode, offset: nat, flags: OpenFlags)

  /** `metadata(inode).size` */
  function SizeOf(nodes: Nodes, i: Inode): Result<nat, FsError> {
    if i !in nodes then Err(NotFound) else Ok(NodeSize(nodes[i].kind))
  }

  /** The first half of `open`: find the inode, creating the file if asked to. */
  function Find(mounts: seq<Mount>, disks: Disks, path: string, flags: OpenFlags)
    : (Disks, Result<(FsId, Inode), FsError>)
  {
    match Resolve(mounts, disks, path)
    case Ok(found) =>
      if flags.exclusive && flags.create then (disks, Err(AlreadyExists)) else (disks, Ok(found))
    case Err(NotFound) =>
      if flags.create then Make(mounts, disks, path) else (disks, Err(NotFound))
    case Err(e) => (disks, Err(e))
  }

  function Make(mounts: seq<Mount>, disks: Disks, path: string): (Disks, Result<(FsId, Inode), FsError>) {
    match SplitParent(path)
    case Err(e) => (disks, Err(e))
    case Ok((parent, name)) =>
      match Resolve(mounts, disks, parent)
      case Err(e) => (disks, Err(e))
      case Ok((id, dir)) =>
        if id !in disks then (disks, Err(NotFound))
        else
          var (fs, made) := Add(disks[id], dir, name, KindOf(Regular));
          match made
          case Err(e) => (disks, Err(e))
          case Ok(i) => (disks[id := fs], Ok((id, i)))
  }

  /** The second half of `open`: truncate, then place the offset. */
  function Finish(disks: Disks, id: FsId, i: Inode, flags: OpenFlags): (Disks, Result<OpenFile, FsError>) {
    if id !in disks then (disks, Err(NotFound))
    else
      var cut := if flags.truncate && flags.write then Truncate(disks[id], i, 0) else (disks[id], Ok(Unit));
      if cut.1.Err? then (disks, Err(cut.1.error))
      else
        var after := disks[id := cut.0];
        if !flags.append then (after, Ok(OpenFile(id, i, 0, flags)))
        else match SizeOf(cut.0.nodes, i)
          case Err(e) => (after, Err(e))
          case Ok(size) => (after, Ok(OpenFile(id, i, size, flags)))
  }

  function Open(mounts: seq<Mount>, disks: Disks, path: string, flags: OpenFlags): (Disks, Result<OpenFile, FsError>) {
    var (found, r) := Find(mounts, disks, path, flags);
    match r
    case Err(e) => (found, Err(e))
    case Ok((id, i)) => Finish(found, id, i, flags)
  }

  ghost predicate DisksOk(disks: Disks) {
    forall id | id in disks :: WellFormed(disks[id])
  }

  lemma {:induction false} SameMatchesSameBest(mounts: seq<Mount>, path: string, path': string)
    requires forall m | m in mounts :: StartsWithMount(path, m.path) == StartsWithMount(path', m.path)
    ensures Best(mounts, path) == Best(mounts, path')
    decreases |mounts|
  {
    if mounts != [] {
      SameMatchesSameBest(mounts[..|mounts| - 1], path, path');
    }
  }

  ghost predicate IsMountPoint(mounts: seq<Mount>, path: string) {
    exists m :: m in mounts && m.path == TrimEnd(path)
  }

  /** A mount stored under the empty path, hidden by another one at "/". */
  ghost predicate Hidden(mounts: seq<Mount>, m: Mount) {
    m.path == "" && exists o :: o in mounts && o.path == "/" && o.fs != m.fs
  }

  /** A mount point resolves to the root of what is mounted there; the only one
      that does not is "//" when something else is mounted at "/". */
  lemma MountPointIsRoot(mounts: seq<Mount>, disks: Disks, path: string, m: Mount)
    requires TableOk(mounts) && path != "" && path[0] == '/' && m in mounts && m.path == NormalizeMountPath(path)
    ensures Resolve(mounts, disks, path) == Ok((m.fs, ROOT)) <==> !Hidden(mounts, m)
    ensures Resolve(mounts, disks, path).Ok? && Resolve(mounts, disks, path).value.1 == ROOT
  {
    hide TrimEnd, Resolve;
    if TrimEnd(path) == "" {
      OnlySlashes(mounts, disks, path, m);
    } else {
      SplitsSomewhere(path);
      var (parent, name) := SplitParent(path).value;
      var q := SplitShape(path, parent, name);
      BelowTheTop(path);
      NamedMountPoint(mounts, disks, path, q, parent, name, m);
    }
  }

  lemma BelowTheTop(path: string)
    requires TrimEnd(path) != ""
    ensures path != "/"
  {
  }

  /** Every absolute path but the root has a parent and a name. */
  lemma SplitsSomewhere(path: string)
    ensures SplitParent(path).Ok? <==> path != "" && path[0] == '/' && TrimEnd(path) != ""
    ensures SplitParent(path).Err? ==> SplitParent(path).error == InvalidPath
  {
    if path != "" && path[0] == '/' && TrimEnd(path) != "" {
      var t := TrimEnd(path);
      assert t[0] == '/';
      var k := LastSlash(t);
      assert k < |t| - 1;
    }
  }

  lemma NamedMountPoint(mounts: seq<Mount>, disks: Disks, path: string, q: string, parent: string, name: string, m: Mount)
    requires TableOk(mounts) && Shape(path, TrimEnd(path), q, parent, name) && path != "" && path[0] == '/'
    requires m in mounts && m.path == TrimEnd(path)
    ensures Resolve(mounts, disks, path) == Ok((m.fs, ROOT)) && m.path != ""
  {
    var t := TrimEnd(path);
    hide TrimEnd;
    BestIsLongest(mounts, path);
    NothingBelowMount(path, t);
    var best := Best(mounts, path).value;
    if best.path != "/" {
      MatchIsAbove(path, t, q, parent, name, best.path);
    }
    assert best.path == t;
    SamePathSameMount(mounts, m, best);
  }

  lemma SamePathSameMount(mounts: seq<Mount>, m: Mount, o: Mount)
    requires Distinct(mounts) && m in mounts && o in mounts && m.path == o.path
    ensures m == o
  {
    var i :| 0 <= i < |mounts| && mounts[i] == m;
    var j :| 0 <= j < |mounts| && mounts[j] == o;
  }

  /** The top of the tree, written with one slash or with several. */
  lemma OnlySlashes(mounts: seq<Mount>, disks: Disks, path: string, m: Mount)
    requires TableOk(mounts) && path != "" && path[0] == '/' && TrimEnd(path) == ""
    requires m in mounts && m.path == NormalizeMountPath(path)
    ensures Resolve(mounts, disks, path) == Ok((m.fs, ROOT)) <==> !Hidden(mounts, m)
    ensures Resolve(mounts, disks, path).Ok? && Resolve(mounts, disks, path).value.1 == ROOT
  {
    TrimmedRest(path);
    assert path[0..] == path;
    hide TrimEnd;
    BestIsLongest(mounts, path);
    assert StartsWithMount(path, m.path);
    var best := Best(mounts, path).value;
    SlashPrefix(path, best.path);
    SlashesHaveNoComponents(path, best.path);
    if best.path == m.path {
      SamePathSameMount(mounts, m, best);
    }
    assert forall o | o in mounts && o.path == "/" :: StartsWithMount(path, o.path);
    forall o | o in mounts && o.path == best.path
      ensures o == best
    {
      SamePathSameMount(mounts, o, best);
    }
  }

  lemma SlashPrefix(path: string, mount: string)
    requires AllSlashes(path) && StartsWithMount(path, mount) && Normal(mount)
    ensures mount == "" || mount == "/"
  {
    PrefixEnd(path, mount);
  }

  lemma PrefixEnd(path: string, mount: string)
    ensures mount <= path && mount != "" ==> mount[|mount| - 1] == path[|mount| - 1]
  {
  }

  lemma SlashesHaveNoComponents(path: string, mount: string)
    requires path != "" && path[0] == '/' && AllSlashes(path) && (mount == "" || mount == "/")
    ensures StartsWithMount(path, mount) && Components(Relative(path, mount)) == []
  {
    hide Components;
    var rest := if mount == "/" then path[1..] else path;
    assert path[0..] == path;
    ComponentsTrimStart(rest);
    NoComponents();
    ComponentsThenSlashes("", rest);
    assert "" + rest == rest;
  }

  /** Anything else lies on the filesystem its parent lies on. */
  lemma OnParentsMount(mounts: seq<Mount>, path: string, q: string, parent: string, name: string)
    requires TableOk(mounts) && Shape(path, TrimEnd(path), q, parent, name) && path != "" && path[0] == '/'
    requires !IsMountPoint(mounts, path)
    ensures Best(mounts, path) == Best(mounts, parent)
    ensures Best(mounts, path).Some? ==> Best(mounts, path).value.path != TrimEnd(path)
  {
    hide Shape, StartsWithMount, TrimEnd;
    BestIsLongest(mounts, path);
    forall m | m in mounts
      ensures StartsWithMount(path, m.path) == StartsWithMount(parent, m.path)
    {
      ParentMatches(path, TrimEnd(path), q, parent, name, m.path);
    }
    SameMatchesSameBest(mounts, path, parent);
  }

  /** Creating uses the filesystem the path itself lies on. */
  lemma ParentOnSameMount(mounts: seq<Mount>, disks: Disks, path: string, q: string, parent: string, name: string)
    requires TableOk(mounts) && Shape(path, TrimEnd(path), q, parent, name) && path != "" && path[0] == '/'
    requires Resolve(mounts, disks, path).Err?
    ensures Best(mounts, path) == Best(mounts, parent)
    ensures Best(mounts, path).Some? ==> Best(mounts, path).value.path != TrimEnd(path)
  {
    hide Shape, TrimEnd, Resolve;
    if m :| m in mounts && m.path == TrimEnd(path) {
      NamedMountPoint(mounts, disks, path, q, parent, name, m);
    }
    OnParentsMount(mounts, path, q, parent, name);
  }

  /** The filesystem side of making a file. */
  lemma WalkFindsNew(fs: Fs, dir: Inode, names: seq<string>, name: string)
    requires WellFormed(fs) && Walk(fs.nodes, ROOT, names) == Ok(dir)
    requires Add(fs, dir, name, KindOf(Regular)).1.Ok?
    ensures ValidName(name)
    ensures var (fs', r) := Add(fs, dir, name, KindOf(Regular));
            && r.value !in fs.nodes && WellFormed(fs')
            && r.value in fs'.nodes && fs'.nodes[r.value].kind == Kind.File([])
            && Walk(fs'.nodes, ROOT, names + [name]) == r
  {
    hide WellFormed;
    NextIsFresh(fs);
    var fs' := Add(fs, dir, name, KindOf(Regular)).0;
    AddHasFacts(fs.nodes, dir, name, fs.next, Kind.File([]));
    AddKeepsWellFormed(fs, dir, name, KindOf(Regular));
    WalkAfterAdd(fs.nodes, fs'.nodes, dir, name, fs.next, ROOT, names);
    WalkAppend(fs'.nodes, ROOT, names, name);
    assert Child(fs'.nodes, dir, name) == Some(fs.next);
  }

  /** A file made by `open` with `create` lies on the filesystem its path is
      mounted from, is new and empty, and is what the path resolves to from then
      on; no other filesystem changes. */
  lemma MadeIsFound(mounts: seq<Mount>, disks: Disks, path: string)
    requires TableOk(mounts) && DisksOk(disks) && Resolve(mounts, disks, path).Err?
    requires Make(mounts, disks, path).1.Ok?
    ensures var (disks', r) := Make(mounts, disks, path);
            var (id, i) := r.value;
            && Resolve(mounts, disks', path) == Ok((id, i))
            && Best(mounts, path).Some? && Best(mounts, path).value.fs == id
            && id in disks && i !in disks[id].nodes
            && id in disks' && disks' == disks[id := disks'[id]] && WellFormed(disks'[id])
            && i in disks'[id].nodes && disks'[id].nodes[i].kind == Kind.File([])
  {
    var (parent, name) := SplitParent(path).value;
    var (id, dir) := Resolve(mounts, disks, parent).value;
    var q := SplitShape(path, parent, name);
    hide SplitParent, TrimEnd, WellFormed, Components, Add, Walk;
    ParentOnSameMount(mounts, disks, path, q, parent, name);
    BestIsLongest(mounts, path);
    var m := Best(mounts, path).value;
    ParentComponents(path, TrimEnd(path), q, parent, name, m.path);
    WalkFindsNew(disks[id], dir, Components(Relative(parent, m.path)), name);
    ComponentsOfName(name);
  }

  lemma FinishEmpty(disks: Disks, id: FsId, i: Inode, flags: OpenFlags)
    requires id in disks && i in disks[id].nodes && disks[id].nodes[i].kind == Kind.File([])
    ensures Finish(disks, id, i, flags) == (disks, Ok(OpenFile(id, i, 0, flags)))
  {
    var fs := disks[id];
    assert fs.nodes[i := fs.nodes[i].(kind := Kind.File([]))] == fs.nodes;
    assert disks[id := fs] == disks;
  }

  /** The handle `open` returns for a file it created. */
  lemma OpenCreates(mounts: seq<Mount>, disks: Disks, path: string, flags: OpenFlags)
    requires TableOk(mounts) && DisksOk(disks) && flags.create && Resolve(mounts, disks, path) == Err(NotFound)
    requires Make(mounts, disks, path).1.Ok?
    ensures var (disks', r) := Open(mounts, disks, path, flags);
            && r.Ok?
            && Resolve(mounts, disks', path) == Ok((r.value.fs, r.value.inode))
            && Best(mounts, path).Some? && Best(mounts, path).value.fs == r.value.fs
            && r.value.fs in disks && r.value.inode !in disks[r.value.fs].nodes
            && r.value.offset == 0
            && disks' == Make(mounts, disks, path).0
  {
    hide Make, Resolve, WellFormed, Best, Finish;
    MadeIsFound(mounts, disks, path);
    var (disks1, found) := Make(mounts, disks, path);
    var (id, i) := found.value;
    FinishEmpty(disks1, id, i, flags);
  }

  /** The parent of the path is a directory with room for one more file. */
  ghost predicate Creatable(mounts: seq<Mount>, disks: Disks, path: string) {
    && SplitParent(path).Ok?
    && var (parent, name) := SplitParent(path).value;
       && ValidName(name) && Resolve(mounts, disks, parent).Ok?
       && var (id, dir) := Resolve(mounts, disks, parent).value;
          id in disks && IsDir(disks[id].nodes, dir) && disks[id].next < INODE_MAX
  }

  /** A path that does not resolve names no entry of its parent. */
  lemma MissingHasNoEntry(mounts: seq<Mount>, disks: Disks, path: string)
    requires TableOk(mounts) && Resolve(mounts, disks, path) == Err(NotFound) && Creatable(mounts, disks, path)
    ensures var (parent, name) := SplitParent(path).value;
            var (id, dir) := Resolve(mounts, disks, parent).value;
            Child(disks[id].nodes, dir, name).None?
  {
    var (parent, name) := SplitParent(path).value;
    var (id, dir) := Resolve(mounts, disks, parent).value;
    var q := SplitShape(path, parent, name);
    hide SplitParent, TrimEnd, Components, Walk;
    ParentOnSameMount(mounts, disks, path, q, parent, name);
    BestIsLongest(mounts, path);
    var m := Best(mounts, path).value;
    ParentComponents(path, TrimEnd(path), q, parent, name, m.path);
    ComponentsOfName(name);
    WalkAppend(disks[id].nodes, ROOT, Components(Relative(parent, m.path)), name);
  }

  /** `open` with `create` makes a missing file exactly when it can be made. */
  lemma CreatesIff(mounts: seq<Mount>, disks: Disks, path: string, flags: OpenFlags)
    requires TableOk(mounts) && DisksOk(disks) && flags.create && Resolve(mounts, disks, path) == Err(NotFound)
    ensures Open(mounts, disks, path, flags).1.Ok? <==> Creatable(mounts, disks, path)
    ensures Open(mounts, disks, path, flags).1.Err? ==> Open(mounts, disks, path, flags).0 == disks
  {
    hide Resolve, SplitParent, WellFormed, Add, Open, ValidName;
    MakesIff(mounts, disks, path);
    if Make(mounts, disks, path).1.Ok? {
      OpenCreates(mounts, disks, path, flags);
    } else {
      OpenIsMake(mounts, disks, path, flags);
    }
  }

  lemma OpenIsMake(mounts: seq<Mount>, disks: Disks, path: string, flags: OpenFlags)
    requires flags.create && Resolve(mounts, disks, path) == Err(NotFound) && Make(mounts, disks, path).1.Err?
    ensures Open(mounts, disks, path, flags).1.Err? && Open(mounts, disks, path, flags).0 == disks
  {
    hide Resolve, SplitParent, Add;
  }

  lemma MakesIff(mounts: seq<Mount>, disks: Disks, path: string)
    requires TableOk(mounts) && DisksOk(disks) && Resolve(mounts, disks, path) == Err(NotFound)
    ensures Make(mounts, disks, path).1.Ok? <==> Creatable(mounts, disks, path)
  {
    hide Resolve, SplitParent, WellFormed, Add, ValidName;
    if Creatable(mounts, disks, path) {
      MissingHasNoEntry(mounts, disks, path);
    }
    if SplitParent(path).Ok? && Resolve(mounts, disks, SplitParent(path).value.0).Ok? {
      var (id, dir) := Resolve(mounts, disks, SplitParent(path).value.0).value;
      if id in disks {
        AddOutcome(disks[id], dir, SplitParent(path).value.1, KindOf(Regular));
      }
    }
  }

  /** `open` of a path that is there: refused when it should have been created,
      or when something other than a file should be emptied; otherwise a handle
      to it, at the end if `append` is set and at the start if not. Only the
      contents of an emptied file change. */
  lemma OpenExisting(mounts: seq<Mount>, disks: Disks, path: string, flags: OpenFlags, id: FsId, i: Inode)
    requires Resolve(mounts, disks, path) == Ok((id, i)) && id in disks && i in disks[id].nodes
    ensures var (disks', r) := Open(mounts, disks, path, flags);
            var empties := flags.truncate && flags.write;
            && (r.Ok? <==> !(flags.create && flags.exclusive) && (empties ==> disks[id].nodes[i].kind.File?))
            && (r == Err(AlreadyExists) <==> flags.create && flags.exclusive)
            && (r.Err? ==> disks' == disks)
            && (r.Ok? ==>
                  && r.value.fs == id && r.value.inode == i && r.value.flags == flags
                  && r.value.offset == (if flags.append && !empties then NodeSize(disks[id].nodes[i].kind) else 0)
                  && (if empties then
                        && id in disks' && disks' == disks[id := disks'[id]]
                        && OnlyData(disks[id], disks'[id], i) && Data(disks'[id], i) == []
                      else disks' == disks))
  {
    hide Resolve;
    TruncateOutcome(disks[id], i, 0);
    assert disks[id := disks[id]] == disks;
  }

  /** Bytes of a file, entries of a directory, characters of a link's target. */
  function NodeSize(kind: Kind): nat {
    match kind
    case File(data) => |data|
    case Directory(entries) => |entries|
    case Symlink(target) => |target|
  }

  /** Without `create`, a path that does not resolve gives the error it resolves
      to, and nothing is made. */
  lemma OpenMissing(mounts: seq<Mount>, disks: Disks, path: string, flags: OpenFlags)
    requires Resolve(mounts, disks, path).Err? && (flags.create ==> Resolve(mounts, disks, path) != Err(NotFound))
    ensures Open(mounts, disks, path, flags) == (disks, Err(Resolve(mounts, disks, path).error))
  {
    hide Resolve, Make;
  }

  // ---------------------------------------------------------------------
  // The mount table object
  // ---------------------------------------------------------------------

  class MountTable {
    var mounts: seq<Mount>

    ghost predicate Valid()
      reads this
    {
      TableOk(mounts)
    }

    constructor ()
      ensures Valid() && mounts == []
    {
      mounts := [];
    }

    /** Stored paths are normalized and pairwise different. */
    method MountAt(point: string, fs: FsId) returns (r: Result<Unit, FsError>)
      requires Valid()
      modifies this
      ensures Valid()
      ensures r == if point == "" || point[0] != '/' then Err(InvalidPath)
                   else if exists m :: m in old(mounts) && m.path == NormalizeMountPath(point) then Err(AlreadyExists)
                   else Ok(Unit)
      ensures mounts == if r.Ok? then old(mounts) + [Mount(NormalizeMountPath(point), fs)] else old(mounts)
    {
      if point == "" || point[0] != '/' {
        return Err(InvalidPath);
      }
      var normalized := NormalizeMountPath(point);
      var at := Position(normalized);
      if at.Some? {
        assert mounts[at.value] in mounts;
        return Err(AlreadyExists);
      }
      mounts := mounts + [Mount(normalized, fs)];
      return Ok(Unit);
    }

    method Position(path: string) returns (r: Option<nat>)
      ensures r.Some? ==> r.value < |mounts| && mounts[r.value].path == path
      ensures r.None? ==> forall m | m in mounts :: m.path != path
    {
      for k := 0 to |mounts|
        invariant forall j | 0 <= j < k :: mounts[j].path != path
      {
        if mounts[k].path == path {
          return Some(k);
        }
      }
      return None;
    }

    method Unmount(point: string) returns (r: Result<Unit, FsError>)
      requires Valid()
      modifies this
      ensures Valid()
      ensures r == (if exists m :: m in old(mounts) && m.path == NormalizeMountPath(point) then Ok(Unit) else Err(NotFound))
      ensures r.Err? ==> mounts == old(mounts)
      ensures forall m :: m in mounts <==> m in old(mounts) && m.path != NormalizeMountPath(point)
    {
      var normalized := NormalizeMountPath(point);
      var at := Position(normalized);
      if at.None? {
        return Err(NotFound);
      }
      var k := at.value;
      assert mounts[k] in mounts;
      mounts := mounts[..k] + mounts[k + 1..];
      assert forall m | m in old(mounts) && m.path != normalized :: m in mounts by {
        forall m | m in old(mounts) && m.path != normalized
          ensures m in mounts
        {
          var j :| 0 <= j < |old(mounts)| && old(mounts)[j] == m;
          assert mounts[if j < k then j else j - 1] == m;
        }
      }
      return Ok(Unit);
    }

    /** The scan for the longest match, then the walk over the components. */
    method ResolvePath(disks: Disks, path: string) returns (r: Result<(FsId, Inode), FsError>)
      ensures r == Resolve(mounts, disks, path)
    {
      if path == "" || path[0] != '/' {
        return Err(InvalidPath);
      }
      var best: Option<Mount> := None;
      for k := 0 to |mounts|
        invariant best == Best(mounts[..k], path)
      {
        assert mounts[..k + 1][..k] == mounts[..k];
        if StartsWithMount(path, mounts[k].path)
          && (best.None? || |best.value.path| <= |mounts[k].path|) {
          best := Some(mounts[k]);
        }
      }
      assert mounts[..|mounts|] == mounts;
      if best.None? {
        return Err(NotFound);
      }
      BestIsLongest(mounts, path);
      var pieces := Split(Relative(path, best.value.path));
      var nodes := NodesOn(disks, best.value.fs);
      var current := ROOT;
      ghost var goal := Walk(nodes, ROOT, Kept(pieces));
      for k := 0 to |pieces|
        invariant Walk(nodes, current, Kept(pieces[k..])) == goal
      {
        var component := pieces[k];
        assert pieces[k..][1..] == pieces[k + 1..];
        if Skipped(component) {
          assert Kept(pieces[k..]) == Kept(pieces[k + 1..]);
        } else {
          assert Kept(pieces[k..]) == [component] + Kept(pieces[k + 1..]);
          assert Kept(pieces[k..])[1..] == Kept(pieces[k + 1..]);
          var next := Lookup(nodes, current, component);
          if next.Err? {
            return Err(next.error);
          }
          current := next.value;
        }
      }
      return Ok((best.value.fs, current));
    }
  }
}
