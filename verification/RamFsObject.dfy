/**
The filesystem object: the inode table updated in place, each method against
the table function it implements.
 */
module RamFsObject {
  import opened Common
  import opened RamFs
  import opened RamFsRename
  import opened RamFsOutcomes
  import opened RamFsRuns

  class RamFileSystem {
    var nodes: Nodes
    var nextInode: nat

    function Model(): Fs
      reads this
    {
      Fs(nodes, nextInode)
    }

    ghost predicate Valid()
      reads this
    {
      WellFormed(Model())
    }

    /** A table holding only the root directory. */
    constructor ()
      ensures Valid() && Model() == EMPTY_FS
    {
      nodes := map[ROOT := Node(ROOT, Directory(map[]))];
      nextInode := ROOT + 1;
      new;
      EmptyIsWellFormed();
    }

    /** Put `c` under `name` in directory `d`, if `d` is a directory. */
    method InsertEntry(d: Inode, name: string, c: Inode)
      modifies this`nodes
      ensures nodes == if IsDir(old(nodes), d) then WithEntries(old(nodes), d, Entries(old(nodes), d)[name := c])
                       else old(nodes)
    {
      if d in nodes && nodes[d].kind.Directory? {
        var entries := nodes[d].kind.entries;
        nodes := nodes[d := nodes[d].(kind := Directory(entries[name := c]))];
      }
    }

    method RemoveEntry(d: Inode, name: string)
      modifies this`nodes
      ensures nodes == if IsDir(old(nodes), d) then WithEntries(old(nodes), d, Entries(old(nodes), d) - {name})
                       else old(nodes)
    {
      if d in nodes && nodes[d].kind.Directory? {
        var entries := nodes[d].kind.entries;
        nodes := nodes[d := nodes[d].(kind := Directory(entries - {name}))];
      }
    }

    method LookupName(parent: Inode, name: string) returns (r: Result<Inode, FsError>)
      ensures r == Lookup(nodes, parent, name)
    {
      if parent !in nodes {
        return Err(NotFound);
      }
      match nodes[parent].kind {
        case Directory(entries) =>
          if name == "." {
            return Ok(parent);
          }
          if name == ".." {
            return Ok(nodes[parent].parent);
          }
          if name in entries {
            return Ok(entries[name]);
          }
          return Err(NotFound);
        case _ =>
          return Err(NotADirectory);
      }
    }

    /** The table update shared by `create` and `symlink`. */
    method AddNode(parent: Inode, name: string, kind: Option<Kind>) returns (r: Result<Inode, FsError>)
      requires Valid()
      requires kind.Some? && kind.value.Directory? ==> kind.value.entries == map[]
      modifies this
      ensures Valid() && (Model(), r) == Add(old(Model()), parent, name, kind)
    {
      hide WellFormed, ValidName;
      AddKeepsWellFormed(Model(), parent, name, kind);
      if !ValidName(name) {
        return Err(InvalidArgument);
      }
      if parent !in nodes {
        return Err(NotFound);
      }
      if !nodes[parent].kind.Directory? {
        return Err(NotADirectory);
      }
      if name in nodes[parent].kind.entries {
        return Err(AlreadyExists);
      }
      if kind.None? {
        return Err(Unsupported);
      }
      var inum := nextInode;
      if nextInode >= INODE_MAX {
        return Err(NoSpace);
      }
      nextInode := nextInode + 1;
      nodes := nodes[inum := Node(parent, kind.value)];
      InsertEntry(parent, name, inum);
      return Ok(inum);
    }

    method CreateNode(parent: Inode, name: string, fileType: FileType) returns (r: Result<Inode, FsError>)
      requires Valid()
      modifies this
      ensures Valid() && (Model(), r) == Add(old(Model()), parent, name, KindOf(fileType))
    {
      r := AddNode(parent, name, KindOf(fileType));
    }

    method CreateSymlink(parent: Inode, name: string, target: string) returns (r: Result<Inode, FsError>)
      requires Valid()
      modifies this
      ensures Valid() && (Model(), r) == Add(old(Model()), parent, name, Some(Symlink(target)))
    {
      r := AddNode(parent, name, Some(Symlink(target)));
    }

    method UnlinkName(parent: Inode, name: string) returns (r: Result<Unit, FsError>)
      requires Valid()
      modifies this`nodes
      ensures Valid() && (Model(), r) == Unlink(old(Model()), parent, name)
      ensures var c := Child(old(nodes), parent, name);
              && (r.Ok? <==> c.Some? && !IsDir(old(nodes), c.value))
              && (r.Ok? ==> Dropped(old(Model()), Model(), parent, name, c.value))
    {
      hide WellFormed, Dropped;
      UnlinkKeepsWellFormed(Model(), parent, name);
      UnlinkOutcome(Model(), parent, name);
      if parent !in nodes {
        return Err(NotFound);
      }
      if !nodes[parent].kind.Directory? {
        return Err(NotADirectory);
      }
      if name !in nodes[parent].kind.entries {
        return Err(NotFound);
      }
      var inum := nodes[parent].kind.entries[name];
      if inum !in nodes {
        return Err(NotFound);
      }
      if nodes[inum].kind.Directory? {
        return Err(IsADirectory);
      }
      RemoveEntry(parent, name);
      nodes := nodes - {inum};
      return Ok(Unit);
    }

    method RmdirName(parent: Inode, name: string) returns (r: Result<Unit, FsError>)
      requires Valid()
      modifies this`nodes
      ensures Valid() && (Model(), r) == Rmdir(old(Model()), parent, name)
      ensures var c := Child(old(nodes), parent, name);
              && (r.Ok? <==> c.Some? && IsDir(old(nodes), c.value) && Entries(old(nodes), c.value) == map[])
              && (r.Ok? ==> Dropped(old(Model()), Model(), parent, name, c.value))
    {
      hide WellFormed, Dropped;
      RmdirKeepsWellFormed(Model(), parent, name);
      RmdirOutcome(Model(), parent, name);
      if parent !in nodes {
        return Err(NotFound);
      }
      if !nodes[parent].kind.Directory? {
        return Err(NotADirectory);
      }
      if name !in nodes[parent].kind.entries {
        return Err(NotFound);
      }
      var inum := nodes[parent].kind.entries[name];
      if inum !in nodes {
        return Err(NotFound);
      }
      if !nodes[inum].kind.Directory? {
        return Err(NotADirectory);
      }
      if nodes[inum].kind.entries != map[] {
        return Err(NotEmpty);
      }
      RemoveEntry(parent, name);
      nodes := nodes - {inum};
      return Ok(Unit);
    }

    /** Copy out at most `len` bytes from `offset` on. */
    method ReadAt(inode: Inode, offset: U64, len: nat) returns (r: Result<seq<Byte>, FsError>)
      ensures r == Read(Model(), inode, offset, len)
    {
      if inode !in nodes {
        return Err(NotFound);
      }
      match nodes[inode].kind {
        case Directory(_) => return Err(IsADirectory);
        case Symlink(_) => return Err(InvalidArgument);
        case File(data) =>
          if offset >= |data| {
            return Ok([]);
          }
          var n := if len < |data| - offset then len else |data| - offset;
          return Ok(data[offset..offset + n]);
      }
    }

    /** Zero-extend the file as far as needed, then overwrite. */
    method WriteAt(inode: Inode, offset: U64, buf: seq<Byte>) returns (r: Result<nat, FsError>)
      requires Valid()
      modifies this`nodes
      ensures Valid() && (Model(), r) == Write(old(Model()), inode, offset, buf)
    {
      hide WellFormed;
      StepKeepsWellFormed(Model(), Op.WriteAt(inode, offset, buf));
      if inode !in nodes {
        return Err(NotFound);
      }
      match nodes[inode].kind {
        case Directory(_) => return Err(IsADirectory);
        case Symlink(_) => return Err(InvalidArgument);
        case File(data) =>
          var end := offset + |buf|;
          if end >= U64_LIMIT {
            return Err(NoSpace);
          }
          var grown := data;
          if |data| < end {
            grown := Resized(data, end);
          }
          nodes := nodes[inode := nodes[inode].(kind := File(grown[..offset] + buf + grown[end..]))];
          return Ok(|buf|);
      }
    }

    method TruncateTo(inode: Inode, size: U64) returns (r: Result<Unit, FsError>)
      requires Valid()
      modifies this`nodes
      ensures Valid() && (Model(), r) == Truncate(old(Model()), inode, size)
    {
      hide WellFormed;
      StepKeepsWellFormed(Model(), Op.SetSize(inode, size));
      if inode !in nodes {
        return Err(NotFound);
      }
      match nodes[inode].kind {
        case Directory(_) => return Err(IsADirectory);
        case Symlink(_) => return Err(InvalidArgument);
        case File(data) =>
          nodes := nodes[inode := nodes[inode].(kind := File(Resized(data, size)))];
          return Ok(Unit);
      }
    }

    /** The ancestor walk of `rename`: it ends, and only at nodes that exist,
        because every parent chain leads to the root. */
    method IsInside(inum: Inode, from: Inode) returns (inside: bool)
      requires Valid() && from in nodes && inum in nodes && inum != ROOT
      ensures inside <==> Above(nodes, inum, from)
    {
      hide WellFormed;
      var cur := from;
      ghost var k := 0;
      ghost var m := ChainLength(Model(), from);
      while true
        invariant k <= m && Up(nodes, from, k) == cur
        invariant forall j: nat | j < k :: Up(nodes, from, j) != inum
        decreases m - k
      {
        if cur == inum {
          return true;
        }
        ChainStep(Model(), from, k, m);
        if nodes[cur].parent == cur {
          TopOfChain(Model(), from, k, inum);
          return false;
        }
        cur := nodes[cur].parent;
        k := k + 1;
      }
    }

    method RenameEntry(op: Inode, on: string, np: Inode, nn: string) returns (r: Result<Unit, FsError>)
      requires Valid()
      modifies this`nodes
      ensures Valid() && (Model(), r) == Rename(old(Model()), op, on, np, nn)
      ensures r.Ok? <==> Renamable(old(Model()), op, on, np, nn)
      ensures r.Err? ==> RenameRefused(old(Model()), op, on, np, nn, r.error)
    {
      hide WellFormed, Above, Moved, ValidName, Renamable, RenameRefused;
      RenameKeepsWellFormed(Model(), op, on, np, nn);
      RenameOutcome(Model(), op, on, np, nn);
      if !ValidName(nn) {
        return Err(InvalidArgument);
      }
      if op !in nodes {
        return Err(NotFound);
      }
      if !nodes[op].kind.Directory? {
        return Err(NotADirectory);
      }
      if on !in nodes[op].kind.entries {
        return Err(NotFound);
      }
      var inum := nodes[op].kind.entries[on];
      if np !in nodes || !nodes[np].kind.Directory? {
        return Err(NotADirectory);
      }
      EntryFacts(Model(), op, on);
      var srcIsDir := nodes[inum].kind.Directory?;
      if srcIsDir {
        var inside := IsInside(inum, np);
        if inside {
          return Err(InvalidArgument);
        }
      }
      var existing := if nn in nodes[np].kind.entries then Some(nodes[np].kind.entries[nn]) else None;
      if existing.Some? {
        EntryFacts(Model(), np, nn);
        var eid := existing.value;
        if eid == inum {
          return Ok(Unit);
        }
        var dstIsDir := nodes[eid].kind.Directory?;
        if srcIsDir != dstIsDir {
          return Err(if dstIsDir then IsADirectory else NotADirectory);
        }
        if dstIsDir && nodes[eid].kind.entries != map[] {
          return Err(NotEmpty);
        }
      }
      Reattach(op, on, np, nn, inum, existing);
      return Ok(Unit);
    }

    /** The edits of a rename that has passed its checks. */
    method Reattach(op: Inode, on: string, np: Inode, nn: string, inum: Inode, existing: Option<Inode>)
      modifies this`nodes
      ensures nodes == Moved(old(nodes), op, on, np, nn, inum, existing)
    {
      if existing.Some? {
        nodes := nodes - {existing.value};
        RemoveEntry(np, nn);
      }
      RemoveEntry(op, on);
      InsertEntry(np, nn, inum);
      if inum in nodes {
        nodes := nodes[inum := nodes[inum].(parent := np)];
      }
    }
  }

  /** One step of the ancestor walk, `m` being the length of the whole chain. */
  lemma ChainStep(fs: Fs, from: Inode, k: nat, m: nat)
    requires WellFormed(fs) && from in fs.nodes && k <= m && Up(fs.nodes, from, m) == ROOT
    ensures var cur := Up(fs.nodes, from, k);
            && cur in fs.nodes
            && Up(fs.nodes, from, k + 1) == fs.nodes[cur].parent
            && (fs.nodes[cur].parent != cur ==> k < m)
  {
    ChainExists(fs, from, k);
    RootIsItsParent(fs);
    hide WellFormed;
    UpAdd(fs.nodes, from, k, 1);
    var cur := Up(fs.nodes, from, k);
    assert Up(fs.nodes, cur, 1) == Up(fs.nodes, Parent(fs.nodes, cur), 0);
  }

  lemma RootIsItsParent(fs: Fs)
    requires WellFormed(fs)
    ensures Parent(fs.nodes, ROOT) == ROOT
  {
  }

  /** A node that is its own parent is the root, and ends every chain. */
  lemma TopOfChain(fs: Fs, from: Inode, k: nat, i: Inode)
    requires WellFormed(fs) && from in fs.nodes && i != ROOT
    requires Parent(fs.nodes, Up(fs.nodes, from, k)) == Up(fs.nodes, from, k)
    requires forall j: nat | j <= k :: Up(fs.nodes, from, j) != i
    ensures !Above(fs.nodes, i, from)
  {
    hide WellFormed;
    var top := Up(fs.nodes, from, k);
    ChainExists(fs, from, k);
    RootIsItsParent(fs);
    assert Up(fs.nodes, top, 1) == Up(fs.nodes, Parent(fs.nodes, top), 0);
    if top != ROOT {
      NotItsOwnAncestor(fs, top, 1);
    }
    forall j: nat
      ensures Up(fs.nodes, from, j) != i
    {
      if j > k {
        UpAdd(fs.nodes, from, k, j - k);
        UpFromRoot(fs.nodes, j - k);
      }
    }
  }
}
