/**
When each operation of the filesystem succeeds, which error it gives otherwise,
and what a reader finds afterwards, in terms of entries and walks.
 */
module RamFsOutcomes {
  import opened Common
  import opened RamFs
  import opened RamFsRename

  // ---------------------------------------------------------------------
  // Down and up the tree
  // ---------------------------------------------------------------------

  /** `d` is `i` or is reached from `i` by names of entries. */
  ghost predicate Contains(nodes: Nodes, i: Inode, d: Inode) {
    exists names :: Ordinary(names) && Walk(nodes, i, names) == Ok(d)
  }

  lemma OrdinaryStep(fs: Fs, d: Inode, n: string)
    requires WellFormed(fs) && ValidName(n) && Lookup(fs.nodes, d, n).Ok?
    ensures IsDir(fs.nodes, d) && Child(fs.nodes, d, n) == Some(Lookup(fs.nodes, d, n).value)
    ensures Lookup(fs.nodes, d, n).value in fs.nodes && Parent(fs.nodes, Lookup(fs.nodes, d, n).value) == d
  {
    EntryFacts(fs, d, n);
  }

  lemma {:induction false} AboveContains(fs: Fs, i: Inode, d: Inode, k: nat)
    requires WellFormed(fs) && d in fs.nodes && Up(fs.nodes, d, k) == i
    ensures Contains(fs.nodes, i, d)
    decreases k
  {
    hide WellFormed, Ordinary;
    if k == 0 {
      NoNames(fs.nodes, i);
    } else {
      var p := Parent(fs.nodes, d);
      ParentIsDir(fs, d);
      AboveContains(fs, i, p, k - 1);
      if d != ROOT {
        var n := NameOf(fs, d);
        var names :| Ordinary(names) && Walk(fs.nodes, i, names) == Ok(p);
        OneMoreName(fs.nodes, i, names, p, n);
      } else {
        RootsParent(fs);
      }
    }
  }

  lemma NoNames(nodes: Nodes, i: Inode)
    ensures Contains(nodes, i, i)
  {
    assert Ordinary([]) && Walk(nodes, i, []) == Ok(i);
  }

  lemma OneMoreName(nodes: Nodes, i: Inode, names: seq<string>, p: Inode, n: string)
    requires Ordinary(names) && ValidName(n) && Walk(nodes, i, names) == Ok(p) && Child(nodes, p, n).Some?
    ensures Contains(nodes, i, Child(nodes, p, n).value)
  {
    WalkAppend(nodes, i, names, n);
    assert Ordinary(names + [n]);
  }

  lemma NameOf(fs: Fs, c: Inode) returns (n: string)
    requires WellFormed(fs) && c in fs.nodes && c != ROOT
    ensures Child(fs.nodes, Parent(fs.nodes, c), n) == Some(c) && ValidName(n)
  {
    assert Named(fs.nodes, c);
    n :| Child(fs.nodes, Parent(fs.nodes, c), n) == Some(c);
  }

  lemma RootsParent(fs: Fs)
    requires WellFormed(fs)
    ensures Parent(fs.nodes, ROOT) == ROOT
  {
  }

  lemma {:induction false} ContainsAbove(fs: Fs, i: Inode, names: seq<string>)
    requires WellFormed(fs) && Ordinary(names) && Walk(fs.nodes, i, names).Ok?
    ensures Above(fs.nodes, i, Walk(fs.nodes, i, names).value)
    decreases |names|
  {
    hide WellFormed;
    if names == [] {
      assert Up(fs.nodes, i, 0) == i;
    } else {
      var n := |names| - 1;
      assert names == names[..n] + [names[n]];
      WalkAppend(fs.nodes, i, names[..n], names[n]);
      ContainsAbove(fs, i, names[..n]);
      var p := Walk(fs.nodes, i, names[..n]).value;
      var d := Walk(fs.nodes, i, names).value;
      OrdinaryStep(fs, p, names[n]);
      var k: nat :| Up(fs.nodes, p, k) == i;
      assert Up(fs.nodes, d, k + 1) == i;
    }
  }

  /** Following parents up and following entries down are inverse. */
  lemma AboveIffContains(fs: Fs, i: Inode, d: Inode)
    requires WellFormed(fs) && d in fs.nodes
    ensures Above(fs.nodes, i, d) <==> Contains(fs.nodes, i, d)
  {
    hide WellFormed, Ordinary;
    if Above(fs.nodes, i, d) {
      var k: nat :| Up(fs.nodes, d, k) == i;
      AboveContains(fs, i, d, k);
    }
    if Contains(fs.nodes, i, d) {
      var names :| Ordinary(names) && Walk(fs.nodes, i, names) == Ok(d);
      ContainsAbove(fs, i, names);
    }
  }

  /** As many ".." as there were names lead back. */
  lemma {:induction false} UpUndoesDown(fs: Fs, d: Inode, names: seq<string>, c: Inode)
    requires WellFormed(fs) && Ordinary(names) && Walk(fs.nodes, d, names) == Ok(c) && IsDir(fs.nodes, c)
    ensures Walk(fs.nodes, c, seq(|names|, _ => "..")) == Ok(d)
    decreases |names|
  {
    hide WellFormed, ValidName;
    if names != [] {
      var x := Lookup(fs.nodes, d, names[0]).value;
      OrdinaryStep(fs, d, names[0]);
      UpUndoesDown(fs, x, names[1..], c);
      var ups := seq(|names| - 1, _ => "..");
      WalkAppend(fs.nodes, c, ups, "..");
      assert ups + [".."] == seq(|names|, _ => "..");
    }
  }

  // ---------------------------------------------------------------------
  // rename
  // ---------------------------------------------------------------------

  /** There is something to move, somewhere to move it, and nothing in the way. */
  ghost predicate Renamable(fs: Fs, op: Inode, on: string, np: Inode, nn: string) {
    && ValidName(nn) && Child(fs.nodes, op, on).Some? && IsDir(fs.nodes, np)
    && var i := Child(fs.nodes, op, on).value;
       && !(IsDir(fs.nodes, i) && Contains(fs.nodes, i, np))
       && match Child(fs.nodes, np, nn)
          case None => true
          case Some(e) => e == i || (IsDir(fs.nodes, e) == IsDir(fs.nodes, i) && Entries(fs.nodes, e) == map[])
  }

  /** What makes `rename` give each error. */
  ghost predicate RenameRefused(fs: Fs, op: Inode, on: string, np: Inode, nn: string, error: FsError) {
    var source := Child(fs.nodes, op, on);
    var target := Child(fs.nodes, np, nn);
    var allowed := ValidName(nn) && source.Some? && IsDir(fs.nodes, np)
                   && !(IsDir(fs.nodes, source.value) && Contains(fs.nodes, source.value, np));
    match error
    case InvalidArgument =>
      || !ValidName(nn)
      || (source.Some? && IsDir(fs.nodes, np) && IsDir(fs.nodes, source.value) && Contains(fs.nodes, source.value, np))
    case NotFound => ValidName(nn) && source.None? && (op in fs.nodes ==> IsDir(fs.nodes, op))
    case NotADirectory =>
      || (ValidName(nn) && op in fs.nodes && !IsDir(fs.nodes, op))
      || (ValidName(nn) && source.Some? && !IsDir(fs.nodes, np))
      || (allowed && IsDir(fs.nodes, source.value) && target.Some? && !IsDir(fs.nodes, target.value))
    case IsADirectory => allowed && !IsDir(fs.nodes, source.value) && target.Some? && IsDir(fs.nodes, target.value)
    case NotEmpty =>
      && allowed && IsDir(fs.nodes, source.value) && target.Some? && target != source
      && IsDir(fs.nodes, target.value) && Entries(fs.nodes, target.value) != map[]
    case _ => false
  }

  /** The answer of `rename`, for every call on a well-formed filesystem. */
  lemma RenameOutcome(fs: Fs, op: Inode, on: string, np: Inode, nn: string)
    requires WellFormed(fs)
    ensures Rename(fs, op, on, np, nn).1.Ok? <==> Renamable(fs, op, on, np, nn)
    ensures forall e :: Rename(fs, op, on, np, nn).1 == Err(e) <==> RenameRefused(fs, op, on, np, nn, e)
  {
    hide WellFormed, Moved, Above, Contains, ValidName;
    if Child(fs.nodes, op, on).Some? && IsDir(fs.nodes, np) {
      AboveIffContains(fs, Child(fs.nodes, op, on).value, np);
    }
  }

  /** Nothing but the two directories and the moved node's parent pointer
      changes in what stays. */
  lemma RenameKeepsContents(fs: Fs, op: Inode, on: string, np: Inode, nn: string, x: Inode)
    requires WellFormed(fs) && x in fs.nodes && x in Rename(fs, op, on, np, nn).0.nodes
    ensures var fs' := Rename(fs, op, on, np, nn).0;
            && fs'.next == fs.next
            && (fs'.nodes[x].kind.Directory? <==> fs.nodes[x].kind.Directory?)
            && (x != op && x != np ==> fs'.nodes[x].kind == fs.nodes[x].kind)
  {
    hide WellFormed, Moved;
    if Rename(fs, op, on, np, nn).1.Ok? {
      RenameMoves(fs, op, on, np, nn);
      var i, gone := Child(fs.nodes, op, on).value, Child(fs.nodes, np, nn);
      if gone != Some(i) {
        MoveIsMutual(fs, op, on, np, nn, i, gone);
      }
    }
  }

  // ---------------------------------------------------------------------
  // create and symlink
  // ---------------------------------------------------------------------

  /** `NodeKind::file_type` */
  function TypeOf(kind: Kind): FileType {
    match kind
    case File(_) => Regular
    case Directory(_) => DirectoryType
    case Symlink(_) => SymlinkType
  }

  /** A created node has the type asked for and is empty; only three types can
      be asked for. */
  lemma CreatedKind(t: FileType)
    ensures KindOf(t).None? <==> t == Other
    ensures KindOf(t).Some? ==>
              && TypeOf(KindOf(t).value) == t
              && (match KindOf(t).value
                  case File(data) => data == []
                  case Directory(entries) => entries == map[]
                  case Symlink(target) => target == "")
  {
  }

  ghost predicate AddRefused(fs: Fs, p: Inode, name: string, kind: Option<Kind>, error: FsError) {
    var named := ValidName(name) && IsDir(fs.nodes, p);
    match error
    case InvalidArgument => !ValidName(name)
    case NotFound => ValidName(name) && p !in fs.nodes
    case NotADirectory => ValidName(name) && p in fs.nodes && !IsDir(fs.nodes, p)
    case AlreadyExists => named && Child(fs.nodes, p, name).Some?
    case Unsupported => named && Child(fs.nodes, p, name).None? && kind.None?
    case NoSpace => named && Child(fs.nodes, p, name).None? && kind.Some? && fs.next == INODE_MAX
    case _ => false
  }

  /** When a node can be added, and what is then different: one new node under
      one new name; every walk that led somewhere still leads there. */
  lemma AddOutcome(fs: Fs, p: Inode, name: string, kind: Option<Kind>)
    requires WellFormed(fs)
    ensures var (fs', r) := Add(fs, p, name, kind);
            && (r.Ok? <==> && ValidName(name) && IsDir(fs.nodes, p) && Child(fs.nodes, p, name).None?
                           && kind.Some? && fs.next < INODE_MAX)
            && (forall e :: r == Err(e) <==> AddRefused(fs, p, name, kind, e))
            && (r.Ok? ==> && r.value !in fs.nodes && fs'.nodes.Keys == fs.nodes.Keys + {r.value}
                          && fs'.nodes[r.value] == Node(p, kind.value)
                          && Child(fs'.nodes, p, name) == Some(r.value)
                          && forall x | x in fs.nodes && x != p :: fs'.nodes[x] == fs.nodes[x])
  {
    hide Mutual, ReachesRoot, ValidName;
    NextIsFresh(fs);
  }

  lemma AddKeepsWalks(fs: Fs, p: Inode, name: string, kind: Option<Kind>, d: Inode, names: seq<string>)
    requires WellFormed(fs) && Walk(fs.nodes, d, names).Ok?
    requires kind.Some? && kind.value.Directory? ==> kind.value.entries == map[]
    ensures Walk(Add(fs, p, name, kind).0.nodes, d, names) == Walk(fs.nodes, d, names)
  {
    hide WellFormed, Walk, ValidName;
    var (fs', r) := Add(fs, p, name, kind);
    if r.Ok? {
      NextIsFresh(fs);
      AddHasFacts(fs.nodes, p, name, fs.next, kind.value);
      WalkAfterAdd(fs.nodes, fs'.nodes, p, name, fs.next, d, names);
    }
  }

  // ---------------------------------------------------------------------
  // unlink and rmdir
  // ---------------------------------------------------------------------

  /** What neither call looks at beyond: the name leads nowhere. */
  ghost predicate NoEntry(fs: Fs, p: Inode, name: string, error: FsError) {
    match error
    case NotFound => Child(fs.nodes, p, name).None? && (p in fs.nodes ==> IsDir(fs.nodes, p))
    case NotADirectory => p in fs.nodes && !IsDir(fs.nodes, p)
    case _ => false
  }

  lemma UnlinkOutcome(fs: Fs, p: Inode, name: string)
    requires WellFormed(fs)
    ensures var c := Child(fs.nodes, p, name);
            var (fs', r) := Unlink(fs, p, name);
            && (r.Ok? <==> c.Some? && !IsDir(fs.nodes, c.value))
            && (forall e :: r == Err(e) <==>
                  NoEntry(fs, p, name, e) || (e == IsADirectory && c.Some? && IsDir(fs.nodes, c.value)))
            && (r.Ok? ==> Dropped(fs, fs', p, name, c.value))
  {
    hide WellFormed;
    if Child(fs.nodes, p, name).Some? {
      EntryFacts(fs, p, name);
    }
  }

  lemma RmdirOutcome(fs: Fs, p: Inode, name: string)
    requires WellFormed(fs)
    ensures var c := Child(fs.nodes, p, name);
            var (fs', r) := Rmdir(fs, p, name);
            && (r.Ok? <==> c.Some? && IsDir(fs.nodes, c.value) && Entries(fs.nodes, c.value) == map[])
            && (forall e :: r == Err(e) <==>
                  || NoEntry(fs, p, name, e)
                  || (e == NotADirectory && c.Some? && !IsDir(fs.nodes, c.value))
                  || (e == NotEmpty && c.Some? && IsDir(fs.nodes, c.value) && Entries(fs.nodes, c.value) != map[]))
            && (r.Ok? ==> Dropped(fs, fs', p, name, c.value))
  {
    hide WellFormed;
    if Child(fs.nodes, p, name).Some? {
      EntryFacts(fs, p, name);
    }
  }

  /** The one node is gone and its entry with it; nothing else has changed. */
  ghost predicate Dropped(fs: Fs, fs': Fs, p: Inode, name: string, c: Inode) {
    && fs'.next == fs.next && fs'.nodes.Keys == fs.nodes.Keys - {c}
    && Lookup(fs'.nodes, p, name) == Err(NotFound)
    && (forall x | x in fs'.nodes && x != p :: fs'.nodes[x] == fs.nodes[x])
    && (forall d, n :: Child(fs'.nodes, d, n) == if d == p && n == name then None else Child(fs.nodes, d, n))
    && Parent(fs'.nodes, p) == Parent(fs.nodes, p) && IsDir(fs'.nodes, p)
  }

  /** After a removal every walk gives what it gave before, value or error,
      except that taking the removed name is now "not found". */
  lemma {:induction false} DroppedWalks(fs: Fs, fs': Fs, p: Inode, name: string, c: Inode, d: Inode, names: seq<string>)
    requires WellFormed(fs) && Child(fs.nodes, p, name) == Some(c) && Entries(fs.nodes, c) == map[]
    requires Dropped(fs, fs', p, name, c) && d in fs.nodes && d != c
    ensures Walk(fs'.nodes, d, names)
         == if Takes(fs.nodes, d, names, p, name) then Err(NotFound) else Walk(fs.nodes, d, names)
    decreases |names|
  {
    hide WellFormed, Dropped;
    if names != [] {
      DroppedStep(fs, fs', p, name, c, d, names[0]);
      if !(d == p && names[0] == name) && Lookup(fs.nodes, d, names[0]).Ok? {
        DroppedWalks(fs, fs', p, name, c, Lookup(fs.nodes, d, names[0]).value, names[1..]);
      }
    }
  }

  lemma DroppedStep(fs: Fs, fs': Fs, p: Inode, name: string, c: Inode, d: Inode, n: string)
    requires WellFormed(fs) && Child(fs.nodes, p, name) == Some(c) && Entries(fs.nodes, c) == map[]
    requires Dropped(fs, fs', p, name, c) && d in fs.nodes && d != c
    ensures Lookup(fs'.nodes, d, n) == if d == p && n == name then Err(NotFound) else Lookup(fs.nodes, d, n)
    ensures !(d == p && n == name) && Lookup(fs.nodes, d, n).Ok? ==>
              Lookup(fs.nodes, d, n).value in fs.nodes && Lookup(fs.nodes, d, n).value != c
  {
    EntryFacts(fs, p, name);
    ChildlessIsNoParent(fs, c);
    ParentIsDir(fs, d);
    hide Mutual, ReachesRoot;
    assert Child(fs'.nodes, d, n) == if d == p && n == name then None else Child(fs.nodes, d, n);
    if Child(fs.nodes, d, n).Some? {
      EntryFacts(fs, d, n);
      if Child(fs.nodes, d, n) == Some(c) {
        SameName(fs, d, n, name);
      }
    }
  }

  lemma SameName(fs: Fs, d: Inode, n: string, m: string)
    requires WellFormed(fs) && Child(fs.nodes, d, n).Some? && Child(fs.nodes, d, n) == Child(fs.nodes, d, m)
    ensures n == m
  {
  }

  /** Removing what was just added restores the table; the inode number alone
      is used up. */
  lemma RemoveUndoesAdd(fs: Fs, p: Inode, name: string, kind: Kind)
    requires WellFormed(fs) && Add(fs, p, name, Some(kind)).1.Ok?
    requires kind.Directory? ==> kind.entries == map[]
    ensures var fs' := Add(fs, p, name, Some(kind)).0;
            var (back, r) := if kind.Directory? then Rmdir(fs', p, name) else Unlink(fs', p, name);
            r.Ok? && back.nodes == fs.nodes && back.next == fs.next + 1
  {
    hide WellFormed, ValidName;
    NextIsFresh(fs);
    var fs' := Add(fs, p, name, Some(kind)).0;
    assert Entries(fs'.nodes, p) - {name} == Entries(fs.nodes, p);
    var back := Removed(fs'.nodes, p, name);
    assert back.Keys == fs.nodes.Keys;
    assert forall x | x in back :: back[x] == fs.nodes[x];
  }

  // ---------------------------------------------------------------------
  // write, truncate and read
  // ---------------------------------------------------------------------

  /** `read` into a buffer of `len` bytes: the bytes there are, up to `len`. */
  function Read(fs: Fs, i: Inode, offset: U64, len: nat): Result<seq<Byte>, FsError> {
    if i !in fs.nodes then Err(NotFound)
    else match fs.nodes[i].kind
      case Directory(_) => Err(IsADirectory)
      case Symlink(_) => Err(InvalidArgument)
      case File(data) =>
        if offset >= |data| then Ok([])
        else
          var n := if len < |data| - offset then len else |data| - offset;
          Ok(data[offset..offset + n])
  }

  function Data(fs: Fs, i: Inode): seq<Byte> {
    if i in fs.nodes && fs.nodes[i].kind.File? then fs.nodes[i].kind.data else []
  }

  /** A file as the bytes at all offsets: zero past its end. */
  function ByteAt(fs: Fs, i: Inode, k: nat): Byte {
    if k < |Data(fs, i)| then Data(fs, i)[k] else 0
  }

  /** Only a file can be read, written or cut; what stands in the way of the
      three. */
  ghost predicate NotAFile(fs: Fs, i: Inode, error: FsError) {
    match error
    case NotFound => i !in fs.nodes
    case IsADirectory => IsDir(fs.nodes, i)
    case InvalidArgument => i in fs.nodes && fs.nodes[i].kind.Symlink?
    case _ => false
  }

  ghost predicate OnlyData(fs: Fs, fs': Fs, i: Inode) {
    && fs'.next == fs.next && fs'.nodes.Keys == fs.nodes.Keys
    && (i in fs.nodes ==> fs'.nodes[i].parent == fs.nodes[i].parent && fs'.nodes[i].kind.File?)
    && forall x | x in fs.nodes && x != i :: fs'.nodes[x] == fs.nodes[x]
  }

  /** A write lands where it was aimed and nowhere else; a gap below it reads as
      zeros. */
  lemma WriteOutcome(fs: Fs, i: Inode, offset: U64, buf: seq<Byte>)
    ensures var (fs', r) := Write(fs, i, offset, buf);
            && (r.Ok? <==> i in fs.nodes && fs.nodes[i].kind.File? && offset + |buf| < U64_LIMIT)
            && (forall e :: r == Err(e) <==>
                  || NotAFile(fs, i, e)
                  || (e == NoSpace && i in fs.nodes && fs.nodes[i].kind.File? && offset + |buf| >= U64_LIMIT))
            && (r.Ok? ==> && r.value == |buf| && OnlyData(fs, fs', i)
                          && |Data(fs', i)| == (if |Data(fs, i)| < offset + |buf| then offset + |buf| else |Data(fs, i)|)
                          && forall k: nat :: ByteAt(fs', i, k)
                               == if offset <= k < offset + |buf| then buf[k - offset] else ByteAt(fs, i, k))
  {
  }

  lemma TruncateOutcome(fs: Fs, i: Inode, size: U64)
    ensures var (fs', r) := Truncate(fs, i, size);
            && (r.Ok? <==> i in fs.nodes && fs.nodes[i].kind.File?)
            && (forall e :: r == Err(e) <==> NotAFile(fs, i, e))
            && (r.Ok? ==> && OnlyData(fs, fs', i) && |Data(fs', i)| == size
                          && forall k: nat :: ByteAt(fs', i, k) == if k < size then ByteAt(fs, i, k) else 0)
  {
  }

  /** What was written is what is read. */
  lemma ReadAfterWrite(fs: Fs, i: Inode, offset: U64, buf: seq<Byte>)
    requires Write(fs, i, offset, buf).1.Ok?
    ensures Read(Write(fs, i, offset, buf).0, i, offset, |buf|) == Ok(buf)
  {
    WriteOutcome(fs, i, offset, buf);
    var fs' := Write(fs, i, offset, buf).0;
    hide Write;
    if buf != [] {
      var got := Read(fs', i, offset, |buf|).value;
      assert |got| == |buf|;
      assert forall k | 0 <= k < |buf| :: got[k] == ByteAt(fs', i, offset + k);
      assert got == buf;
    }
  }

  lemma ReadOutcome(fs: Fs, i: Inode, offset: U64, len: nat)
    ensures var r := Read(fs, i, offset, len);
            && (r.Ok? <==> i in fs.nodes && fs.nodes[i].kind.File?)
            && (forall e :: r == Err(e) <==> NotAFile(fs, i, e))
            && (r.Ok? ==>
                  && |r.value| <= len && (|r.value| < len ==> offset + |r.value| >= |Data(fs, i)|)
                  && (r.value != [] ==> offset + |r.value| <= |Data(fs, i)|)
                  && forall k | 0 <= k < |r.value| :: r.value[k] == ByteAt(fs, i, offset + k))
  {
  }
}
