/**
The in-memory filesystem: an inode table in which every node remembers its
parent and every directory its named children. The operations here are the
table updates as functions; `RamFsObject` holds the mutable object.
 */
module RamFs {
  import opened Common

  type Inode = nat

  const ROOT: Inode := 1
  const INODE_MAX: nat := U64_LIMIT - 1

  datatype FsError =
    | NotFound | AlreadyExists | NotADirectory | IsADirectory | NotEmpty
    | InvalidPath | InvalidArgument | NoSpace | Unsupported | CrossDevice

  datatype Kind =
    | File(data: seq<Byte>)
    | Directory(entries: map<string, Inode>)
    | Symlink(target: string)

  datatype Node = Node(parent: Inode, kind: Kind)

  type Nodes = map<Inode, Node>

  datatype Fs = Fs(nodes: Nodes, next: nat)

  datatype FileType = Regular | DirectoryType | SymlinkType | Other

  const EMPTY_FS := Fs(map[ROOT := Node(ROOT, Directory(map[]))], ROOT + 1)

  predicate ValidName(name: string) {
    name != "" && name != "." && name != ".." && '/' !in name
  }

  // ---------------------------------------------------------------------
  // Reading the table
  // ---------------------------------------------------------------------

  predicate IsDir(nodes: Nodes, i: Inode) {
    i in nodes && nodes[i].kind.Directory?
  }

  function Entries(nodes: Nodes, d: Inode): map<string, Inode> {
    if IsDir(nodes, d) then nodes[d].kind.entries else map[]
  }

  /** The child an entry of `d` names. */
  function Child(nodes: Nodes, d: Inode, name: string): Option<Inode> {
    if name in Entries(nodes, d) then Some(Entries(nodes, d)[name]) else None
  }

  function Parent(nodes: Nodes, i: Inode): Inode {
    if i in nodes then nodes[i].parent else i
  }

  /** Resolve one path component. */
  function Lookup(nodes: Nodes, d: Inode, name: string): Result<Inode, FsError> {
    if d !in nodes then Err(NotFound)
    else if !nodes[d].kind.Directory? then Err(NotADirectory)
    else if name == "." then Ok(d)
    else if name == ".." then Ok(nodes[d].parent)
    else if name in nodes[d].kind.entries then Ok(nodes[d].kind.entries[name])
    else Err(NotFound)
  }

  /** Resolve a list of components, stopping at the first failure. */
  function Walk(nodes: Nodes, d: Inode, names: seq<string>): Result<Inode, FsError>
    decreases |names|
  {
    if names == [] then Ok(d)
    else match Lookup(nodes, d, names[0])
      case Ok(c) => Walk(nodes, c, names[1..])
      case Err(e) => Err(e)
  }

  /** Walking `names` from `d` looks up `on` in directory `op` on the way. */
  predicate Takes(nodes: Nodes, d: Inode, names: seq<string>, op: Inode, on: string)
    decreases |names|
  {
    && names != []
    && (|| (d == op && names[0] == on)
        || (Lookup(nodes, d, names[0]).Ok? && Takes(nodes, Lookup(nodes, d, names[0]).value, names[1..], op, on)))
  }

  lemma {:induction false} WalkAppend(nodes: Nodes, d: Inode, names: seq<string>, name: string)
    ensures Walk(nodes, d, names + [name])
         == match Walk(nodes, d, names)
            case Ok(i) => Lookup(nodes, i, name)
            case Err(e) => Err(e)
    decreases |names|
  {
    if names == [] {
      assert names + [name] == [name] && [name][1..] == [];
    } else {
      assert (names + [name])[1..] == names[1..] + [name];
      if Lookup(nodes, d, names[0]).Ok? {
        WalkAppend(nodes, Lookup(nodes, d, names[0]).value, names[1..], name);
      }
    }
  }

  // ---------------------------------------------------------------------
  // Updating the table
  // ---------------------------------------------------------------------

  function WithEntries(nodes: Nodes, d: Inode, entries: map<string, Inode>): Nodes
    requires IsDir(nodes, d)
  {
    nodes[d := nodes[d].(kind := Directory(entries))]
  }

  function KindOf(t: FileType): Option<Kind> {
    match t
    case Regular => Some(File([]))
    case DirectoryType => Some(Directory(map[]))
    case SymlinkType => Some(Symlink(""))
    case Other => None
  }

  /** The shared body of `create` and `symlink`; no kind means an unsupported type. */
  function Add(fs: Fs, parent: Inode, name: string, kind: Option<Kind>): (Fs, Result<Inode, FsError>) {
    if !ValidName(name) then (fs, Err(InvalidArgument))
    else if parent !in fs.nodes then (fs, Err(NotFound))
    else if !IsDir(fs.nodes, parent) then (fs, Err(NotADirectory))
    else if name in Entries(fs.nodes, parent) then (fs, Err(AlreadyExists))
    else if kind.None? then (fs, Err(Unsupported))
    else if fs.next >= INODE_MAX then (fs, Err(NoSpace))
    else
      var added := fs.nodes[fs.next := Node(parent, kind.value)];
      var named := if IsDir(added, parent) then
                     WithEntries(added, parent, Entries(added, parent)[name := fs.next])
                   else added;
      (Fs(named, fs.next + 1), Ok(fs.next))
  }

  /** Drop the entry and the node it names. */
  function Removed(nodes: Nodes, parent: Inode, name: string): Nodes
    requires IsDir(nodes, parent) && name in Entries(nodes, parent)
  {
    WithEntries(nodes, parent, Entries(nodes, parent) - {name}) - {Entries(nodes, parent)[name]}
  }

  function Unlink(fs: Fs, parent: Inode, name: string): (Fs, Result<Unit, FsError>) {
    if parent !in fs.nodes then (fs, Err(NotFound))
    else if !IsDir(fs.nodes, parent) then (fs, Err(NotADirectory))
    else if name !in Entries(fs.nodes, parent) then (fs, Err(NotFound))
    else if Entries(fs.nodes, parent)[name] !in fs.nodes then (fs, Err(NotFound))
    else if IsDir(fs.nodes, Entries(fs.nodes, parent)[name]) then (fs, Err(IsADirectory))
    else (fs.(nodes := Removed(fs.nodes, parent, name)), Ok(Unit))
  }

  function Rmdir(fs: Fs, parent: Inode, name: string): (Fs, Result<Unit, FsError>) {
    if parent !in fs.nodes then (fs, Err(NotFound))
    else if !IsDir(fs.nodes, parent) then (fs, Err(NotADirectory))
    else if name !in Entries(fs.nodes, parent) then (fs, Err(NotFound))
    else if Entries(fs.nodes, parent)[name] !in fs.nodes then (fs, Err(NotFound))
    else if !IsDir(fs.nodes, Entries(fs.nodes, parent)[name]) then (fs, Err(NotADirectory))
    else if Entries(fs.nodes, Entries(fs.nodes, parent)[name]) != map[] then (fs, Err(NotEmpty))
    else (fs.(nodes := Removed(fs.nodes, parent, name)), Ok(Unit))
  }

  /** `i` followed upwards `k` times. */
  function Up(nodes: Nodes, i: Inode, k: nat): Inode
    decreases k
  {
    if k == 0 then i else Up(nodes, Parent(nodes, i), k - 1)
  }

  /** `a` is `i` or one of its ancestors. */
  ghost predicate Above(nodes: Nodes, a: Inode, i: Inode) {
    exists k: nat :: Up(nodes, i, k) == a
  }

  /** The table after moving inode `i` from (`op`, `on`) to (`np`, `nn`), where
      `gone` is the inode the destination named before, if any. */
  function Moved(nodes: Nodes, op: Inode, on: string, np: Inode, nn: string, i: Inode, gone: Option<Inode>): Nodes {
    var n1 := if gone.Some? then nodes - {gone.value} else nodes;
    var n2 := if gone.Some? && IsDir(n1, np) then WithEntries(n1, np, Entries(n1, np) - {nn}) else n1;
    var n3 := if IsDir(n2, op) then WithEntries(n2, op, Entries(n2, op) - {on}) else n2;
    var n4 := if IsDir(n3, np) then WithEntries(n3, np, Entries(n3, np)[nn := i]) else n3;
    if i in n4 then n4[i := n4[i].(parent := np)] else n4
  }

  ghost function Rename(fs: Fs, op: Inode, on: string, np: Inode, nn: string): (Fs, Result<Unit, FsError>) {
    if !ValidName(nn) then (fs, Err(InvalidArgument))
    else if op !in fs.nodes then (fs, Err(NotFound))
    else if !IsDir(fs.nodes, op) then (fs, Err(NotADirectory))
    else if on !in Entries(fs.nodes, op) then (fs, Err(NotFound))
    else
      var i := Entries(fs.nodes, op)[on];
      if !IsDir(fs.nodes, np) then (fs, Err(NotADirectory))
      else if IsDir(fs.nodes, i) && Above(fs.nodes, i, np) then (fs, Err(InvalidArgument))
      else
        var gone := Child(fs.nodes, np, nn);
        if gone == Some(i) then (fs, Ok(Unit))
        else if gone.Some? && IsDir(fs.nodes, i) != IsDir(fs.nodes, gone.value) then
          (fs, Err(if IsDir(fs.nodes, gone.value) then IsADirectory else NotADirectory))
        else if gone.Some? && Entries(fs.nodes, gone.value) != map[] then (fs, Err(NotEmpty))
        else (fs.(nodes := Moved(fs.nodes, op, on, np, nn, i, gone)), Ok(Unit))
  }

  /** `resize(n, 0)` */
  function Resized(data: seq<Byte>, n: nat): (r: seq<Byte>)
    ensures |r| == n
  {
    if n <= |data| then data[..n] else data + seq(n - |data|, _ => 0)
  }

  function Write(fs: Fs, i: Inode, offset: U64, buf: seq<Byte>): (Fs, Result<nat, FsError>) {
    if i !in fs.nodes then (fs, Err(NotFound))
    else match fs.nodes[i].kind
      case Directory(_) => (fs, Err(IsADirectory))
      case Symlink(_) => (fs, Err(InvalidArgument))
      case File(data) =>
        var end := offset + |buf|;
        if end >= U64_LIMIT then (fs, Err(NoSpace))
        else
          var grown := if |data| < end then Resized(data, end) else data;
          (fs.(nodes := fs.nodes[i := fs.nodes[i].(kind := File(grown[..offset] + buf + grown[end..]))]), Ok(|buf|))
  }

  function Truncate(fs: Fs, i: Inode, size: U64): (Fs, Result<Unit, FsError>) {
    if i !in fs.nodes then (fs, Err(NotFound))
    else match fs.nodes[i].kind
      case Directory(_) => (fs, Err(IsADirectory))
      case Symlink(_) => (fs, Err(InvalidArgument))
      case File(data) =>
        (fs.(nodes := fs.nodes[i := fs.nodes[i].(kind := File(Resized(data, size)))]), Ok(Unit))
  }

  /** Number of names a node goes by: one, or two plus the subdirectories. */
  function Nlink(nodes: Nodes, i: Inode): nat {
    if IsDir(nodes, i) then 2 + |set n | n in Entries(nodes, i) && IsDir(nodes, Entries(nodes, i)[n])| else 1
  }

  // ---------------------------------------------------------------------
  // The tree invariant
  // ---------------------------------------------------------------------

  /** Child entries and parent pointers are inverse to each other. */
  ghost predicate Mutual(nodes: Nodes) {
    && (forall d, n {:trigger Child(nodes, d, n)} :: Child(nodes, d, n).Some? ==>
          var c := Child(nodes, d, n).value;
          c in nodes && c != ROOT && Parent(nodes, c) == d && ValidName(n))
    && (forall c | c in nodes && c != ROOT :: Named(nodes, c))
    && (forall d, n, m {:trigger Child(nodes, d, n), Child(nodes, d, m)} ::
          Child(nodes, d, n).Some? && Child(nodes, d, n) == Child(nodes, d, m) ==> n == m)
  }

  /** The node's parent is a directory with an entry for it. */
  ghost predicate Named(nodes: Nodes, c: Inode) {
    IsDir(nodes, Parent(nodes, c)) && exists n :: Child(nodes, Parent(nodes, c), n) == Some(c)
  }

  ghost predicate ReachesRoot(nodes: Nodes, i: Inode) {
    Above(nodes, ROOT, i)
  }

  ghost predicate WellFormed(fs: Fs) {
    && IsDir(fs.nodes, ROOT) && Parent(fs.nodes, ROOT) == ROOT
    && Mutual(fs.nodes)
    && (forall i | i in fs.nodes :: ReachesRoot(fs.nodes, i))
    && (forall i | i in fs.nodes :: 1 <= i < fs.next)
    && fs.next <= INODE_MAX
  }

  // ---------------------------------------------------------------------
  // Parent chains
  // ---------------------------------------------------------------------

  lemma {:induction false} UpAdd(nodes: Nodes, i: Inode, j: nat, k: nat)
    ensures Up(nodes, i, j + k) == Up(nodes, Up(nodes, i, j), k)
    decreases j
  {
    if j > 0 { UpAdd(nodes, Parent(nodes, i), j - 1, k); }
  }

  lemma {:induction false} UpFromRoot(nodes: Nodes, k: nat)
    requires Parent(nodes, ROOT) == ROOT
    ensures Up(nodes, ROOT, k) == ROOT
  {
    if k > 0 { UpFromRoot(nodes, k - 1); }
  }

  /** A parent chain that comes back to where it started starts at the root. */
  lemma {:induction false} NoCycle(nodes: Nodes, i: Inode, p: nat, m: nat)
    requires Parent(nodes, ROOT) == ROOT && p > 0 && Up(nodes, i, p) == i && Up(nodes, i, m) == ROOT
    ensures i == ROOT
    decreases m
  {
    if m >= p {
      UpAdd(nodes, i, p, m - p);
      NoCycle(nodes, i, p, m - p);
    } else {
      UpAdd(nodes, i, m, p - m);
      UpFromRoot(nodes, p - m);
    }
  }

  lemma NotItsOwnAncestor(fs: Fs, i: Inode, p: nat)
    requires WellFormed(fs) && i in fs.nodes && i != ROOT && p > 0
    ensures Up(fs.nodes, i, p) != i
  {
    assert ReachesRoot(fs.nodes, i);
    var m: nat :| Up(fs.nodes, i, m) == ROOT;
    if Up(fs.nodes, i, p) == i {
      NoCycle(fs.nodes, i, p, m);
    }
  }

  /** Chains are the same in two tables that agree on the parents along them. */
  lemma {:induction false} SameChain(nodes: Nodes, nodes': Nodes, i: Inode, k: nat)
    requires forall j: nat | j < k :: Parent(nodes', Up(nodes, i, j)) == Parent(nodes, Up(nodes, i, j))
    ensures Up(nodes', i, k) == Up(nodes, i, k)
    decreases k
  {
    if k > 0 {
      assert Up(nodes, i, 0) == i;
      forall j: nat | j < k - 1
        ensures Up(nodes, Parent(nodes, i), j) == Up(nodes, i, j + 1)
      {
      }
      SameChain(nodes, nodes', Parent(nodes, i), k - 1);
    }
  }

  lemma ParentIsDir(fs: Fs, i: Inode)
    requires WellFormed(fs) && i in fs.nodes
    ensures IsDir(fs.nodes, Parent(fs.nodes, i))
  {
    hide ReachesRoot, Child, Entries;
    assert i != ROOT ==> Named(fs.nodes, i);
  }

  /** All nodes on a chain exist. */
  lemma {:induction false} ChainExists(fs: Fs, i: Inode, k: nat)
    requires WellFormed(fs) && i in fs.nodes
    ensures Up(fs.nodes, i, k) in fs.nodes
    ensures k > 0 ==> IsDir(fs.nodes, Up(fs.nodes, i, k))
    decreases k
  {
    hide WellFormed;
    if k > 0 {
      ParentIsDir(fs, i);
      ChainExists(fs, Parent(fs.nodes, i), k - 1);
    }
  }

  /** Nobody's parent is a node without entries. */
  lemma ChildlessIsNoParent(fs: Fs, e: Inode)
    requires WellFormed(fs) && Entries(fs.nodes, e) == map[] && e != ROOT
    ensures forall c | c in fs.nodes :: Parent(fs.nodes, c) != e
  {
    forall c | c in fs.nodes
      ensures Parent(fs.nodes, c) != e
    {
      if c != ROOT {
        assert Named(fs.nodes, c);
      }
    }
  }

  // ---------------------------------------------------------------------
  // Adding a node
  // ---------------------------------------------------------------------

  ghost predicate AddFacts(nodes: Nodes, nodes': Nodes, p: Inode, name: string, c: Inode) {
    && nodes'.Keys == nodes.Keys + {c}
    && (forall x | x in nodes :: IsDir(nodes', x) == IsDir(nodes, x) && Parent(nodes', x) == Parent(nodes, x))
    && Parent(nodes', c) == p
    && (forall d, n :: Child(nodes', d, n) == if d == p && n == name then Some(c) else Child(nodes, d, n))
  }

  lemma AddHasFacts(nodes: Nodes, p: Inode, name: string, c: Inode, kind: Kind)
    requires IsDir(nodes, p) && c !in nodes
    requires kind.Directory? ==> kind.entries == map[]
    ensures var added := nodes[c := Node(p, kind)];
            && IsDir(added, p)
            && AddFacts(nodes, WithEntries(added, p, Entries(added, p)[name := c]), p, name, c)
  {
  }

  lemma AddKeepsMutual(nodes: Nodes, nodes': Nodes, p: Inode, name: string, c: Inode)
    requires Mutual(nodes) && AddFacts(nodes, nodes', p, name, c)
    requires IsDir(nodes, p) && Child(nodes, p, name).None? && c !in nodes && c != ROOT && ValidName(name)
    ensures Mutual(nodes')
  {
    forall x | x in nodes' && x != ROOT
      ensures Named(nodes', x)
    {
      if x == c {
        assert Child(nodes', p, name) == Some(c);
      } else {
        assert Named(nodes, x);
        var n :| Child(nodes, Parent(nodes, x), n) == Some(x);
        assert Child(nodes', Parent(nodes', x), n) == Some(x);
      }
    }
  }

  lemma AllReachRootAfterAdd(fs: Fs, nodes': Nodes, p: Inode, name: string, c: Inode)
    requires WellFormed(fs) && AddFacts(fs.nodes, nodes', p, name, c) && p in fs.nodes && c !in fs.nodes
    ensures forall x | x in nodes' :: ReachesRoot(nodes', x)
  {
    forall x | x in nodes'
      ensures ReachesRoot(nodes', x)
    {
      var y := if x == c then p else x;
      var k := ChainLength(fs, y);
      OldChainKept(fs, nodes', y, k);
      if x == c {
        assert Up(nodes', c, k + 1) == Up(nodes', p, k);
      }
    }
  }

  lemma ChainLength(fs: Fs, i: Inode) returns (k: nat)
    requires WellFormed(fs) && i in fs.nodes
    ensures Up(fs.nodes, i, k) == ROOT
  {
    assert ReachesRoot(fs.nodes, i);
    k :| Up(fs.nodes, i, k) == ROOT;
  }

  lemma AddKeepsWellFormed(fs: Fs, p: Inode, name: string, kind: Option<Kind>)
    requires WellFormed(fs)
    requires kind.Some? && kind.value.Directory? ==> kind.value.entries == map[]
    ensures WellFormed(Add(fs, p, name, kind).0)
  {
    hide ReachesRoot, Mutual, ValidName;
    var fs' := Add(fs, p, name, kind).0;
    if fs' != fs {
      assert fs.next !in fs.nodes;
      AddHasFacts(fs.nodes, p, name, fs.next, kind.value);
      AddKeepsMutual(fs.nodes, fs'.nodes, p, name, fs.next);
      AllReachRootAfterAdd(fs, fs'.nodes, p, name, fs.next);
    }
  }

  lemma OldChainKept(fs: Fs, nodes': Nodes, y: Inode, k: nat)
    requires WellFormed(fs) && y in fs.nodes
    requires forall x | x in fs.nodes :: Parent(nodes', x) == Parent(fs.nodes, x)
    ensures Up(nodes', y, k) == Up(fs.nodes, y, k)
  {
    hide WellFormed;
    forall j: nat | j < k
      ensures Parent(nodes', Up(fs.nodes, y, j)) == Parent(fs.nodes, Up(fs.nodes, y, j))
    {
      ChainExists(fs, y, j);
    }
    SameChain(fs.nodes, nodes', y, k);
  }

  /** Adding an entry does not disturb a walk that already succeeded. */
  lemma {:induction false} WalkAfterAdd(nodes: Nodes, nodes': Nodes, p: Inode, name: string, c: Inode,
                                        d: Inode, names: seq<string>)
    requires AddFacts(nodes, nodes', p, name, c) && Child(nodes, p, name).None?
    requires Walk(nodes, d, names).Ok?
    ensures Walk(nodes', d, names) == Walk(nodes, d, names)
    decreases |names|
  {
    if names != [] {
      LookupAfterAdd(nodes, nodes', p, name, c, d, names[0]);
      WalkAfterAdd(nodes, nodes', p, name, c, Lookup(nodes, d, names[0]).value, names[1..]);
    }
  }

  lemma LookupAfterAdd(nodes: Nodes, nodes': Nodes, p: Inode, name: string, c: Inode, d: Inode, n: string)
    requires AddFacts(nodes, nodes', p, name, c) && Child(nodes, p, name).None?
    requires Lookup(nodes, d, n).Ok?
    ensures Lookup(nodes', d, n) == Lookup(nodes, d, n)
  {
    assert IsDir(nodes', d) == IsDir(nodes, d) && Parent(nodes', d) == Parent(nodes, d);
    assert Child(nodes', d, n) == if d == p && n == name then Some(c) else Child(nodes, d, n);
  }

  lemma NextIsFresh(fs: Fs)
    requires WellFormed(fs)
    ensures fs.next !in fs.nodes
  {
  }

  // ---------------------------------------------------------------------
  // Removing a node
  // ---------------------------------------------------------------------

  ghost predicate RemoveFacts(nodes: Nodes, nodes': Nodes, p: Inode, name: string, c: Inode) {
    && nodes'.Keys == nodes.Keys - {c}
    && (forall x | x in nodes' :: IsDir(nodes', x) == IsDir(nodes, x) && Parent(nodes', x) == Parent(nodes, x))
    && (forall d, n :: Child(nodes', d, n) == if d == p && n == name then None else Child(nodes, d, n))
  }

  lemma RemoveHasFacts(nodes: Nodes, p: Inode, name: string)
    requires IsDir(nodes, p) && name in Entries(nodes, p) && Entries(nodes, p)[name] != p
    requires Entries(nodes, Entries(nodes, p)[name]) == map[]
    ensures RemoveFacts(nodes, Removed(nodes, p, name), p, name, Entries(nodes, p)[name])
  {
  }

  lemma RemoveKeepsMutual(nodes: Nodes, nodes': Nodes, p: Inode, name: string, c: Inode)
    requires Mutual(nodes) && RemoveFacts(nodes, nodes', p, name, c)
    requires Child(nodes, p, name) == Some(c)
    requires forall x | x in nodes :: Parent(nodes, x) != c
    ensures Mutual(nodes')
  {
    forall x | x in nodes' && x != ROOT
      ensures Named(nodes', x)
    {
      assert Named(nodes, x);
      var n :| Child(nodes, Parent(nodes, x), n) == Some(x);
      assert Child(nodes', Parent(nodes', x), n) == Some(x);
    }
  }

  lemma EntryFacts(fs: Fs, p: Inode, name: string)
    requires WellFormed(fs) && IsDir(fs.nodes, p) && name in Entries(fs.nodes, p)
    ensures var c := Entries(fs.nodes, p)[name];
            && Child(fs.nodes, p, name) == Some(c)
            && c in fs.nodes && c != ROOT && c != p && Parent(fs.nodes, c) == p && ValidName(name)
  {
    var c := Entries(fs.nodes, p)[name];
    assert Child(fs.nodes, p, name) == Some(c);
    NotItsOwnAncestor(fs, c, 1);
    assert Up(fs.nodes, c, 1) == Up(fs.nodes, Parent(fs.nodes, c), 0) == p;
  }

  lemma RemoveKeepsWellFormed(fs: Fs, p: Inode, name: string)
    requires WellFormed(fs) && IsDir(fs.nodes, p) && name in Entries(fs.nodes, p)
    requires Entries(fs.nodes, Entries(fs.nodes, p)[name]) == map[]
    ensures WellFormed(fs.(nodes := Removed(fs.nodes, p, name)))
  {
    EntryFacts(fs, p, name);
    hide Mutual, Child, Entries, Removed;
    var c := Entries(fs.nodes, p)[name];
    var nodes' := Removed(fs.nodes, p, name);
    ChildlessIsNoParent(fs, c);
    RemoveHasFacts(fs.nodes, p, name);
    RemoveKeepsMutual(fs.nodes, nodes', p, name, c);
    forall x | x in nodes'
      ensures ReachesRoot(nodes', x)
    {
      assert ReachesRoot(fs.nodes, x);
      var k: nat :| Up(fs.nodes, x, k) == ROOT;
      ChainAvoidsRemoved(fs, nodes', x, c, k);
    }
  }

  lemma ChainAvoidsRemoved(fs: Fs, nodes': Nodes, x: Inode, c: Inode, k: nat)
    requires WellFormed(fs) && x in fs.nodes && x != c
    requires forall y | y in fs.nodes :: Parent(fs.nodes, y) != c
    requires forall y | y in fs.nodes && y != c :: Parent(nodes', y) == Parent(fs.nodes, y)
    ensures Up(nodes', x, k) == Up(fs.nodes, x, k)
  {
    hide WellFormed;
    forall j: nat | j < k
      ensures Parent(nodes', Up(fs.nodes, x, j)) == Parent(fs.nodes, Up(fs.nodes, x, j))
    {
      ChainExists(fs, x, j);
      if j > 0 {
        ChainExists(fs, x, j - 1);
        UpAdd(fs.nodes, x, j - 1, 1);
        assert Up(fs.nodes, Up(fs.nodes, x, j - 1), 1) == Parent(fs.nodes, Up(fs.nodes, x, j - 1));
      }
    }
    SameChain(fs.nodes, nodes', x, k);
  }
}
