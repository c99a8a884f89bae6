/**
Runs of the filesystem: every state reachable from a fresh one is a tree, node
and entry counts agree, and inode numbers are never used twice.
 */
module RamFsRuns {
  import opened Common
  import opened RamFs
  import opened RamFsRename

  datatype Op =
    | Create(parent: Inode, name: string, fileType: FileType)
    | MakeSymlink(parent: Inode, name: string, target: string)
    | Remove(parent: Inode, name: string)
    | RemoveDir(parent: Inode, name: string)
    | Move(op: Inode, on: string, np: Inode, nn: string)
    | WriteAt(inode: Inode, offset: U64, buf: seq<Byte>)
    | SetSize(inode: Inode, size: U64)

  /** One call: the new state and whether it succeeded. */
  ghost function Step(fs: Fs, op: Op): (Fs, bool) {
    match op
    case Create(p, n, t) => var r := Add(fs, p, n, KindOf(t)); (r.0, r.1.Ok?)
    case MakeSymlink(p, n, t) => var r := Add(fs, p, n, Some(Symlink(t))); (r.0, r.1.Ok?)
    case Remove(p, n) => var r := Unlink(fs, p, n); (r.0, r.1.Ok?)
    case RemoveDir(p, n) => var r := Rmdir(fs, p, n); (r.0, r.1.Ok?)
    case Move(op, on, np, nn) => var r := Rename(fs, op, on, np, nn); (r.0, r.1.Ok?)
    case WriteAt(i, o, b) => var r := Write(fs, i, o, b); (r.0, r.1.Ok?)
    case SetSize(i, s) => var r := Truncate(fs, i, s); (r.0, r.1.Ok?)
  }

  ghost function Run(fs: Fs, ops: seq<Op>): Fs
    decreases |ops|
  {
    if ops == [] then fs else Run(Step(fs, ops[0]).0, ops[1..])
  }

  // ---------------------------------------------------------------------
  // Every reachable state is a tree
  // ---------------------------------------------------------------------

  lemma EmptyIsWellFormed()
    ensures WellFormed(EMPTY_FS)
  {
    var nodes := EMPTY_FS.nodes;
    assert forall d, n :: Child(nodes, d, n) == None;
    assert Up(nodes, ROOT, 0) == ROOT;
  }

  /** Replacing the contents of a file leaves the tree alone. */
  lemma DataKeepsWellFormed(fs: Fs, i: Inode, data: seq<Byte>)
    requires WellFormed(fs) && i in fs.nodes && fs.nodes[i].kind.File?
    ensures WellFormed(fs.(nodes := fs.nodes[i := fs.nodes[i].(kind := File(data))]))
  {
    var nodes' := fs.nodes[i := fs.nodes[i].(kind := File(data))];
    SameShape(fs, nodes');
  }

  lemma SameShape(fs: Fs, nodes': Nodes)
    requires WellFormed(fs) && nodes'.Keys == fs.nodes.Keys
    requires forall x :: IsDir(nodes', x) == IsDir(fs.nodes, x) && Parent(nodes', x) == Parent(fs.nodes, x)
    requires forall d, n :: Child(nodes', d, n) == Child(fs.nodes, d, n)
    ensures WellFormed(fs.(nodes := nodes'))
  {
    hide IsDir, Parent, Child;
    forall x | x in nodes' && x != ROOT
      ensures Named(nodes', x)
    {
      assert Named(fs.nodes, x);
      var n :| Child(fs.nodes, Parent(fs.nodes, x), n) == Some(x);
      assert Child(nodes', Parent(nodes', x), n) == Some(x);
    }
    forall x | x in nodes'
      ensures ReachesRoot(nodes', x)
    {
      assert ReachesRoot(fs.nodes, x);
      var k: nat :| Up(fs.nodes, x, k) == ROOT;
      SameChain(fs.nodes, nodes', x, k);
    }
  }

  lemma UnlinkKeepsWellFormed(fs: Fs, p: Inode, n: string)
    requires WellFormed(fs)
    ensures WellFormed(Unlink(fs, p, n).0)
  {
    hide WellFormed, Removed;
    if Unlink(fs, p, n).1.Ok? {
      RemoveKeepsWellFormed(fs, p, n);
    }
  }

  lemma RmdirKeepsWellFormed(fs: Fs, p: Inode, n: string)
    requires WellFormed(fs)
    ensures WellFormed(Rmdir(fs, p, n).0)
  {
    hide WellFormed, Removed;
    if Rmdir(fs, p, n).1.Ok? {
      RemoveKeepsWellFormed(fs, p, n);
    }
  }

  /** Every operation keeps the tree invariant. */
  lemma StepKeepsWellFormed(fs: Fs, op: Op)
    requires WellFormed(fs)
    ensures WellFormed(Step(fs, op).0)
  {
    hide WellFormed, Add, Rename, Unlink, Rmdir;
    match op
    case Create(p, n, t) => AddKeepsWellFormed(fs, p, n, KindOf(t));
    case MakeSymlink(p, n, t) => AddKeepsWellFormed(fs, p, n, Some(Symlink(t)));
    case Remove(p, n) => UnlinkKeepsWellFormed(fs, p, n);
    case RemoveDir(p, n) => RmdirKeepsWellFormed(fs, p, n);
    case Move(op, on, np, nn) => RenameKeepsWellFormed(fs, op, on, np, nn);
    case WriteAt(i, o, b) =>
      if Write(fs, i, o, b).1.Ok? {
        DataKeepsWellFormed(fs, i, Write(fs, i, o, b).0.nodes[i].kind.data);
      }
    case SetSize(i, s) =>
      if Truncate(fs, i, s).1.Ok? {
        DataKeepsWellFormed(fs, i, Truncate(fs, i, s).0.nodes[i].kind.data);
      }
  }

  lemma {:induction false} RunKeepsWellFormed(fs: Fs, ops: seq<Op>)
    requires WellFormed(fs)
    ensures WellFormed(Run(fs, ops))
    decreases |ops|
  {
    hide WellFormed, Step;
    if ops != [] {
      StepKeepsWellFormed(fs, ops[0]);
      RunKeepsWellFormed(Step(fs, ops[0]).0, ops[1..]);
    }
  }

  /** In every reachable state the inodes form one tree rooted at inode 1. */
  lemma ReachableIsTree(ops: seq<Op>)
    ensures WellFormed(Run(EMPTY_FS, ops))
  {
    EmptyIsWellFormed();
    RunKeepsWellFormed(EMPTY_FS, ops);
  }

  /** A failed operation changes nothing. */
  lemma FailureChangesNothing(fs: Fs, op: Op)
    ensures !Step(fs, op).1 ==> Step(fs, op).0 == fs
  {
    hide Removed, Moved, Above;
  }

  // ---------------------------------------------------------------------
  // Counting
  // ---------------------------------------------------------------------

  /** All directory entries, as (directory, name) pairs. */
  ghost function Edges(nodes: Nodes): set<(Inode, string)> {
    set d, n | d in nodes && n in Entries(nodes, d) :: (d, n)
  }

  lemma {:induction false} SameSize<A, B>(a: set<A>, b: set<B>, f: map<A, B>)
    requires f.Keys == a && f.Values == b
    requires forall x, y | x in a && y in a && f[x] == f[y] :: x == y
    ensures |a| == |b|
    decreases |a|
  {
    if a == {} {
      assert b == {};
    } else {
      var x :| x in a;
      var g := f - {x};
      assert forall y | y in g :: g[y] == f[y];
      assert g.Values == b - {f[x]} by {
        forall v | v in b - {f[x]}
          ensures v in g.Values
        {
          var y :| y in f && f[y] == v;
          assert y in g && g[y] == v;
        }
      }
      SameSize(a - {x}, b - {f[x]}, g);
    }
  }

  /** Each non-root node is named by exactly one entry, so nodes outnumber
      entries by one. */
  lemma NodeCount(fs: Fs)
    requires WellFormed(fs)
    ensures |fs.nodes| == 1 + |Edges(fs.nodes)|
  {
    var nodes := fs.nodes;
    var edges := Edges(nodes);
    var child := map e | e in edges :: Entries(nodes, e.0)[e.1];
    forall e | e in edges
      ensures Child(nodes, e.0, e.1) == Some(child[e])
      ensures child[e] in nodes && child[e] != ROOT && Parent(nodes, child[e]) == e.0
    {
      assert Child(nodes, e.0, e.1) == Some(child[e]);
    }
    forall c | c in nodes.Keys - {ROOT}
      ensures c in child.Values
    {
      assert Named(nodes, c);
      var n :| Child(nodes, Parent(nodes, c), n) == Some(c);
      assert (Parent(nodes, c), n) in edges && child[(Parent(nodes, c), n)] == c;
    }
    assert child.Values == nodes.Keys - {ROOT};
    SameSize(edges, nodes.Keys - {ROOT}, child);
    assert |nodes| == |nodes.Keys|;
  }

  ghost function Subdirs(nodes: Nodes, d: Inode): set<Inode> {
    set c | c in nodes && c != ROOT && Parent(nodes, c) == d && IsDir(nodes, c)
  }

  /** The link count of a directory counts the subdirectories whose `..` is it. */
  lemma NlinkCountsSubdirs(fs: Fs, d: Inode)
    requires WellFormed(fs) && IsDir(fs.nodes, d)
    ensures Nlink(fs.nodes, d) == 2 + |Subdirs(fs.nodes, d)|
  {
    var nodes := fs.nodes;
    var names := set n | n in Entries(nodes, d) && IsDir(nodes, Entries(nodes, d)[n]);
    var child := map n | n in names :: Entries(nodes, d)[n];
    forall n | n in names
      ensures Child(nodes, d, n) == Some(child[n]) && child[n] in Subdirs(nodes, d)
    {
      assert Child(nodes, d, n) == Some(child[n]);
    }
    forall c | c in Subdirs(nodes, d)
      ensures c in child.Values
    {
      assert Named(nodes, c);
      var n :| Child(nodes, Parent(nodes, c), n) == Some(c);
      assert n in names && child[n] == c;
    }
    assert child.Values == Subdirs(nodes, d);
    SameSize(names, Subdirs(nodes, d), child);
  }

  // ---------------------------------------------------------------------
  // Inode numbers
  // ---------------------------------------------------------------------

  lemma StepNumbers(fs: Fs, op: Op)
    requires WellFormed(fs)
    ensures var fs' := Step(fs, op).0;
            fs.next <= fs'.next && forall i | i in fs'.nodes :: i in fs.nodes || i >= fs.next
  {
    hide WellFormed, Above, ReachesRoot;
    if op.Move? && Step(fs, op).1 {
      RenameMoves(fs, op.op, op.on, op.np, op.nn);
      var i, gone := Child(fs.nodes, op.op, op.on).value, Child(fs.nodes, op.np, op.nn);
      hide Moved;
      if gone != Some(i) {
        MoveIsMutual(fs, op.op, op.on, op.np, op.nn, i, gone);
      }
    }
  }

  /** An inode number that has been handed out and is no longer in the table
      never comes back, whatever is done afterwards. */
  lemma {:induction false} NeverReused(fs: Fs, ops: seq<Op>, i: Inode)
    requires WellFormed(fs) && i < fs.next && i !in fs.nodes
    ensures i !in Run(fs, ops).nodes
    decreases |ops|
  {
    hide WellFormed, Step;
    if ops != [] {
      StepNumbers(fs, ops[0]);
      StepKeepsWellFormed(fs, ops[0]);
      NeverReused(Step(fs, ops[0]).0, ops[1..], i);
    }
  }
}
