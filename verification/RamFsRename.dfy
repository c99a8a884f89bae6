/**
What `rename` does to the tree: one edge moves, the tree stays a tree, and the
moved subtree means the same from its new place.
 */
module RamFsRename {
  import opened Common
  import opened RamFs

  /** The guards a rename has passed when it moves anything. */
  ghost predicate MayMove(fs: Fs, op: Inode, on: string, np: Inode, nn: string, i: Inode, gone: Option<Inode>) {
    && WellFormed(fs) && ValidName(nn)
    && IsDir(fs.nodes, op) && on in Entries(fs.nodes, op) && Entries(fs.nodes, op)[on] == i
    && IsDir(fs.nodes, np) && !(IsDir(fs.nodes, i) && Above(fs.nodes, i, np))
    && gone == Child(fs.nodes, np, nn) && gone != Some(i)
    && (gone.Some? ==> Entries(fs.nodes, gone.value) == map[] && IsDir(fs.nodes, gone.value) == IsDir(fs.nodes, i))
  }

  /** The move, edge by edge. */
  ghost predicate MoveFacts(nodes: Nodes, nodes': Nodes,
                            op: Inode, on: string, np: Inode, nn: string, i: Inode, gone: Option<Inode>) {
    && nodes'.Keys == nodes.Keys - (if gone.Some? then {gone.value} else {})
    && (forall x | x in nodes' :: IsDir(nodes', x) == IsDir(nodes, x))
    && (forall x | x in nodes' :: Parent(nodes', x) == if x == i then np else Parent(nodes, x))
    && (forall d, n :: Child(nodes', d, n) == if d == np && n == nn then Some(i)
                                              else if d == op && n == on then None
                                              else Child(nodes, d, n))
  }

  /** Nodes other than the two directories keep their contents. */
  ghost predicate OthersKept(nodes: Nodes, nodes': Nodes, op: Inode, np: Inode, i: Inode) {
    forall x | x in nodes && x in nodes' && x != op && x != np ::
      nodes'[x] == if x == i then nodes[x].(parent := np) else nodes[x]
  }

  /** No two of the inodes involved coincide where the update would clash. */
  lemma Bystanders(fs: Fs, op: Inode, on: string, np: Inode, nn: string, i: Inode, gone: Option<Inode>)
    requires MayMove(fs, op, on, np, nn, i, gone)
    ensures i in fs.nodes && i != ROOT && i != op && i != np && Parent(fs.nodes, i) == op
    ensures gone.Some? ==> && gone.value in fs.nodes && gone.value != ROOT
                           && gone.value != i && gone.value != op && gone.value != np
  {
    EntryFacts(fs, op, on);
    if gone.Some? {
      EntryFacts(fs, np, nn);
    }
    if i == np {
      assert Up(fs.nodes, np, 0) == i;
    }
  }

  /** Two tables with the same nodes, differing in at most one entry. */
  ghost predicate EntryEdit(nodes: Nodes, nodes': Nodes, d: Inode, name: string, to: Option<Inode>) {
    && nodes'.Keys == nodes.Keys
    && (forall x | x in nodes && x != d :: nodes'[x] == nodes[x])
    && (forall x :: IsDir(nodes', x) == IsDir(nodes, x) && Parent(nodes', x) == Parent(nodes, x))
    && (forall e, n :: Child(nodes', e, n) == if e == d && n == name then to else Child(nodes, e, n))
  }

  lemma DropEntry(nodes: Nodes, d: Inode, name: string)
    requires IsDir(nodes, d)
    ensures EntryEdit(nodes, WithEntries(nodes, d, Entries(nodes, d) - {name}), d, name, None)
  {
  }

  lemma PutEntry(nodes: Nodes, d: Inode, name: string, c: Inode)
    requires IsDir(nodes, d)
    ensures EntryEdit(nodes, WithEntries(nodes, d, Entries(nodes, d)[name := c]), d, name, Some(c))
  {
  }

  lemma DropNode(nodes: Nodes, c: Inode)
    requires Entries(nodes, c) == map[]
    ensures forall x | x != c :: IsDir(nodes - {c}, x) == IsDir(nodes, x) && Parent(nodes - {c}, x) == Parent(nodes, x)
    ensures forall d, n :: Child(nodes - {c}, d, n) == Child(nodes, d, n)
  {
  }

  lemma SetParent(nodes: Nodes, c: Inode, p: Inode)
    requires c in nodes
    ensures var nodes' := nodes[c := nodes[c].(parent := p)];
            && nodes'.Keys == nodes.Keys
            && (forall x :: IsDir(nodes', x) == IsDir(nodes, x))
            && (forall x :: Parent(nodes', x) == if x == c then p else Parent(nodes, x))
            && forall d, n :: Child(nodes', d, n) == Child(nodes, d, n)
  {
  }

  lemma MovedHasFacts(nodes: Nodes, op: Inode, on: string, np: Inode, nn: string, i: Inode, gone: Option<Inode>)
    requires IsDir(nodes, op) && IsDir(nodes, np) && i in nodes && i != op && i != np
    requires gone == Child(nodes, np, nn)
    requires gone.Some? ==> gone.value in nodes && gone.value != i && gone.value != op && gone.value != np
    requires gone.Some? ==> Entries(nodes, gone.value) == map[]
    ensures MoveFacts(nodes, Moved(nodes, op, on, np, nn, i, gone), op, on, np, nn, i, gone)
    ensures OthersKept(nodes, Moved(nodes, op, on, np, nn, i, gone), op, np, i)
  {
    hide IsDir, Parent, Child, WithEntries;
    var n1 := if gone.Some? then nodes - {gone.value} else nodes;
    if gone.Some? {
      DropNode(nodes, gone.value);
      DropEntry(n1, np, nn);
    }
    var n2 := if gone.Some? && IsDir(n1, np) then WithEntries(n1, np, Entries(n1, np) - {nn}) else n1;
    DropEntry(n2, op, on);
    var n3 := if IsDir(n2, op) then WithEntries(n2, op, Entries(n2, op) - {on}) else n2;
    PutEntry(n3, np, nn, i);
    var n4 := if IsDir(n3, np) then WithEntries(n3, np, Entries(n3, np)[nn := i]) else n3;
    SetParent(n4, i, np);
  }

  // ---------------------------------------------------------------------
  // The tree stays a tree
  // ---------------------------------------------------------------------

  lemma MoveKeepsMutual(nodes: Nodes, nodes': Nodes,
                        op: Inode, on: string, np: Inode, nn: string, i: Inode, gone: Option<Inode>)
    requires Mutual(nodes) && MoveFacts(nodes, nodes', op, on, np, nn, i, gone)
    requires Child(nodes, op, on) == Some(i) && gone == Child(nodes, np, nn) && gone != Some(i)
    requires IsDir(nodes, np) && np in nodes' && i in nodes' && i != ROOT && ValidName(nn)
    requires gone.Some? ==> forall x | x in nodes :: Parent(nodes, x) != gone.value
    ensures Mutual(nodes')
  {
    hide Parent, Child;
    assert Child(nodes', np, nn) == Some(i);
    forall d, n | Child(nodes', d, n).Some?
      ensures var c := Child(nodes', d, n).value;
              c in nodes' && c != ROOT && Parent(nodes', c) == d && ValidName(n)
      ensures Child(nodes', d, n) == Some(i) ==> d == np && n == nn
    {
      if !(d == np && n == nn) {
        var c := Child(nodes, d, n).value;
        assert Child(nodes, d, n) == Some(c);
        assert c == i ==> d == op && n == on;
      }
    }
    forall x | x in nodes' && x != ROOT
      ensures Named(nodes', x)
    {
      if x == i {
        assert Parent(nodes', i) == np && IsDir(nodes', np);
      } else {
        assert Named(nodes, x);
        var n :| Child(nodes, Parent(nodes, x), n) == Some(x);
        assert Child(nodes', Parent(nodes', x), n) == Some(x);
      }
    }
  }

  /** The destination's ancestors do not include the moved node. */
  lemma DestinationOutside(fs: Fs, op: Inode, on: string, np: Inode, nn: string, i: Inode, gone: Option<Inode>, k: nat)
    requires MayMove(fs, op, on, np, nn, i, gone)
    ensures Up(fs.nodes, np, k) != i
  {
    ChainExists(fs, np, k);
    assert Up(fs.nodes, np, k) == i ==> Above(fs.nodes, i, np);
  }

  /** A chain that avoids the moved node is untouched. */
  lemma ChainKept(fs: Fs, nodes': Nodes, op: Inode, on: string, np: Inode, nn: string, i: Inode, gone: Option<Inode>,
                  x: Inode, k: nat)
    requires MayMove(fs, op, on, np, nn, i, gone) && MoveFacts(fs.nodes, nodes', op, on, np, nn, i, gone)
    requires x in nodes' && forall j: nat | j < k :: Up(fs.nodes, x, j) != i
    ensures Up(nodes', x, k) == Up(fs.nodes, x, k)
  {
    forall j: nat | j < k
      ensures Parent(nodes', Up(fs.nodes, x, j)) == Parent(fs.nodes, Up(fs.nodes, x, j))
    {
      AncestorStays(fs, nodes', op, on, np, nn, i, gone, x, j);
    }
    SameChain(fs.nodes, nodes', x, k);
  }

  /** The replaced node has no descendants, so it is on nobody else's chain. */
  lemma AncestorStays(fs: Fs, nodes': Nodes, op: Inode, on: string, np: Inode, nn: string, i: Inode,
                      gone: Option<Inode>, x: Inode, j: nat)
    requires MayMove(fs, op, on, np, nn, i, gone) && MoveFacts(fs.nodes, nodes', op, on, np, nn, i, gone)
    requires x in nodes'
    ensures Up(fs.nodes, x, j) in nodes'
  {
    ChainExists(fs, x, j);
    Bystanders(fs, op, on, np, nn, i, gone);
    if j > 0 && gone.Some? {
      ChainExists(fs, x, j - 1);
      UpAdd(fs.nodes, x, j - 1, 1);
      assert Up(fs.nodes, Up(fs.nodes, x, j - 1), 1) == Parent(fs.nodes, Up(fs.nodes, x, j - 1));
      ChildlessIsNoParent(fs, gone.value);
    }
  }

  lemma {:induction false} MovedReachesRoot(fs: Fs, nodes': Nodes, op: Inode, on: string, np: Inode, nn: string,
                                            i: Inode, gone: Option<Inode>, x: Inode, k: nat)
    requires MayMove(fs, op, on, np, nn, i, gone) && MoveFacts(fs.nodes, nodes', op, on, np, nn, i, gone)
    requires x in nodes' && Up(fs.nodes, x, k) == ROOT
    ensures ReachesRoot(nodes', x)
    decreases k
  {
    hide MayMove, MoveFacts;
    if x == i {
      RootFromDestination(fs, nodes', op, on, np, nn, i, gone);
    } else if k == 0 {
      assert Up(nodes', x, 0) == ROOT;
    } else {
      AncestorStays(fs, nodes', op, on, np, nn, i, gone, x, 1);
      assert Up(fs.nodes, x, 1) == Up(fs.nodes, Parent(fs.nodes, x), 0) == Parent(fs.nodes, x);
      MovedReachesRoot(fs, nodes', op, on, np, nn, i, gone, Parent(fs.nodes, x), k - 1);
      var m: nat :| Up(nodes', Parent(fs.nodes, x), m) == ROOT;
      ParentKept(fs.nodes, nodes', op, on, np, nn, i, gone, x);
      assert Up(nodes', x, m + 1) == ROOT;
    }
  }

  lemma ParentKept(nodes: Nodes, nodes': Nodes, op: Inode, on: string, np: Inode, nn: string, i: Inode,
                   gone: Option<Inode>, x: Inode)
    requires MoveFacts(nodes, nodes', op, on, np, nn, i, gone) && x in nodes'
    ensures Parent(nodes', x) == if x == i then np else Parent(nodes, x)
  {
  }

  lemma RootFromDestination(fs: Fs, nodes': Nodes, op: Inode, on: string, np: Inode, nn: string, i: Inode,
                            gone: Option<Inode>)
    requires MayMove(fs, op, on, np, nn, i, gone) && MoveFacts(fs.nodes, nodes', op, on, np, nn, i, gone)
    ensures ReachesRoot(nodes', i)
  {
    Bystanders(fs, op, on, np, nn, i, gone);
    assert ReachesRoot(fs.nodes, np);
    var k: nat :| Up(fs.nodes, np, k) == ROOT;
    forall j: nat | j < k
      ensures Up(fs.nodes, np, j) != i
    {
      DestinationOutside(fs, op, on, np, nn, i, gone, j);
    }
    ChainKept(fs, nodes', op, on, np, nn, i, gone, np, k);
    assert Up(nodes', i, k + 1) == Up(nodes', np, k);
  }

  lemma AllReachRoot(fs: Fs, nodes': Nodes, op: Inode, on: string, np: Inode, nn: string, i: Inode,
                     gone: Option<Inode>)
    requires MayMove(fs, op, on, np, nn, i, gone) && MoveFacts(fs.nodes, nodes', op, on, np, nn, i, gone)
    ensures forall x | x in nodes' :: ReachesRoot(nodes', x)
  {
    forall x | x in nodes'
      ensures ReachesRoot(nodes', x)
    {
      assert ReachesRoot(fs.nodes, x);
      var k: nat :| Up(fs.nodes, x, k) == ROOT;
      MovedReachesRoot(fs, nodes', op, on, np, nn, i, gone, x, k);
    }
  }

  lemma MoveIsMutual(fs: Fs, op: Inode, on: string, np: Inode, nn: string, i: Inode, gone: Option<Inode>)
    requires MayMove(fs, op, on, np, nn, i, gone)
    ensures var nodes' := Moved(fs.nodes, op, on, np, nn, i, gone);
            && MoveFacts(fs.nodes, nodes', op, on, np, nn, i, gone) && Mutual(nodes')
            && OthersKept(fs.nodes, nodes', op, np, i)
  {
    Bystanders(fs, op, on, np, nn, i, gone);
    EntryFacts(fs, op, on);
    if gone.Some? {
      ChildlessIsNoParent(fs, gone.value);
    }
    hide WellFormed, Entries, Moved;
    MovedHasFacts(fs.nodes, op, on, np, nn, i, gone);
    MoveKeepsMutual(fs.nodes, Moved(fs.nodes, op, on, np, nn, i, gone), op, on, np, nn, i, gone);
  }

  /** Moving keeps the whole tree invariant. */
  lemma MoveKeepsWellFormed(fs: Fs, op: Inode, on: string, np: Inode, nn: string, i: Inode, gone: Option<Inode>)
    requires MayMove(fs, op, on, np, nn, i, gone)
    ensures WellFormed(fs.(nodes := Moved(fs.nodes, op, on, np, nn, i, gone)))
  {
    hide Moved, Mutual, ReachesRoot, Child, Entries;
    var nodes' := Moved(fs.nodes, op, on, np, nn, i, gone);
    Bystanders(fs, op, on, np, nn, i, gone);
    MoveIsMutual(fs, op, on, np, nn, i, gone);
    AllReachRoot(fs, nodes', op, on, np, nn, i, gone);
  }

  // ---------------------------------------------------------------------
  // The moved subtree keeps its meaning
  // ---------------------------------------------------------------------

  /** Nothing at or below the moved node is among the nodes the move edits. */
  lemma SubtreeApart(fs: Fs, op: Inode, on: string, np: Inode, nn: string, i: Inode, gone: Option<Inode>, x: Inode)
    requires MayMove(fs, op, on, np, nn, i, gone) && x in fs.nodes && Above(fs.nodes, i, x)
    ensures x != op && x != np && gone != Some(x)
  {
    Bystanders(fs, op, on, np, nn, i, gone);
    if gone == Some(x) {
      EntryFacts(fs, np, nn);
    }
    SourceAbove(fs, op, on, np, nn, i, gone);
    hide MayMove;
    var k: nat :| Up(fs.nodes, x, k) == i;
    DestinationOutside(fs, op, on, np, nn, i, gone, k);
    if k > 0 { DestinationOutside(fs, op, on, np, nn, i, gone, k - 1); }
  }

  lemma SourceAbove(fs: Fs, op: Inode, on: string, np: Inode, nn: string, i: Inode, gone: Option<Inode>)
    requires MayMove(fs, op, on, np, nn, i, gone)
    ensures forall k: nat :: Up(fs.nodes, op, k) != i
  {
    Bystanders(fs, op, on, np, nn, i, gone);
    forall k: nat
      ensures Up(fs.nodes, op, k) != i
    {
      assert Up(fs.nodes, i, k + 1) == Up(fs.nodes, op, k);
      NotItsOwnAncestor(fs, i, k + 1);
    }
  }

  /** No node inside the moved subtree is altered, but for its top's parent. */
  lemma SubtreeUnaltered(fs: Fs, op: Inode, on: string, np: Inode, nn: string, i: Inode, gone: Option<Inode>, x: Inode)
    requires MayMove(fs, op, on, np, nn, i, gone) && x in fs.nodes && Above(fs.nodes, i, x)
    ensures var nodes' := Moved(fs.nodes, op, on, np, nn, i, gone);
            && x in nodes'
            && nodes'[x] == if x == i then fs.nodes[x].(parent := np) else fs.nodes[x]
  {
    SubtreeApart(fs, op, on, np, nn, i, gone, x);
    MoveIsMutual(fs, op, on, np, nn, i, gone);
  }

  ghost predicate Ordinary(names: seq<string>) {
    forall k | 0 <= k < |names| :: ValidName(names[k])
  }

  /** Walks of ordinary names from inside the subtree are as before. */
  lemma {:induction false} SameWalkBelow(fs: Fs, op: Inode, on: string, np: Inode, nn: string, i: Inode,
                                         gone: Option<Inode>, x: Inode, names: seq<string>)
    requires MayMove(fs, op, on, np, nn, i, gone) && x in fs.nodes && Above(fs.nodes, i, x) && Ordinary(names)
    ensures Walk(Moved(fs.nodes, op, on, np, nn, i, gone), x, names) == Walk(fs.nodes, x, names)
    decreases |names|
  {
    hide Moved, Above, WellFormed;
    MayMoveIsWellFormed(fs, op, on, np, nn, i, gone);
    hide MayMove;
    SubtreeUnaltered(fs, op, on, np, nn, i, gone, x);
    if names != [] && Lookup(fs.nodes, x, names[0]).Ok? {
      var c := Lookup(fs.nodes, x, names[0]).value;
      ChildIsBelow(fs, i, x, names[0]);
      SameWalkBelow(fs, op, on, np, nn, i, gone, c, names[1..]);
    }
  }

  lemma MayMoveIsWellFormed(fs: Fs, op: Inode, on: string, np: Inode, nn: string, i: Inode, gone: Option<Inode>)
    requires MayMove(fs, op, on, np, nn, i, gone)
    ensures WellFormed(fs)
  {
  }

  lemma ChildIsBelow(fs: Fs, i: Inode, x: Inode, name: string)
    requires WellFormed(fs) && Above(fs.nodes, i, x) && ValidName(name) && Child(fs.nodes, x, name).Some?
    ensures var c := Child(fs.nodes, x, name).value;
            c in fs.nodes && Above(fs.nodes, i, c)
  {
    var c := Child(fs.nodes, x, name).value;
    var k: nat :| Up(fs.nodes, x, k) == i;
    assert Up(fs.nodes, c, k + 1) == i;
  }

  /** The move happens exactly in the last branch of `rename`. */
  lemma RenameMoves(fs: Fs, op: Inode, on: string, np: Inode, nn: string)
    requires WellFormed(fs) && Rename(fs, op, on, np, nn).1.Ok?
    ensures on in Entries(fs.nodes, op) && Child(fs.nodes, op, on).Some?
    ensures var i := Child(fs.nodes, op, on).value;
            var gone := Child(fs.nodes, np, nn);
            if gone == Some(i) then
              op == np && on == nn && Rename(fs, op, on, np, nn).0 == fs
            else
              && MayMove(fs, op, on, np, nn, i, gone)
              && Rename(fs, op, on, np, nn).0 == fs.(nodes := Moved(fs.nodes, op, on, np, nn, i, gone))
  {
    hide Moved;
    EntryFacts(fs, op, on);
    if Child(fs.nodes, np, nn) == Child(fs.nodes, op, on) {
      EntryFacts(fs, np, nn);
    }
  }

  lemma RenameKeepsWellFormed(fs: Fs, op: Inode, on: string, np: Inode, nn: string)
    requires WellFormed(fs)
    ensures WellFormed(Rename(fs, op, on, np, nn).0)
  {
    hide WellFormed, Moved;
    if Rename(fs, op, on, np, nn).1.Ok? {
      RenameMoves(fs, op, on, np, nn);
      var i, gone := Child(fs.nodes, op, on).value, Child(fs.nodes, np, nn);
      if gone != Some(i) {
        MoveKeepsWellFormed(fs, op, on, np, nn, i, gone);
      }
    }
  }

  /** After a successful rename, the new name followed by any ordinary names
      leads where the old name followed by them led before. */
  lemma RenameKeepsMeaning(fs: Fs, op: Inode, on: string, np: Inode, nn: string, names: seq<string>)
    requires WellFormed(fs) && Rename(fs, op, on, np, nn).1.Ok? && Ordinary(names)
    ensures Walk(Rename(fs, op, on, np, nn).0.nodes, np, [nn] + names) == Walk(fs.nodes, op, [on] + names)
  {
    hide Moved;
    RenameMoves(fs, op, on, np, nn);
    EntryFacts(fs, op, on);
    var i, gone := Child(fs.nodes, op, on).value, Child(fs.nodes, np, nn);
    assert ([nn] + names)[1..] == names && ([on] + names)[1..] == names;
    if gone != Some(i) {
      assert Up(fs.nodes, i, 0) == i;
      SameWalkBelow(fs, op, on, np, nn, i, gone, i, names);
      MoveIsMutual(fs, op, on, np, nn, i, gone);
      var nodes' := Moved(fs.nodes, op, on, np, nn, i, gone);
      assert Child(nodes', np, nn) == Some(i);
    }
  }

  /** What no longer is: a moved file has left its old name, and the inode it
      replaced is gone from the table. */
  lemma RenameLeavesOldName(fs: Fs, op: Inode, on: string, np: Inode, nn: string)
    requires WellFormed(fs) && Rename(fs, op, on, np, nn).1.Ok? && !(op == np && on == nn)
    ensures var nodes' := Rename(fs, op, on, np, nn).0.nodes;
            && Lookup(nodes', op, on) == Err(NotFound)
            && (Child(fs.nodes, np, nn).Some? ==> Child(fs.nodes, np, nn).value !in nodes')
            && |nodes'| == |fs.nodes| - if Child(fs.nodes, np, nn).Some? then 1 else 0
  {
    hide Moved;
    RenameMoves(fs, op, on, np, nn);
    EntryFacts(fs, op, on);
    var i, gone := Child(fs.nodes, op, on).value, Child(fs.nodes, np, nn);
    Bystanders(fs, op, on, np, nn, i, gone);
    MoveIsMutual(fs, op, on, np, nn, i, gone);
    var nodes' := Moved(fs.nodes, op, on, np, nn, i, gone);
    assert Child(nodes', op, on) == None;
    assert |nodes'| == |nodes'.Keys| && |fs.nodes| == |fs.nodes.Keys|;
  }
}
