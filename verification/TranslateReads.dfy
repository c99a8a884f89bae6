/**
The lock-free reader as it is written: every accessor reads the entry anew, so a
walk makes up to ten reads, and stores may fall between any two of them.
 */
module TranslateReads {
  import opened Common
  import opened PageTables

  // ---------------------------------------------------------------------
  // The ten reads
  // ---------------------------------------------------------------------

  /** `m[k]` is the memory the `k`-th read sees: presence and address of the L4
      entry; presence, flags and address of the L3 and of the L2 entry; presence
      and address of the L1 entry. The second component is the last read made. */
  function ReadWalk(m: seq<Memory>, root: FrameNumber, p: Path, virt: U64): (r: (Option<nat>, nat))
    requires |m| == 10 && |p| == 4
    ensures r.1 < 10
  {
    if !EntryAt(m[0], root, p[0]).Present() then (None, 0)
    else
      var l3 := EntryAt(m[1], root, p[0]).frame;
      if !EntryAt(m[2], l3, p[1]).Present() then (None, 2)
      else if EntryAt(m[3], l3, p[1]).Huge() then
        (Some(BitOr(EntryAt(m[4], l3, p[1]).FrameAddr(), virt % 0x4000_0000)), 4)
      else
        var l2 := EntryAt(m[4], l3, p[1]).frame;
        if !EntryAt(m[5], l2, p[2]).Present() then (None, 5)
        else if EntryAt(m[6], l2, p[2]).Huge() then
          (Some(BitOr(EntryAt(m[7], l2, p[2]).FrameAddr(), virt % 0x20_0000)), 7)
        else
          var l1 := EntryAt(m[7], l2, p[2]).frame;
          if !EntryAt(m[8], l1, p[3]).Present() then (None, 8)
          else (Some(BitOr(EntryAt(m[9], l1, p[3]).FrameAddr(), virt % PAGE_SIZE)), 9)
  }

  // ---------------------------------------------------------------------
  // Entries above the leaves never change once present
  // ---------------------------------------------------------------------

  ghost predicate UpperEntriesStay(mem: Memory, mem': Memory, root: FrameNumber) {
    forall q: Path, i: Index | |q| <= 2 && TableAt(mem, root, q).Some? && EntryAt(mem, TableAt(mem, root, q).value, i).Present() ::
      EntryAt(mem', TableAt(mem, root, q).value, i) == EntryAt(mem, TableAt(mem, root, q).value, i)
  }

  lemma StoreKeepsUpperEntries(mem: Memory, mem': Memory, root: FrameNumber)
    requires Tree(mem, root) && StoreStep(mem, mem', root)
    ensures UpperEntriesStay(mem, mem', root)
  {
    hide TableAt, Lookup, Blank;
    if f, t :| Scribble(mem, mem', root, f, t) {
    } else if p, i, e :| Link(mem, mem', root, p, i, e) {
    } else {
      var p, i, e :| Leaf(mem, mem', root, p, i, e);
      forall q: Path | |q| <= 2 && TableAt(mem, root, q).Some?
        ensures TableAt(mem, root, q) != TableAt(mem, root, p)
      {
        assert q != p;
      }
    }
  }

  lemma UpperEntriesStayOn(a: Memory, b: Memory, c: Memory, root: FrameNumber)
    requires TablesStay(a, b, root) && UpperEntriesStay(a, b, root) && UpperEntriesStay(b, c, root)
    ensures UpperEntriesStay(a, c, root)
  {
    hide TableAt;
  }

  lemma {:induction false} TraceKeepsUpperEntries(trace: seq<Memory>, root: FrameNumber, j: nat, k: nat)
    requires StoreTrace(trace, root) && j <= k < |trace|
    ensures UpperEntriesStay(trace[j], trace[k], root)
    decreases k
  {
    hide Tree, TablesStay, StoreStep, UpperEntriesStay;
    if j < k {
      TraceKeepsUpperEntries(trace, root, j, k - 1);
      TraceKeepsTables(trace, root, j, k - 1);
      StoreKeepsUpperEntries(trace[k - 1], trace[k], root);
      UpperEntriesStayOn(trace[j], trace[k - 1], trace[k], root);
    } else {
      EntriesStayPut(trace[k], root);
    }
  }

  lemma EntriesStayPut(m: Memory, root: FrameNumber)
    ensures UpperEntriesStay(m, m, root)
  {
  }

  /** What later reads of a walk find again. */
  ghost predicate Later(a: Memory, b: Memory, root: FrameNumber) {
    TablesStay(a, b, root) && UpperEntriesStay(a, b, root)
  }

  lemma SameTable(a: Memory, b: Memory, root: FrameNumber, q: Path, i: Index)
    requires Later(a, b, root) && |q| <= 2 && TableAt(a, root, q).Some?
    requires EntryAt(a, TableAt(a, root, q).value, i).Present()
    ensures TableAt(b, root, q) == TableAt(a, root, q)
    ensures EntryAt(b, TableAt(a, root, q).value, i) == EntryAt(a, TableAt(a, root, q).value, i)
  {
    hide TableAt;
  }

  // ---------------------------------------------------------------------
  // What the reader answers
  // ---------------------------------------------------------------------

  /** The reads come in order, each in a memory the later ones follow from. */
  ghost predicate InOrder(m: seq<Memory>, root: FrameNumber) {
    forall j, k | 0 <= j <= k < |m| :: Later(m[j], m[k], root)
  }

  /** An entry on the way that was present when first read, at `j`: every later
      read finds the same entry, and the table it leads to. */
  lemma Level(m: seq<Memory>, root: FrameNumber, p: Path, k: nat, j: nat)
    requires |p| == 4 && k < 3 && InOrder(m, root) && j < |m|
    requires TableAt(m[j], root, p[..k]).Some? && EntryAt(m[j], TableAt(m[j], root, p[..k]).value, p[k]).Present()
    ensures var t := TableAt(m[j], root, p[..k]).value;
            var e := EntryAt(m[j], t, p[k]);
            forall i | j <= i < |m| ::
              EntryAt(m[i], t, p[k]) == e && TableAt(m[i], root, p[..k]) == Some(t) && TableAt(m[i], root, p[..k + 1]) == Child(e, k)
  {
    hide TableAt, Later;
    forall i | j <= i < |m|
      ensures TableAt(m[i], root, p[..k + 1]) == Child(EntryAt(m[j], TableAt(m[j], root, p[..k]).value, p[k]), k)
      ensures TableAt(m[i], root, p[..k]) == TableAt(m[j], root, p[..k])
      ensures EntryAt(m[i], TableAt(m[j], root, p[..k]).value, p[k]) == EntryAt(m[j], TableAt(m[j], root, p[..k]).value, p[k])
    {
      assert Later(m[j], m[i], root);
      SameTable(m[j], m[i], root, p[..k], p[k]);
      NextLevel(m[i], root, p, k);
    }
  }

  /** The answer is the atomic one at the last read, except that after the
      leaf's address was read it is so exactly when the leaf is still present. */
  lemma ReadWalkAnswers(m: seq<Memory>, root: FrameNumber, p: Path, virt: U64)
    requires |m| == 10 && |p| == 4 && InOrder(m, root)
    ensures var r := ReadWalk(m, root, p, virt);
            var last := m[r.1];
            && (r.0 == Walk(last, last, last, last, root, p, virt).0 <==> (r.1 == 9 ==> Lookup(last, root, p).Page?))
            && (r.1 == 9 && m[8] == m[9] ==> Lookup(last, root, p).Page?)
  {
    hide TableAt, InOrder;
    assert p[..0] == [];
    RootTable(m[0], root);
    var e4 := EntryAt(m[0], root, p[0]);
    if e4.Present() {
      Level(m, root, p, 0, 0);
      var e3 := EntryAt(m[2], e4.frame, p[1]);
      if e3.Present() {
        Level(m, root, p, 1, 2);
        if !e3.Huge() {
          var e2 := EntryAt(m[5], e3.frame, p[2]);
          if e2.Present() {
            Level(m, root, p, 2, 5);
          }
        }
      }
    }
  }

  /** The memories of ten reads taken at points of a trace. */
  function Picked(trace: seq<Memory>, at: seq<nat>): (m: seq<Memory>)
    requires forall k | 0 <= k < |at| :: at[k] < |trace|
    ensures |m| == |at| && forall k | 0 <= k < |at| :: m[k] == trace[at[k]]
  {
    seq(|at|, k requires 0 <= k < |at| => trace[at[k]])
  }

  ghost predicate Ordered(at: seq<nat>, n: nat) {
    |at| == 10 && (forall k | 0 <= k < 10 :: at[k] < n) && forall j, k | 0 <= j <= k < 10 :: at[j] <= at[k]
  }

  lemma PickedInOrder(trace: seq<Memory>, root: FrameNumber, at: seq<nat>)
    requires StoreTrace(trace, root) && Ordered(at, |trace|)
    ensures InOrder(Picked(trace, at), root)
  {
    hide StoreTrace, TablesStay, UpperEntriesStay;
    forall j, k | 0 <= j <= k < 10
      ensures Later(trace[at[j]], trace[at[k]], root)
    {
      TraceKeepsTables(trace, root, at[j], at[k]);
      TraceKeepsUpperEntries(trace, root, at[j], at[k]);
    }
  }

  /** The reader against every interleaving of stores: its answer is the atomic
      translation at the instant of its last read if and only if, when that read
      was the leaf's address, the page was still mapped at that instant. */
  lemma TornTranslate(trace: seq<Memory>, root: FrameNumber, virt: U64, at: seq<nat>)
    requires StoreTrace(trace, root) && Ordered(at, |trace|)
    ensures var r := ReadWalk(Picked(trace, at), root, PathOf(virt), virt);
            var last := trace[at[r.1]];
            r.0 == Translate(last, root, virt) <==> (r.1 == 9 ==> Lookup(last, root, PathOf(virt)).Page?)
  {
    hide StoreTrace, InOrder, ReadWalk, Walk, Lookup, PathOf;
    PickedInOrder(trace, root, at);
    ReadWalkAnswers(Picked(trace, at), root, PathOf(virt), virt);
  }

  /** So it is whenever no store falls between the two reads of the leaf. */
  lemma OneLeafReadIsEnough(trace: seq<Memory>, root: FrameNumber, virt: U64, at: seq<nat>)
    requires StoreTrace(trace, root) && Ordered(at, |trace|) && at[8] == at[9]
    ensures var r := ReadWalk(Picked(trace, at), root, PathOf(virt), virt);
            r.0 == Translate(trace[at[r.1]], root, virt)
  {
    hide StoreTrace, InOrder, ReadWalk, Walk, Lookup, PathOf;
    PickedInOrder(trace, root, at);
    ReadWalkAnswers(Picked(trace, at), root, PathOf(virt), virt);
  }

  // ---------------------------------------------------------------------
  // A page unmapped between the two reads of its entry
  // ---------------------------------------------------------------------

  /** Nine reads before a store and one after it. */
  function LastReadAfter(mem: Memory, mem': Memory): (m: seq<Memory>)
    ensures |m| == 10 && m[9] == mem' && forall k | 0 <= k < 9 :: m[k] == mem
  {
    [mem, mem, mem, mem, mem, mem, mem, mem, mem, mem']
  }

  /** Whatever page it is, the reader answers with the offset in frame zero,
      which is the translation neither before nor after, unless frame zero is
      what the page was mapped to. */
  lemma UnmappedInBetween(mem: Memory, mem': Memory, root: FrameNumber, virt: U64, p: Path, i: Index)
    requires Tree(mem, root) && Leaf(mem, mem', root, p, i, EMPTY_ENTRY) && PathOf(virt) == p + [i]
    requires Lookup(mem, root, PathOf(virt)).Page?
    ensures ReadWalk(LastReadAfter(mem, mem'), root, PathOf(virt), virt) == (Some(virt % PAGE_SIZE), 9)
    ensures Translate(mem', root, virt) == None
    ensures Translate(mem, root, virt) == Some(Lookup(mem, root, PathOf(virt)).entry.FrameAddr() + virt % PAGE_SIZE)
  {
    hide Resolve, Translate, Tree, LastReadAfter, PathOf, TableAt, Lookup, ReadWalk, Walk;
    var o := PathOf(virt);
    LeafStep(mem, mem', root, p, i, EMPTY_ENTRY);
    TranslateIsLookup(mem, root, virt);
    TranslateIsLookup(mem', root, virt);
    ResolvePage(Lookup(mem, root, o).entry, virt);
    NothingResolves(virt);
    assert o[..3] == p && o[3] == i;
    LeafReadAfter(mem, mem', root, o, virt);
  }

  lemma NothingResolves(virt: U64)
    ensures Resolve(Unmapped, virt) == None
  {
  }

  lemma LeafReadAfter(mem: Memory, mem': Memory, root: FrameNumber, o: Path, virt: U64)
    requires |o| == 4 && Lookup(mem, root, o).Page? && TableAt(mem, root, o[..3]).Some?
    requires Leaf(mem, mem', root, o[..3], o[3], EMPTY_ENTRY)
    ensures ReadWalk(LastReadAfter(mem, mem'), root, o, virt) == (Some(virt % PAGE_SIZE), 9)
  {
    FirstLoad(mem, root, o);
    NextLevel(mem, root, o, 1);
    NextLevel(mem, root, o, 2);
  }

  const LINK_FLAGS: PageFlags := {PRESENT, WRITABLE}

  /** Four tables in frames 1 to 4 that map the first page to frame 5. */
  function OnePage(): Memory {
    map[1 := BlankTable()[0 := Entry(2, LINK_FLAGS)], 2 := BlankTable()[0 := Entry(3, LINK_FLAGS)],
        3 := BlankTable()[0 := Entry(4, LINK_FLAGS)], 4 := BlankTable()[0 := Entry(5, LINK_FLAGS)]]
  }

  function Zeros(k: nat): (p: Path)
    ensures |p| == k && forall j | 0 <= j < k :: p[j] == 0
  {
    seq(k, _ => 0)
  }

  lemma OnePageEntry(t: FrameNumber, i: Index)
    ensures EntryAt(OnePage(), t, i) == if 1 <= t <= 4 && i == 0 then Entry(t + 1, LINK_FLAGS) else EMPTY_ENTRY
  {
  }

  lemma {:induction false} OnePageTables(p: Path)
    requires |p| <= 3
    ensures TableAt(OnePage(), 1, p) == if p == Zeros(|p|) then Some(1 + |p|) else None
    decreases |p|
  {
    hide OnePage;
    if p != [] {
      var n := |p| - 1;
      OnePageTables(p[..n]);
      assert p == Zeros(n + 1) ==> p[..n] == Zeros(n);
      if p[..n] == Zeros(n) {
        OnePageEntry(1 + n, p[n]);
        assert p == p[..n] + [p[n]];
        assert p[n] == 0 ==> p == Zeros(n + 1);
      }
    }
  }

  lemma OnePageIsTree()
    ensures Tree(OnePage(), 1) && Lookup(OnePage(), 1, Zeros(4)) == Page(Entry(5, LINK_FLAGS))
  {
    hide TableAt;
    forall p: Path | |p| <= 3
      ensures TableAt(OnePage(), 1, p) == if p == Zeros(|p|) then Some(1 + |p|) else None
    {
      OnePageTables(p);
    }
    assert Zeros(4)[..1] == Zeros(1);
    OnePageEntry(2, 0);
    OnePageEntry(3, 0);
    OnePageEntry(4, 0);
  }

  lemma OnePageUnmapped()
    ensures 4 in OnePage() && Leaf(OnePage(), Store(OnePage(), 4, 0, EMPTY_ENTRY), 1, Zeros(3), 0, EMPTY_ENTRY)
  {
    hide TableAt;
    OnePageTables(Zeros(3));
  }

  lemma FirstPage()
    ensures PathOf(0) == Zeros(4) == Zeros(3) + [0]
  {
  }

  lemma TwoStates(mem: Memory, mem': Memory, root: FrameNumber, p: Path, i: Index, e: Entry)
    requires Tree(mem, root) && Leaf(mem, mem', root, p, i, e)
    ensures StoreTrace([mem, mem'], root)
  {
    hide Tree, Leaf;
  }

  /** One mapped page, one unmap: a reader of address zero answers frame zero,
      where the page was in frame 5 before and nowhere after. */
  lemma TornAtOnePage()
    ensures 4 in OnePage()
    ensures var trace := [OnePage(), Store(OnePage(), 4, 0, EMPTY_ENTRY)];
            var at := [0, 0, 0, 0, 0, 0, 0, 0, 0, 1];
            && StoreTrace(trace, 1) && Ordered(at, 2)
            && ReadWalk(Picked(trace, at), 1, PathOf(0), 0).0 == Some(0)
            && Translate(trace[0], 1, 0) == Some(5 * PAGE_SIZE) && Translate(trace[1], 1, 0) == None
  {
    hide TableAt, Lookup, Leaf, Tree, ReadWalk, Translate, PathOf, OnePage, Store, StoreTrace, Zeros;
    OnePageIsTree();
    OnePageUnmapped();
    FirstPage();
    var mem, mem' := OnePage(), Store(OnePage(), 4, 0, EMPTY_ENTRY);
    var trace, at := [mem, mem'], [0, 0, 0, 0, 0, 0, 0, 0, 0, 1];
    TwoStates(mem, mem', 1, Zeros(3), 0, EMPTY_ENTRY);
    UnmappedInBetween(mem, mem', 1, 0, Zeros(3), 0);
    assert Picked(trace, at) == LastReadAfter(mem, mem');
  }
}
