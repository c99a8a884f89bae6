/**
The four-level x86_64 page-table tree as plain data: entries, tables in
physical memory, the walk from the root, and what a single 8-byte store into
the tree can and cannot change.
 */
module PageTables {
  import opened Common

  const ENTRIES: nat := 512
  const PAGE_SIZE: nat := 4096
  const FRAME_LIMIT: nat := 0x100_0000_0000   // 40 frame-number bits, 12..=51

  type Index = i: nat | i < ENTRIES
  type FrameNumber = f: nat | f < FRAME_LIMIT

  /** Bit positions of an entry that do not hold the frame address. */
  type FlagBit = b: nat | b < 12 || 52 <= b < 64
  type PageFlags = set<FlagBit>

  const PRESENT: FlagBit := 0
  const WRITABLE: FlagBit := 1
  const USER: FlagBit := 2
  const HUGE_PAGE: FlagBit := 7
  const NO_EXECUTE: FlagBit := 63

  /** A 64-bit entry, split at the address mask into frame number and flag bits. */
  datatype Entry = Entry(frame: FrameNumber, flags: PageFlags) {
    predicate Present() { PRESENT in flags }
    predicate Huge() { HUGE_PAGE in flags }
    function FrameAddr(): nat { frame * PAGE_SIZE }
  }

  const EMPTY_ENTRY := Entry(0, {})

  type Table = t: seq<Entry> | |t| == ENTRIES witness seq(ENTRIES, _ => EMPTY_ENTRY)

  /** What `PageTable::empty` writes: 512 zero entries. */
  predicate Blank(t: Table) {
    forall i: nat | i < ENTRIES :: t[i] == EMPTY_ENTRY
  }

  function BlankTable(): (t: Table)
    ensures Blank(t)
  {
    seq(ENTRIES, _ => EMPTY_ENTRY)
  }

  /** The masking done by `PageTableEntry::set`: address bits above 51 are lost. */
  function MakeEntry(phys: nat, flags: PageFlags): Entry {
    Entry(phys / PAGE_SIZE % FRAME_LIMIT, flags)
  }

  /** Frames of RAM and the 512 entries each would show if read as a table. */
  type Memory = map<FrameNumber, Table>

  function EntryAt(mem: Memory, table: FrameNumber, i: Index): Entry {
    if table in mem then mem[table][i] else EMPTY_ENTRY
  }

  function Store(mem: Memory, table: FrameNumber, i: Index, e: Entry): Memory
    requires table in mem
  {
    mem[table := mem[table][i := e]]
  }

  // ---------------------------------------------------------------------
  // Walking
  // ---------------------------------------------------------------------

  /** The indices chosen by the bits of a virtual address, L4 first. */
  type Path = seq<Index>

  function PathOf(virt: U64): (p: Path)
    ensures |p| == 4
  {
    [virt / 0x80_0000_0000 % ENTRIES, virt / 0x4000_0000 % ENTRIES,
     virt / 0x20_0000 % ENTRIES, virt / 0x1000 % ENTRIES]
  }

  predicate PageAligned(a: nat) { a % PAGE_SIZE == 0 }

  /** Bits 48..=63 copy bit 47. */
  predicate Canonical(virt: U64) {
    virt < 0x8000_0000_0000 || virt >= 0xFFFF_8000_0000_0000
  }

  /** Where an intermediate entry at `depth` (0 is L4) leads. A huge bit in an
      L4 entry is not looked at by the walker. */
  function Child(e: Entry, depth: nat): Option<FrameNumber> {
    if !e.Present() || (depth > 0 && e.Huge()) then None else Some(e.frame)
  }

  /** The table reached from the root by following `path`. */
  function TableAt(mem: Memory, root: FrameNumber, path: Path): Option<FrameNumber>
    decreases |path|
  {
    if path == [] then Some(root)
    else
      var n := |path| - 1;
      match TableAt(mem, root, path[..n])
      case None => None
      case Some(t) => Child(EntryAt(mem, t, path[n]), n)
  }

  /** The entry through which the walk reaches the table at `q`. */
  function LinkEntry(mem: Memory, root: FrameNumber, q: Path): Entry
    requires q != [] && TableAt(mem, root, q).Some?
  {
    EntryAt(mem, TableAt(mem, root, q[..|q| - 1]).value, q[|q| - 1])
  }

  /** What a page is mapped to. */
  datatype Mapping =
    | Unmapped
    | Huge1G(entry: Entry)
    | Huge2M(entry: Entry)
    | Page(entry: Entry)

  /** The flat view: the mapping of each of the 2^36 pages. */
  function Lookup(mem: Memory, root: FrameNumber, q: Path): Mapping
    requires |q| == 4
  {
    match TableAt(mem, root, q[..1])
    case None => Unmapped
    case Some(l3) =>
      var e3 := EntryAt(mem, l3, q[1]);
      if !e3.Present() then Unmapped
      else if e3.Huge() then Huge1G(e3)
      else
        var e2 := EntryAt(mem, e3.frame, q[2]);
        if !e2.Present() then Unmapped
        else if e2.Huge() then Huge2M(e2)
        else
          var e1 := EntryAt(mem, e2.frame, q[3]);
          if !e1.Present() then Unmapped else Page(e1)
  }

  /** The physical address a mapping gives to a virtual one. */
  function Resolve(m: Mapping, virt: U64): Option<nat> {
    match m
    case Unmapped => None
    case Huge1G(e) => Some(BitOr(e.FrameAddr(), virt % 0x4000_0000))
    case Huge2M(e) => Some(BitOr(e.FrameAddr(), virt % 0x20_0000))
    case Page(e) => Some(BitOr(e.FrameAddr(), virt % PAGE_SIZE))
  }

  /** The reader of `translate`: four dependent loads, one for each entry.
      `m0`..`m3` are the memories the loads see, so the same text describes the atomic walk and the
      one raced by stores. The second component says which load was the last. */
  function Walk(m0: Memory, m1: Memory, m2: Memory, m3: Memory, root: FrameNumber, p: Path, virt: U64)
    : (r: (Option<nat>, nat))
    requires |p| == 4
    ensures r.1 < 4
  {
    var e4 := EntryAt(m0, root, p[0]);
    if !e4.Present() then (None, 0)
    else
      var e3 := EntryAt(m1, e4.frame, p[1]);
      if !e3.Present() then (None, 1)
      else if e3.Huge() then (Some(BitOr(e3.FrameAddr(), virt % 0x4000_0000)), 1)
      else
        var e2 := EntryAt(m2, e3.frame, p[2]);
        if !e2.Present() then (None, 2)
        else if e2.Huge() then (Some(BitOr(e2.FrameAddr(), virt % 0x20_0000)), 2)
        else
          var e1 := EntryAt(m3, e2.frame, p[3]);
          if !e1.Present() then (None, 3)
          else (Some(BitOr(e1.FrameAddr(), virt % PAGE_SIZE)), 3)
  }

  function Translate(mem: Memory, root: FrameNumber, virt: U64): Option<nat> {
    Walk(mem, mem, mem, mem, root, PathOf(virt), virt).0
  }

  /** Translation factors through the flat view. */
  lemma TranslateIsLookup(mem: Memory, root: FrameNumber, virt: U64)
    ensures Translate(mem, root, virt) == Resolve(Lookup(mem, root, PathOf(virt)), virt)
  {
    FirstLoad(mem, root, PathOf(virt));
  }

  /** A 4 KiB mapping sends each address to the frame's base plus its offset. */
  lemma ResolvePage(e: Entry, virt: U64)
    ensures Resolve(Page(e), virt) == Some(e.FrameAddr() + virt % PAGE_SIZE)
  {
    assert Pow2(12) == 4096 by { assert Pow2(6) == 64; assert Pow2(9) == 512; }
    BitOrDisjoint(e.frame, 12, virt % PAGE_SIZE);
  }

  /** So do the large mappings, whose frames are aligned to their size. */
  lemma ResolveHuge(e: Entry, virt: U64)
    ensures e.FrameAddr() % 0x20_0000 == 0 ==> Resolve(Huge2M(e), virt) == Some(e.FrameAddr() + virt % 0x20_0000)
    ensures e.FrameAddr() % 0x4000_0000 == 0 ==> Resolve(Huge1G(e), virt) == Some(e.FrameAddr() + virt % 0x4000_0000)
  {
    hide BitOr;
    LargePowers();
    var base := e.FrameAddr();
    if base % 0x20_0000 == 0 {
      BitOrDisjoint(base / 0x20_0000, 21, virt % 0x20_0000);
    }
    if base % 0x4000_0000 == 0 {
      BitOrDisjoint(base / 0x4000_0000, 30, virt % 0x4000_0000);
    }
  }

  lemma LargePowers()
    ensures Pow2(21) == 0x20_0000 && Pow2(30) == 0x4000_0000
  {
    assert Pow2(8) == 256;
    assert Pow2(16) == 0x1_0000;
    assert Pow2(24) == 0x100_0000;
  }

  /** Canonical addresses share their four indices exactly when they share the page. */
  lemma CanonicalPathsIdentifyPages(v: U64, w: U64)
    requires Canonical(v) && Canonical(w)
    ensures PathOf(v) == PathOf(w) <==> v / PAGE_SIZE == w / PAGE_SIZE
  {
    PathDigits(v);
    PathDigits(w);
    PageFromLowBits(v);
    PageFromLowBits(w);
    if PathOf(v) == PathOf(w) {
      assert Joined(PathOf(v)) == Joined(PathOf(w));
    }
  }

  /** The 36 page-number bits spelled by four 9-bit indices. */
  function Joined(p: Path): int
    requires |p| == 4
  {
    var a: int, b: int, c: int, d: int := p[0], p[1], p[2], p[3];
    ((a * 512 + b) * 512 + c) * 512 + d
  }

  lemma PathDigits(v: U64)
    ensures Joined(PathOf(v)) == v / PAGE_SIZE % 0x10_0000_0000
    ensures PathOf(v) == [v / PAGE_SIZE / 512 / 512 / 512 % 512, v / PAGE_SIZE / 512 / 512 % 512,
                          v / PAGE_SIZE / 512 % 512, v / PAGE_SIZE % 512]
  {
    ShiftNine(v);
    FourDigits(v / PAGE_SIZE);
  }

  lemma ShiftNine(v: nat)
    ensures v / 0x20_0000 == v / 0x1000 / 512
    ensures v / 0x4000_0000 == v / 0x20_0000 / 512
    ensures v / 0x80_0000_0000 == v / 0x4000_0000 / 512
  {
  }

  lemma FourDigits(a: nat)
    ensures (((a / 512 / 512 / 512 % 512) * 512 + a / 512 / 512 % 512) * 512 + a / 512 % 512) * 512 + a % 512
              == a % 0x10_0000_0000
  {
    var b := a / 512;
    var c := b / 512;
    var d := c / 512;
    var e := d / 512;
    DivModUnique(a, 0x10_0000_0000, e, (((d % 512) * 512 + c % 512) * 512 + b % 512) * 512 + a % 512);
  }

  /** Sign extension: a canonical page number is fixed by its low 36 bits. */
  lemma PageFromLowBits(v: U64)
    requires Canonical(v)
    ensures var a := v / PAGE_SIZE;
            var low := a % 0x10_0000_0000;
            a == if low < 0x8_0000_0000 then low else low + 0xF_FFF0_0000_0000
  {
    var a := v / PAGE_SIZE;
    if v >= 0xFFFF_8000_0000_0000 {
      assert 0xF_FFF8_0000_0000 <= a < 0x10_0000_0000_0000;
      assert a % 0x10_0000_0000 == a - 0xF_FFF0_0000_0000;
    }
  }

  // ---------------------------------------------------------------------
  // The tree invariant
  // ---------------------------------------------------------------------

  ghost predicate NotTable(mem: Memory, root: FrameNumber, f: FrameNumber) {
    forall p: Path | |p| <= 3 :: TableAt(mem, root, p) != Some(f)
  }

  /** Tables lie in RAM and no two paths of the walk share a table. */
  ghost predicate Tree(mem: Memory, root: FrameNumber) {
    && (forall p: Path | |p| <= 3 && TableAt(mem, root, p).Some? ::
          TableAt(mem, root, p).value in mem)
    && (forall p: Path, q: Path | |p| <= 3 && |q| <= 3 && TableAt(mem, root, p).Some?
          && TableAt(mem, root, p) == TableAt(mem, root, q) :: p == q)
  }

  /** Every table found before is still found, in the same frame. */
  ghost predicate TablesStay(mem: Memory, mem': Memory, root: FrameNumber) {
    forall p: Path | |p| <= 3 && TableAt(mem, root, p).Some? ::
      TableAt(mem', root, p) == TableAt(mem, root, p)
  }

  /** No page changed its mapping, except possibly the one given. */
  ghost predicate SameExcept(mem: Memory, mem': Memory, root: FrameNumber, q: Path) {
    forall o: Path | |o| == 4 && o != q :: Lookup(mem', root, o) == Lookup(mem, root, o)
  }

  ghost predicate SameLookups(mem: Memory, mem': Memory, root: FrameNumber) {
    forall o: Path | |o| == 4 :: Lookup(mem', root, o) == Lookup(mem, root, o)
  }

  // ---------------------------------------------------------------------
  // The three kinds of store the mapper issues
  // ---------------------------------------------------------------------

  /** Any write to a frame outside the tree: zeroing a table before it is
      linked, or ordinary data. */
  ghost predicate Scribble(mem: Memory, mem': Memory, root: FrameNumber, f: FrameNumber, t: Table) {
    NotTable(mem, root, f) && mem' == mem[f := t]
  }

  /** Publishing a zeroed, so far unlinked table in an empty slot. */
  ghost predicate Link(mem: Memory, mem': Memory, root: FrameNumber, p: Path, i: Index, e: Entry) {
    && |p| <= 2
    && TableAt(mem, root, p).Some? && TableAt(mem, root, p).value in mem
    && !EntryAt(mem, TableAt(mem, root, p).value, i).Present()
    && e.Present() && !e.Huge()
    && e.frame in mem && Blank(mem[e.frame])
    && NotTable(mem, root, e.frame)
    && mem' == Store(mem, TableAt(mem, root, p).value, i, e)
  }

  /** Writing or clearing a 4 KiB entry of an L1 table. */
  ghost predicate Leaf(mem: Memory, mem': Memory, root: FrameNumber, p: Path, i: Index, e: Entry) {
    && |p| == 3
    && TableAt(mem, root, p).Some? && TableAt(mem, root, p).value in mem
    && mem' == Store(mem, TableAt(mem, root, p).value, i, e)
  }

  ghost predicate StoreStep(mem: Memory, mem': Memory, root: FrameNumber) {
    || (exists f, t :: Scribble(mem, mem', root, f, t))
    || (exists p, i, e :: Link(mem, mem', root, p, i, e))
    || (exists p, i, e :: Leaf(mem, mem', root, p, i, e))
  }

  // ---------------------------------------------------------------------
  // Frame lemmas
  // ---------------------------------------------------------------------

  lemma {:induction false} ScribbleKeepsTableAt(
    mem: Memory, mem': Memory, root: FrameNumber, f: FrameNumber, t: Table, q: Path)
    requires Scribble(mem, mem', root, f, t) && |q| <= 4
    ensures TableAt(mem', root, q) == TableAt(mem, root, q)
  {
    if q != [] {
      ScribbleKeepsTableAt(mem, mem', root, f, t, q[..|q| - 1]);
      assert TableAt(mem, root, q[..|q| - 1]) != Some(f);
    }
  }

  /** A store into table `p` at slot `i` is seen only below that slot. */
  lemma {:induction false} StoreKeepsTableAt(
    mem: Memory, root: FrameNumber, p: Path, i: Index, e: Entry, q: Path)
    requires Tree(mem, root) && |p| <= 3 && |q| <= 3
    requires TableAt(mem, root, p).Some?
    requires !(p + [i] <= q)
    ensures TableAt(Store(mem, TableAt(mem, root, p).value, i, e), root, q) == TableAt(mem, root, q)
  {
    if q != [] {
      var n := |q| - 1;
      assert q == q[..n] + [q[n]];
      StoreKeepsTableAt(mem, root, p, i, e, q[..n]);
      assert TableAt(mem, root, q[..n]) == TableAt(mem, root, p) ==> q[..n] == p;
    }
  }

  lemma ScribbleStep(mem: Memory, mem': Memory, root: FrameNumber, f: FrameNumber, t: Table)
    requires Tree(mem, root) && Scribble(mem, mem', root, f, t)
    ensures Tree(mem', root) && TablesStay(mem, mem', root) && SameLookups(mem, mem', root)
    ensures forall p: Path | |p| <= 3 :: TableAt(mem', root, p) == TableAt(mem, root, p)
  {
    forall p: Path | |p| <= 4
      ensures TableAt(mem', root, p) == TableAt(mem, root, p)
    {
      ScribbleKeepsTableAt(mem, mem', root, f, t, p);
    }
    forall o: Path | |o| == 4
      ensures Lookup(mem', root, o) == Lookup(mem, root, o)
    {
      LookupByTables(mem, root, o);
      LookupByTables(mem', root, o);
    }
  }

  /** The flat view read off the tables along the path. */
  lemma LookupByTables(mem: Memory, root: FrameNumber, o: Path)
    requires |o| == 4
    ensures TableAt(mem, root, o[..1]).Some? && TableAt(mem, root, o[..2]).Some? && TableAt(mem, root, o[..3]).Some? ==>
              Lookup(mem, root, o)
                == var e := EntryAt(mem, TableAt(mem, root, o[..3]).value, o[3]);
                   if e.Present() then Page(e) else Unmapped
    ensures TableAt(mem, root, o[..1]).Some? && TableAt(mem, root, o[..2]).Some? && TableAt(mem, root, o[..3]).None? ==>
              Lookup(mem, root, o)
                == var e := EntryAt(mem, TableAt(mem, root, o[..2]).value, o[2]);
                   if e.Present() then Huge2M(e) else Unmapped
    ensures TableAt(mem, root, o[..1]).Some? && TableAt(mem, root, o[..2]).None? ==>
              Lookup(mem, root, o)
                == var e := EntryAt(mem, TableAt(mem, root, o[..1]).value, o[1]);
                   if e.Present() then Huge1G(e) else Unmapped
    ensures TableAt(mem, root, o[..1]).None? ==> Lookup(mem, root, o) == Unmapped
  {
    assert o[..2][..1] == o[..1] && o[..3][..2] == o[..2];
  }

  /** Nothing is found below a missing table. */
  lemma {:induction false} NoneBelow(mem: Memory, root: FrameNumber, p: Path, q: Path)
    requires p <= q && TableAt(mem, root, p).None?
    ensures TableAt(mem, root, q).None?
    decreases |q|
  {
    if |p| == |q| {
      assert p == q;
    } else {
      assert p <= q[..|q| - 1];
      NoneBelow(mem, root, p, q[..|q| - 1]);
    }
  }

  /** A page whose path meets a non-present entry is unmapped. */
  lemma AbsentIsUnmapped(mem: Memory, root: FrameNumber, p: Path, i: Index, o: Path)
    requires |o| == 4 && |p| <= 3 && p + [i] <= o
    requires TableAt(mem, root, p).Some? && !EntryAt(mem, TableAt(mem, root, p).value, i).Present()
    ensures Lookup(mem, root, o) == Unmapped
  {
    assert o[..|p|] == p && o[|p|] == i;
    TablesAbove(mem, root, o, |p|);
    if |p| < 3 {
      assert o[..|p| + 1][..|p|] == p;
      assert TableAt(mem, root, o[..|p| + 1]).None?;
      if |p| == 1 { NoneBelow(mem, root, o[..2], o[..3]); }
    }
    LookupByTables(mem, root, o);
  }

  lemma TablesAbove(mem: Memory, root: FrameNumber, o: Path, k: nat)
    requires k <= |o| && TableAt(mem, root, o[..k]).Some?
    ensures forall j | 0 <= j <= k :: TableAt(mem, root, o[..j]).Some?
  {
    forall j | 0 <= j <= k
      ensures TableAt(mem, root, o[..j]).Some?
    {
      if TableAt(mem, root, o[..j]).None? {
        NoneBelow(mem, root, o[..j], o[..k]);
      }
    }
  }

  /** A store outside the path of a page does not change its mapping. */
  lemma UntouchedPage(mem: Memory, mem': Memory, root: FrameNumber, p: Path, i: Index, o: Path)
    requires Tree(mem, root) && |p| <= 3 && |o| == 4 && !(p + [i] <= o)
    requires TableAt(mem, root, p).Some?
    requires forall f, j: Index | f != TableAt(mem, root, p).value || j != i ::
               EntryAt(mem', f, j) == EntryAt(mem, f, j)
    requires forall k | 0 <= k <= 3 :: TableAt(mem', root, o[..k]) == TableAt(mem, root, o[..k])
    ensures Lookup(mem', root, o) == Lookup(mem, root, o)
  {
    hide TableAt, Lookup, Tree;
    SameEntry(mem, mem', root, p, i, o, 0);
    SameEntry(mem, mem', root, p, i, o, 1);
    SameEntry(mem, mem', root, p, i, o, 2);
    SameEntry(mem, mem', root, p, i, o, 3);
    LookupByTables(mem, root, o);
    LookupByTables(mem', root, o);
  }

  lemma SameEntry(mem: Memory, mem': Memory, root: FrameNumber, p: Path, i: Index, o: Path, k: nat)
    requires Tree(mem, root) && |p| <= 3 && |o| == 4 && k <= 3 && !(p + [i] <= o)
    requires TableAt(mem, root, p).Some?
    requires forall f, j: Index | f != TableAt(mem, root, p).value || j != i ::
               EntryAt(mem', f, j) == EntryAt(mem, f, j)
    ensures TableAt(mem, root, o[..k]).Some? ==>
              var t := TableAt(mem, root, o[..k]).value; EntryAt(mem', t, o[k]) == EntryAt(mem, t, o[k])
  {
    hide TableAt;
    if o[..k] == p {
      assert o[..k + 1] == p + [o[k]];
    }
  }

  lemma LinkTables(mem: Memory, mem': Memory, root: FrameNumber, p: Path, i: Index, e: Entry, q: Path)
    requires Tree(mem, root) && Link(mem, mem', root, p, i, e) && |q| <= 3
    ensures TableAt(mem', root, q) == if q == p + [i] then Some(e.frame) else TableAt(mem, root, q)
  {
    var pi := p + [i];
    assert pi[..|p|] == p;
    StoreKeepsTableAt(mem, root, p, i, e, p);
    assert TableAt(mem', root, pi) == Some(e.frame);
    if !(pi <= q) {
      StoreKeepsTableAt(mem, root, p, i, e, q);
    } else if q != pi {
      assert TableAt(mem, root, pi).None?;
      NoneBelow(mem, root, pi, q);
      var below := q[..|pi| + 1];
      assert below[..|pi|] == pi;
      assert TableAt(mem, root, p) != Some(e.frame);
      assert TableAt(mem', root, below).None?;
      NoneBelow(mem', root, below, q);
    }
  }

  /** Publishing a zeroed table adds one table to the tree and maps nothing. */
  lemma LinkStep(mem: Memory, mem': Memory, root: FrameNumber, p: Path, i: Index, e: Entry)
    requires Tree(mem, root) && Link(mem, mem', root, p, i, e)
    ensures Tree(mem', root) && TablesStay(mem, mem', root) && SameLookups(mem, mem', root)
    ensures forall q: Path | |q| <= 3 ::
              TableAt(mem', root, q) == if q == p + [i] then Some(e.frame) else TableAt(mem, root, q)
  {
    forall q: Path | |q| <= 3
      ensures TableAt(mem', root, q) == if q == p + [i] then Some(e.frame) else TableAt(mem, root, q)
    {
      LinkTables(mem, mem', root, p, i, e, q);
    }
    assert (p + [i])[..|p|] == p;
    assert TableAt(mem, root, p + [i]).None?;
    hide TableAt, Lookup;
    forall o: Path | |o| == 4
      ensures Lookup(mem', root, o) == Lookup(mem, root, o)
    {
      LinkKeepsPage(mem, mem', root, p, i, e, o);
    }
  }

  lemma LinkKeepsPage(mem: Memory, mem': Memory, root: FrameNumber, p: Path, i: Index, e: Entry, o: Path)
    requires Tree(mem, root) && Link(mem, mem', root, p, i, e) && |o| == 4
    requires forall q: Path | |q| <= 3 ::
               TableAt(mem', root, q) == if q == p + [i] then Some(e.frame) else TableAt(mem, root, q)
    ensures Lookup(mem', root, o) == Lookup(mem, root, o)
  {
    hide TableAt, Lookup;
    if p + [i] <= o {
      AbsentIsUnmapped(mem, root, p, i, o);
      assert TableAt(mem, root, p) != Some(e.frame);
      assert p + [i] + [o[|p| + 1]] <= o;
      AbsentIsUnmapped(mem', root, p + [i], o[|p| + 1], o);
    } else {
      UntouchedPage(mem, mem', root, p, i, o);
    }
  }

  /** A leaf store moves no table and changes exactly one page. */
  lemma LeafStep(mem: Memory, mem': Memory, root: FrameNumber, p: Path, i: Index, e: Entry)
    requires Tree(mem, root) && Leaf(mem, mem', root, p, i, e)
    ensures Tree(mem', root) && TablesStay(mem, mem', root)
    ensures forall q: Path | |q| <= 3 :: TableAt(mem', root, q) == TableAt(mem, root, q)
    ensures SameExcept(mem, mem', root, p + [i])
    ensures Lookup(mem', root, p + [i]) == if e.Present() then Page(e) else Unmapped
  {
    forall q: Path | |q| <= 3
      ensures TableAt(mem', root, q) == TableAt(mem, root, q)
    {
      StoreKeepsTableAt(mem, root, p, i, e, q);
    }
    forall o: Path | |o| == 4 && o != p + [i]
      ensures Lookup(mem', root, o) == Lookup(mem, root, o)
    {
      UntouchedPage(mem, mem', root, p, i, o);
    }
    var o := p + [i];
    assert o[..3] == p;
    TablesAbove(mem', root, o, 3);
    LookupByTables(mem', root, o);
  }

  // ---------------------------------------------------------------------
  // The lock-free reader
  // ---------------------------------------------------------------------

  lemma StoreStepKeepsTree(mem: Memory, mem': Memory, root: FrameNumber)
    requires Tree(mem, root) && StoreStep(mem, mem', root)
    ensures Tree(mem', root) && TablesStay(mem, mem', root)
  {
    if f, t :| Scribble(mem, mem', root, f, t) {
      ScribbleStep(mem, mem', root, f, t);
    } else if p, i, e :| Link(mem, mem', root, p, i, e) {
      LinkStep(mem, mem', root, p, i, e);
    } else {
      var p, i, e :| Leaf(mem, mem', root, p, i, e);
      LeafStep(mem, mem', root, p, i, e);
    }
  }

  /** A run of the memory: each state follows from the last by one store. */
  ghost predicate StoreTrace(trace: seq<Memory>, root: FrameNumber) {
    && trace != [] && Tree(trace[0], root)
    && forall k | 0 < k < |trace| :: StoreStep(trace[k - 1], trace[k], root)
  }

  lemma TablesStayPut(m: Memory, root: FrameNumber)
    ensures TablesStay(m, m, root)
  {
  }

  lemma TablesStayOn(a: Memory, b: Memory, c: Memory, root: FrameNumber)
    requires TablesStay(a, b, root) && TablesStay(b, c, root)
    ensures TablesStay(a, c, root)
  {
    hide TableAt;
  }

  lemma {:induction false} TraceKeepsTables(trace: seq<Memory>, root: FrameNumber, j: nat, k: nat)
    requires StoreTrace(trace, root) && j <= k < |trace|
    ensures Tree(trace[j], root) && Tree(trace[k], root) && TablesStay(trace[j], trace[k], root)
    decreases k
  {
    hide Tree, TablesStay, StoreStep;
    if j < k {
      TraceKeepsTables(trace, root, j, k - 1);
      StoreStepKeepsTree(trace[k - 1], trace[k], root);
      TablesStayOn(trace[j], trace[k - 1], trace[k], root);
    } else if k == 0 {
      TablesStayPut(trace[0], root);
    } else {
      TablesStayPut(trace[k], root);
      TraceKeepsTables(trace, root, k - 1, k - 1);
      StoreStepKeepsTree(trace[k - 1], trace[k], root);
    }
  }

  /** Linearizability of the reader that takes no lock, as long as it loads each
      entry once: whatever stores happen between its four loads, its answer is
      the atomic translation at the instant of the last. `TranslateReads` has
      the reader that reads an entry once for each accessor. */
  lemma LockFreeTranslate(trace: seq<Memory>, root: FrameNumber, virt: U64, at: seq<nat>)
    requires StoreTrace(trace, root)
    requires |at| == 4 && at[0] <= at[1] <= at[2] <= at[3] < |trace|
    ensures var raced := Walk(trace[at[0]], trace[at[1]], trace[at[2]], trace[at[3]], root, PathOf(virt), virt);
            raced.0 == Translate(trace[at[raced.1]], root, virt)
  {
    TraceKeepsTables(trace, root, at[0], at[1]);
    TraceKeepsTables(trace, root, at[1], at[2]);
    TraceKeepsTables(trace, root, at[2], at[3]);
    RacedWalk(trace[at[0]], trace[at[1]], trace[at[2]], trace[at[3]], root, PathOf(virt), virt);
  }

  lemma RacedWalk(m0: Memory, m1: Memory, m2: Memory, m3: Memory, root: FrameNumber, p: Path, virt: U64)
    requires |p| == 4
    requires TablesStay(m0, m1, root) && TablesStay(m1, m2, root) && TablesStay(m2, m3, root)
    ensures var raced := Walk(m0, m1, m2, m3, root, p, virt);
            var m := [m0, m1, m2, m3][raced.1];
            raced.0 == Walk(m, m, m, m, root, p, virt).0
  {
    FirstLoad(m0, root, p);
    FirstLoad(m1, root, p);
    FirstLoad(m2, root, p);
    FirstLoad(m3, root, p);
    assert p[..2][..1] == p[..1] && p[..3][..2] == p[..2];
    var e4 := EntryAt(m0, root, p[0]);
    if e4.Present() {
      assert TableAt(m3, root, p[..1]) == TableAt(m2, root, p[..1]) == TableAt(m1, root, p[..1]) == Some(e4.frame);
      var e3 := EntryAt(m1, e4.frame, p[1]);
      if e3.Present() && !e3.Huge() {
        assert TableAt(m3, root, p[..2]) == TableAt(m2, root, p[..2]) == TableAt(m1, root, p[..2]) == Some(e3.frame);
        var e2 := EntryAt(m2, e3.frame, p[2]);
        if e2.Present() && !e2.Huge() {
          assert TableAt(m3, root, p[..3]) == TableAt(m2, root, p[..3]) == Some(e2.frame);
        }
      }
    }
  }

  lemma RootTable(mem: Memory, root: FrameNumber)
    ensures TableAt(mem, root, []) == Some(root)
  {
  }

  lemma NextLevel(mem: Memory, root: FrameNumber, q: Path, k: nat)
    requires |q| == 4 && k < 3 && TableAt(mem, root, q[..k]).Some?
    ensures TableAt(mem, root, q[..k + 1]) == Child(EntryAt(mem, TableAt(mem, root, q[..k]).value, q[k]), k)
  {
    assert q[..k + 1][..k] == q[..k];
  }

  lemma FirstLoad(mem: Memory, root: FrameNumber, p: Path)
    requires |p| == 4
    ensures TableAt(mem, root, p[..1]) == Child(EntryAt(mem, root, p[0]), 0)
  {
    assert p[..1][..0] == [];
  }
}
