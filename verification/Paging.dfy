/**
`map`, `unmap` and `translate` on the active page tables. The object keeps the
tables in physical memory, takes new tables from the frame allocator, and
records every store it issues so that the lock-free reader can be placed
anywhere among them.
 */
module Paging {
  import opened Common
  import opened PageTables
  import FrameAllocator

  datatype MapError = AlreadyMapped | NotMapped | OutOfFrames | HugePageConflict | NotInitialized

  const PHYS_LIMIT: nat := 0x10_0000_0000_0000   // 52 address bits survive in an entry

  const UNSET: U64 := 0xFFFF_FFFF_FFFF_FFFF

  // ---------------------------------------------------------------------
  // What a path needs
  // ---------------------------------------------------------------------

  /** The walk for `q` runs into a huge entry where the mapper must descend. */
  predicate Conflict(mem: Memory, root: FrameNumber, q: Path)
    requires |q| == 4
  {
    exists k | 0 <= k < 3 ::
      && TableAt(mem, root, q[..k]).Some?
      && HugeEntry(EntryAt(mem, TableAt(mem, root, q[..k]).value, q[k]))
  }

  /** How many of the three tables below the root are absent on this path. */
  function Missing(mem: Memory, root: FrameNumber, q: Path): nat
    requires |q| == 4
  {
    (if TableAt(mem, root, q[..1]).None? then 1 else 0)
    + (if TableAt(mem, root, q[..2]).None? then 1 else 0)
    + (if TableAt(mem, root, q[..3]).None? then 1 else 0)
  }

  /** The outcome of `map`, from the tables and the number of free frames. */
  function MapOutcome(mem: Memory, root: FrameNumber, q: Path, free: nat): Result<Unit, MapError>
    requires |q| == 4
  {
    if Conflict(mem, root, q) then Err(HugePageConflict)
    else if Missing(mem, root, q) > free then Err(OutOfFrames)
    else if Lookup(mem, root, q) != Unmapped then Err(AlreadyMapped)
    else Ok(Unit)
  }

  /** The outcome of `unmap`: the frame address of a 4 KiB mapping. */
  function UnmapOutcome(mem: Memory, root: FrameNumber, q: Path): Result<nat, MapError>
    requires |q| == 4
  {
    if Conflict(mem, root, q) then Err(HugePageConflict)
    else match Lookup(mem, root, q)
      case Page(e) => Ok(e.FrameAddr())
      case _ => Err(NotMapped)
  }

  /** A table missing at one level is missing at the levels below. */
  lemma MissingBelow(mem: Memory, root: FrameNumber, q: Path)
    requires |q| == 4
    ensures TableAt(mem, root, q[..1]).None? ==> TableAt(mem, root, q[..2]).None?
    ensures TableAt(mem, root, q[..2]).None? ==> TableAt(mem, root, q[..3]).None?
  {
    if TableAt(mem, root, q[..1]).None? { NoneBelow(mem, root, q[..1], q[..2]); }
    if TableAt(mem, root, q[..2]).None? { NoneBelow(mem, root, q[..2], q[..3]); }
  }

  /** No table's frame is up for allocation, and the allocator only owns RAM. */
  ghost predicate FramesApart(mem: Memory, root: FrameNumber, free: set<nat>) {
    && (forall p: Path | |p| <= 3 && TableAt(mem, root, p).Some? :: TableAt(mem, root, p).value !in free)
    && (forall f | f in free :: f < FRAME_LIMIT && f in mem)
  }

  ghost predicate Sound(mem: Memory, root: FrameNumber, free: set<nat>, history: seq<Memory>) {
    && Tree(mem, root) && FramesApart(mem, root, free)
    && StoreTrace(history, root) && history[|history| - 1] == mem
  }

  lemma TakeFrame(mem: Memory, root: FrameNumber, free: set<nat>, history: seq<Memory>, f: nat)
    requires Sound(mem, root, free, history) && f in free
    ensures Sound(mem, root, free - {f}, history)
    ensures f < FRAME_LIMIT && f in mem && NotTable(mem, root, f)
  {
  }

  /** An intermediate entry is present and writable and inherits USER. */
  function IntermediateFlags(flags: PageFlags): (r: PageFlags)
    ensures LinkFlags(r, flags)
  {
    {PRESENT, WRITABLE} + (flags * {USER})
  }

  // ---------------------------------------------------------------------
  // The entries above the leaves
  // ---------------------------------------------------------------------

  /** A link made for `request`: present, writable, user-accessible exactly on
      request, and nothing else. */
  predicate LinkFlags(flags: PageFlags, request: PageFlags) {
    && PRESENT in flags && WRITABLE in flags
    && (USER in flags <==> USER in request)
    && flags <= {PRESENT, WRITABLE, USER}
  }

  /** A table that was there is reached through the entry it was; a new one
      through a link made for `request`. */
  ghost predicate LinksMade(mem0: Memory, mem: Memory, root: FrameNumber, request: PageFlags) {
    forall q: Path | 0 < |q| <= 3 && TableAt(mem, root, q).Some? ::
      if TableAt(mem0, root, q).Some? then LinkEntry(mem, root, q) == LinkEntry(mem0, root, q)
      else LinkFlags(LinkEntry(mem, root, q).flags, request)
  }

  /** The same tables, through the same entries. */
  ghost predicate LinksKept(mem0: Memory, mem: Memory, root: FrameNumber) {
    forall q: Path | 0 < |q| <= 3 ::
      && TableAt(mem, root, q) == TableAt(mem0, root, q)
      && (TableAt(mem, root, q).Some? ==> LinkEntry(mem, root, q) == LinkEntry(mem0, root, q))
  }

  lemma LinksUnchanged(mem: Memory, root: FrameNumber, request: PageFlags)
    ensures LinksMade(mem, mem, root, request)
  {
  }

  lemma LinksMadeOn(a: Memory, b: Memory, c: Memory, root: FrameNumber, request: PageFlags)
    requires LinksMade(a, b, root, request) && LinksMade(b, c, root, request) && TablesStay(a, b, root)
    ensures LinksMade(a, c, root, request)
  {
    hide TableAt, LinkFlags, LinkEntry;
  }

  lemma LinksMadeKept(a: Memory, b: Memory, c: Memory, root: FrameNumber, request: PageFlags)
    requires LinksMade(a, b, root, request) && LinksKept(b, c, root)
    ensures LinksMade(a, c, root, request)
  {
    hide TableAt, LinkFlags, LinkEntry;
  }

  lemma LinksKeptMade(a: Memory, b: Memory, c: Memory, root: FrameNumber, request: PageFlags)
    requires LinksKept(a, b, root) && LinksMade(b, c, root, request)
    ensures LinksMade(a, c, root, request)
  {
    hide TableAt, LinkFlags, LinkEntry;
  }

  /** The new link is the only one that changes. */
  lemma LinkMade(mem: Memory, mem': Memory, root: FrameNumber, p: Path, i: Index, e: Entry, request: PageFlags)
    requires Tree(mem, root) && Link(mem, mem', root, p, i, e) && LinkFlags(e.flags, request)
    requires forall q: Path | |q| <= 3 ::
               TableAt(mem', root, q) == if q == p + [i] then Some(e.frame) else TableAt(mem, root, q)
    ensures LinksMade(mem, mem', root, request)
  {
    hide Tree, Link, LinkFlags, TableAt, LinkEntry;
    NothingAtSlot(mem, mem', root, p, i, e);
    forall q: Path | 0 < |q| <= 3 && TableAt(mem', root, q).Some?
      ensures if TableAt(mem, root, q).Some? then LinkEntry(mem', root, q) == LinkEntry(mem, root, q)
              else LinkFlags(LinkEntry(mem', root, q).flags, request)
    {
      if q == p + [i] {
        NewLink(mem, mem', root, p, i, e);
      } else {
        AboveIsThere(mem, root, q);
        OldLink(mem, mem', root, p, i, e, q);
      }
    }
  }

  lemma NothingAtSlot(mem: Memory, mem': Memory, root: FrameNumber, p: Path, i: Index, e: Entry)
    requires Link(mem, mem', root, p, i, e)
    ensures TableAt(mem, root, p + [i]).None?
  {
    assert (p + [i])[..|p|] == p;
  }

  lemma NewLink(mem: Memory, mem': Memory, root: FrameNumber, p: Path, i: Index, e: Entry)
    requires Link(mem, mem', root, p, i, e)
    requires TableAt(mem', root, p) == TableAt(mem, root, p) && TableAt(mem', root, p + [i]).Some?
    ensures LinkEntry(mem', root, p + [i]) == e
  {
    hide TableAt;
    assert (p + [i])[..|p|] == p;
  }

  lemma OldLink(mem: Memory, mem': Memory, root: FrameNumber, p: Path, i: Index, e: Entry, q: Path)
    requires Tree(mem, root) && Link(mem, mem', root, p, i, e) && 0 < |q| <= 3 && q != p + [i]
    requires TableAt(mem', root, q).Some? && TableAt(mem, root, q).Some?
    requires TableAt(mem', root, q[..|q| - 1]) == TableAt(mem, root, q[..|q| - 1])
    ensures LinkEntry(mem', root, q) == LinkEntry(mem, root, q)
  {
    AboveIsThere(mem, root, q);
    AboveIsThere(mem', root, q);
    hide TableAt, Blank, Tree, NotTable, Store;
    var n := |q| - 1;
    assert q == q[..n] + [q[n]];
    if TableAt(mem, root, q[..n]) == TableAt(mem, root, p) {
      OnePath(mem, root, p, q[..n]);
    }
    StoreElsewhere(mem, TableAt(mem, root, p).value, i, e, TableAt(mem, root, q[..n]).value, q[n]);
  }

  lemma OnePath(mem: Memory, root: FrameNumber, p: Path, q: Path)
    requires Tree(mem, root) && |p| <= 3 && |q| <= 3
    requires TableAt(mem, root, p).Some? && TableAt(mem, root, p) == TableAt(mem, root, q)
    ensures p == q
  {
  }

  lemma StoreElsewhere(mem: Memory, t: FrameNumber, i: Index, e: Entry, u: FrameNumber, j: Index)
    requires t in mem && !(t == u && i == j)
    ensures EntryAt(Store(mem, t, i, e), u, j) == EntryAt(mem, u, j)
  {
  }

  lemma AboveIsThere(mem: Memory, root: FrameNumber, q: Path)
    requires q != [] && TableAt(mem, root, q).Some?
    ensures TableAt(mem, root, q[..|q| - 1]).Some?
  {
  }

  /** Writing an unlinked frame or an L1 table changes no link. */
  lemma LinksKeptOutside(mem: Memory, mem': Memory, root: FrameNumber, f: FrameNumber)
    requires forall q: Path | |q| <= 2 :: TableAt(mem, root, q) != Some(f)
    requires forall q: Path | |q| <= 3 :: TableAt(mem', root, q) == TableAt(mem, root, q)
    requires forall g: FrameNumber, i: Index | g != f :: EntryAt(mem', g, i) == EntryAt(mem, g, i)
    ensures LinksKept(mem, mem', root)
  {
  }

  /** `b` is set in all four entries on the way to a page. */
  ghost predicate Granted(mem: Memory, root: FrameNumber, q: Path, b: FlagBit)
    requires |q| == 4
  {
    forall k: nat | k < 4 ::
      && TableAt(mem, root, q[..k]).Some?
      && var e := EntryAt(mem, TableAt(mem, root, q[..k]).value, q[k]);
         e.Present() && b in e.flags
  }

  /** `b` is set in the links that are there on the way to a page. */
  ghost predicate LinksGrant(mem: Memory, root: FrameNumber, q: Path, b: FlagBit)
    requires |q| == 4
  {
    forall k: nat | 0 < k < 4 && TableAt(mem, root, q[..k]).Some? ::
      b in LinkEntry(mem, root, q[..k]).flags
  }

  /** A page mapped through links made for `request` is writable, or open to
      user code, exactly when that was requested and the links already there
      allow it: what was created on the way never stands in the way. */
  lemma GrantedWhenLinksGrant(mem0: Memory, mem: Memory, root: FrameNumber, q: Path, e: Entry,
                              request: PageFlags, b: FlagBit)
    requires |q| == 4 && LinksMade(mem0, mem, root, request) && TablesStay(mem0, mem, root)
    requires Lookup(mem, root, q) == Page(e) && (b == WRITABLE || (b == USER && (b in e.flags ==> b in request)))
    ensures Granted(mem, root, q, b) <==> b in e.flags && LinksGrant(mem0, root, q, b)
  {
    hide Lookup, LinkFlags, LinkEntry, TableAt, EntryAt, LinksMade;
    PageByLinks(mem, root, q, e);
    if b in e.flags {
      LinkGranted(mem0, mem, root, q, request, b, 1);
      LinkGranted(mem0, mem, root, q, request, b, 2);
      LinkGranted(mem0, mem, root, q, request, b, 3);
    }
  }

  /** One level of it. */
  lemma LinkGranted(mem0: Memory, mem: Memory, root: FrameNumber, q: Path, request: PageFlags, b: FlagBit, k: nat)
    requires |q| == 4 && 0 < k < 4 && LinksMade(mem0, mem, root, request)
    requires TableAt(mem, root, q[..k]).Some? && TableAt(mem, root, q[..k - 1]).Some?
    requires b == WRITABLE || (b == USER && b in request)
    ensures b in EntryAt(mem, TableAt(mem, root, q[..k - 1]).value, q[k - 1]).flags
            <==> (TableAt(mem0, root, q[..k]).Some? ==> b in LinkEntry(mem0, root, q[..k]).flags)
  {
    hide LinkEntry, TableAt, EntryAt;
    LinkIsEntry(mem, root, q, k);
    assert |q[..k]| == k;
  }

  lemma LinkIsEntry(mem: Memory, root: FrameNumber, q: Path, k: nat)
    requires |q| == 4 && 0 < k < 4 && TableAt(mem, root, q[..k]).Some? && TableAt(mem, root, q[..k - 1]).Some?
    ensures LinkEntry(mem, root, q[..k]) == EntryAt(mem, TableAt(mem, root, q[..k - 1]).value, q[k - 1])
  {
    hide TableAt;
    assert q[..k][..k - 1] == q[..k - 1];
  }

  lemma PageByLinks(mem: Memory, root: FrameNumber, q: Path, e: Entry)
    requires |q| == 4 && Lookup(mem, root, q) == Page(e)
    ensures forall k: nat | k < 4 ::
              && TableAt(mem, root, q[..k]).Some?
              && EntryAt(mem, TableAt(mem, root, q[..k]).value, q[k]).Present()
    ensures EntryAt(mem, TableAt(mem, root, q[..3]).value, q[3]) == e
  {
    FirstLoad(mem, root, q);
    LookupByTables(mem, root, q);
    TablesAbove(mem, root, q, 3);
    NextLevel(mem, root, q, 1);
    NextLevel(mem, root, q, 2);
  }

  lemma PrefixStep(q: Path, k: nat)
    requires k < |q|
    ensures q[..k] + [q[k]] == q[..k + 1]
  {
  }

  lemma TraceExtends(history: seq<Memory>, mem: Memory, root: FrameNumber)
    requires StoreTrace(history, root) && StoreStep(history[|history| - 1], mem, root)
    ensures StoreTrace(history + [mem], root)
  {
  }

  // ---------------------------------------------------------------------
  // The address space
  // ---------------------------------------------------------------------

  class AddressSpace {
    const root: FrameNumber
    const frames: FrameAllocator.BitmapFrameAllocator
    var physOffset: U64
    var mem: Memory
    /** Every state the memory has been in, one store apart. */
    ghost var history: seq<Memory>

    ghost predicate Valid()
      reads this, frames, frames.bitmap
    {
      frames.Valid() && Sound(mem, root, frames.free, history)
    }

    /** Adopt the tables the bootloader left behind. */
    constructor (root: FrameNumber, mem: Memory, frames: FrameAllocator.BitmapFrameAllocator)
      requires frames.Valid() && Tree(mem, root) && FramesApart(mem, root, frames.free)
      ensures Valid() && this.root == root && this.mem == mem && this.frames == frames
      ensures physOffset == UNSET
    {
      this.root, this.mem, this.frames := root, mem, frames;
      physOffset := UNSET;
      history := [mem];
    }

    /** Record the physical-memory offset; the sentinel value is refused. */
    method Init(offset: U64) returns (ok: bool)
      requires Valid()
      modifies this`physOffset
      ensures Valid() && ok == (offset != UNSET)
      ensures physOffset == if ok then offset else old(physOffset)
    {
      if offset == UNSET {
        return false;
      }
      physOffset := offset;
      return true;
    }

    /** Walk to the next table or allocate, zero and link one. */
    method NextTableOrCreate(table: FrameNumber, i: Index, flags: PageFlags, ghost q: Path, ghost k: nat)
      returns (r: Result<FrameNumber, MapError>)
      requires Valid() && |q| == 4 && k < 3 && TableAt(mem, root, q[..k]) == Some(table) && i == q[k]
      modifies this`mem, this`history, frames, frames.bitmap
      ensures Valid() && old(history) <= history
      ensures LevelStep(old(mem), old(frames.free), mem, frames.free, root, q, k, r)
      ensures LinksMade(old(mem), mem, root, flags)
    {
      LinksUnchanged(mem, root, flags);
      var entry := EntryAt(mem, table, i);
      if entry.Present() {
        if entry.Huge() {
          return Err(HugePageConflict);
        }
        return Ok(entry.frame);
      }
      r := CreateNextTable(table, i, flags, q, k);
    }

    method CreateNextTable(table: FrameNumber, i: Index, flags: PageFlags, ghost q: Path, ghost k: nat)
      returns (r: Result<FrameNumber, MapError>)
      requires Valid() && |q| == 4 && k < 3 && TableAt(mem, root, q[..k]) == Some(table) && i == q[k]
      requires !EntryAt(mem, table, i).Present()
      modifies this`mem, this`history, frames, frames.bitmap
      ensures Valid() && old(history) <= history
      ensures if old(frames.free) == {} then
                r == Err(OutOfFrames) && mem == old(mem) && frames.free == old(frames.free)
              else
                r.Ok? && Created(old(mem), old(frames.free), mem, frames.free, root, q, k, r.value)
      ensures LinksMade(old(mem), mem, root, flags)
    {
      hide TableAt, Tree, StoreTrace, SameLookups, NotTable, FramesApart, LinksMade;
      PrefixStep(q, k);
      LinksUnchanged(mem, root, flags);
      ghost var free := frames.free;
      var got := frames.AllocateFrame();
      if got.None? {
        return Err(OutOfFrames);
      }
      TakeFrame(mem, root, free, history, got.value);
      var f: FrameNumber := got.value;
      LinkNewTable(table, i, f, IntermediateFlags(flags), q[..k], flags);
      return Ok(f);
    }

    /** Zero the frame, then make it reachable. */
    method LinkNewTable(table: FrameNumber, i: Index, f: FrameNumber, flags: PageFlags,
                        ghost p: Path, ghost request: PageFlags)
      requires Valid() && |p| <= 2 && TableAt(mem, root, p) == Some(table)
      requires !EntryAt(mem, table, i).Present()
      requires LinkFlags(flags, request)
      requires f in mem && f !in frames.free && NotTable(mem, root, f)
      modifies this`mem, this`history
      ensures Valid() && old(history) <= history
      ensures SameLookups(old(mem), mem, root)
      ensures mem.Keys == old(mem.Keys) && Blank(mem[f])
      ensures LinksMade(old(mem), mem, root, request)
      ensures if p == [] then EntryAt(mem, root, i) == Entry(f, flags)
              else forall j: Index :: EntryAt(mem, root, j) == EntryAt(old(mem), root, j)
      ensures forall q: Path | |q| <= 3 ::
                TableAt(mem, root, q) == if q == p + [i] then Some(f) else TableAt(old(mem), root, q)
    {
      var e := Entry(f, flags);
      CreateTable(mem, root, frames.free, history, p, i, e, request);
      mem := mem[f := BlankTable()];
      history := history + [mem];
      mem := Store(mem, table, i, e);
      history := history + [mem];
    }

    /** One level of `map`'s descent, with its account of what has been
        created since `mem0`. */
    method Descend(table: FrameNumber, flags: PageFlags, q: Path, k: nat,
                   ghost mem0: Memory, ghost free0: set<nat>)
      returns (r: Result<FrameNumber, MapError>)
      requires Valid() && |q| == 4 && k < 3
      requires Progress(mem0, free0, mem, frames.free, root, q, k)
      requires TableAt(mem, root, q[..k]) == Some(table) && LinksMade(mem0, mem, root, flags)
      modifies this`mem, this`history, frames, frames.bitmap
      ensures Valid() && old(history) <= history && LinksMade(mem0, mem, root, flags)
      ensures r.Ok? ==> && Progress(mem0, free0, mem, frames.free, root, q, k + 1)
                        && TableAt(mem, root, q[..k + 1]) == Some(r.value)
      ensures r.Err? ==> && DescentFailed(mem0, free0, mem, frames.free, root, q)
                         && MapOutcome(mem0, root, q, |free0|) == Err(r.error)
    {
      hide *;
      ProgressKeepsTables(mem0, free0, mem, frames.free, root, q, k);
      r := NextTableOrCreate(table, q[k], flags, q, k);
      LinksMadeOn(mem0, old(mem), mem, root, flags);
      ProgressStep(mem0, free0, old(mem), old(frames.free), mem, frames.free, root, q, k, r);
    }

    /** Install a 4 KiB mapping. The outcome is fixed by the tables and the
        number of free frames; only success changes a translation, and only the
        one page's, even when intermediate tables were created on the way to a
        failure. */
    method Map(virt: U64, phys: U64, flags: PageFlags) returns (r: Result<Unit, MapError>)
      requires Valid() && PageAligned(virt) && PageAligned(phys)
      modifies this`mem, this`history, frames, frames.bitmap
      ensures Valid() && old(history) <= history && mem.Keys == old(mem.Keys)
      ensures r == if physOffset == UNSET then Err(NotInitialized)
                   else MapOutcome(old(mem), root, PathOf(virt), |old(frames.free)|)
      ensures r.Err? ==> forall v: U64 :: Translate(mem, root, v) == Translate(old(mem), root, v)
      ensures r.Ok? ==> forall v: U64 ::
                Translate(mem, root, v)
                == if PathOf(v) == PathOf(virt) then Some(phys % PHYS_LIMIT + v % PAGE_SIZE)
                   else Translate(old(mem), root, v)
      ensures r.Err? ==> SameLookups(old(mem), mem, root)
      ensures r.Ok? ==> && SameExcept(old(mem), mem, root, PathOf(virt)) && !Conflict(mem, root, PathOf(virt))
                        && Lookup(mem, root, PathOf(virt)) == Page(MakeEntry(phys, flags + {PRESENT}))
      ensures MapAccount(old(mem), old(frames.free), mem, frames.free, root, PathOf(virt), r)
      ensures LinksMade(old(mem), mem, root, flags)
      ensures r.Ok? ==> forall b: FlagBit | b == WRITABLE || b == USER ::
                Granted(mem, root, PathOf(virt), b) <==> b in flags && LinksGrant(old(mem), root, PathOf(virt), b)
    {
      hide *;
      ghost var request := flags;
      var flags := flags + {PRESENT};
      var q := PathOf(virt);
      LinksUnchanged(mem, root, request);
      ghost var mem0, free0 := mem, frames.free;
      if physOffset == UNSET {
        NothingDone(mem, frames.free, root, q, NotInitialized);
        return Err(NotInitialized);
      }
      var l1 := WalkToL1(q, flags);
      LinksForRequest(mem0, mem, root, request);
      if l1.Err? {
        DescentFailedMap(mem0, free0, mem, frames.free, root, q, l1.error);
        return Err(l1.error);
      }
      ProgressEnd(mem0, free0, mem, frames.free, root, q);
      var entry := EntryAt(mem, l1.value, q[3]);
      if entry.Present() {
        AlreadyMappedMap(mem0, free0, mem, frames.free, root, q);
        return Err(AlreadyMapped);
      }
      ghost var mem1 := mem;
      var e := MakeEntry(phys, flags);
      StoreLeaf(l1.value, q, e);
      LeafAfterProgress(mem0, free0, mem1, frames.free, mem, root, q);
      NoConflictLeft(mem, root, q);
      EntryIsPresent(phys, flags);
      MappedTranslate(mem0, mem, root, virt, phys, flags);
      LinksMadeKept(mem0, mem1, mem, root, request);
      MappedGrants(mem0, free0, mem, frames.free, root, q, phys, request);
      return Ok(Unit);
    }

    /** The three levels above the leaf. */
    method WalkToL1(q: Path, flags: PageFlags) returns (r: Result<FrameNumber, MapError>)
      requires Valid() && |q| == 4
      modifies this`mem, this`history, frames, frames.bitmap
      ensures Valid() && old(history) <= history && LinksMade(old(mem), mem, root, flags)
      ensures r.Ok? ==> && Progress(old(mem), old(frames.free), mem, frames.free, root, q, 3)
                        && TableAt(mem, root, q[..3]) == Some(r.value)
      ensures r.Err? ==> && DescentFailed(old(mem), old(frames.free), mem, frames.free, root, q)
                         && MapOutcome(old(mem), root, q, |old(frames.free)|) == Err(r.error)
    {
      hide *;
      var l2 := WalkToL2(q, flags);
      if l2.Err? { return l2; }
      r := Descend(l2.value, flags, q, 2, old(mem), old(frames.free));
    }

    method WalkToL2(q: Path, flags: PageFlags) returns (r: Result<FrameNumber, MapError>)
      requires Valid() && |q| == 4
      modifies this`mem, this`history, frames, frames.bitmap
      ensures Valid() && old(history) <= history && LinksMade(old(mem), mem, root, flags)
      ensures r.Ok? ==> && Progress(old(mem), old(frames.free), mem, frames.free, root, q, 2)
                        && TableAt(mem, root, q[..2]) == Some(r.value)
      ensures r.Err? ==> && DescentFailed(old(mem), old(frames.free), mem, frames.free, root, q)
                         && MapOutcome(old(mem), root, q, |old(frames.free)|) == Err(r.error)
    {
      hide *;
      ProgressStart(mem, frames.free, root, q);
      LinksUnchanged(mem, root, flags);
      var l3 := Descend(root, flags, q, 0, old(mem), old(frames.free));
      if l3.Err? { return l3; }
      r := Descend(l3.value, flags, q, 1, old(mem), old(frames.free));
    }

    /** The one store into an L1 table that `map` and `unmap` end with. */
    method StoreLeaf(table: FrameNumber, q: Path, e: Entry)
      requires Valid() && |q| == 4 && TableAt(mem, root, q[..3]) == Some(table)
      modifies this`mem, this`history
      ensures Valid() && old(history) <= history && mem.Keys == old(mem.Keys)
      ensures forall p: Path | |p| <= 3 :: TableAt(mem, root, p) == TableAt(old(mem), root, p)
      ensures forall j: Index :: EntryAt(mem, root, j) == EntryAt(old(mem), root, j)
      ensures SameExcept(old(mem), mem, root, q) && LinksKept(old(mem), mem, root)
      ensures Lookup(mem, root, q) == if e.Present() then Page(e) else Unmapped
    {
      WriteLeaf(mem, root, frames.free, history, q, e);
      mem := Store(mem, table, q[3], e);
      history := history + [mem];
    }

    /** Step down an existing table, for `unmap`. */
    method NextTable(table: FrameNumber, i: Index) returns (r: Result<FrameNumber, MapError>)
      ensures var e := EntryAt(mem, table, i);
              r == if !e.Present() then Err(NotMapped)
                   else if e.Huge() then Err(HugePageConflict)
                   else Ok(e.frame)
    {
      var entry := EntryAt(mem, table, i);
      if !entry.Present() {
        return Err(NotMapped);
      }
      if entry.Huge() {
        return Err(HugePageConflict);
      }
      return Ok(entry.frame);
    }

    /** Remove a 4 KiB mapping: returns what `translate` gave for the page, and
        erases that page only. No table is ever taken away. */
    method Unmap(virt: U64) returns (r: Result<nat, MapError>)
      requires Valid() && PageAligned(virt)
      modifies this`mem, this`history
      ensures Valid() && old(history) <= history && mem.Keys == old(mem.Keys)
      ensures r == if physOffset == UNSET then Err(NotInitialized)
                   else UnmapOutcome(old(mem), root, PathOf(virt))
      ensures r.Err? ==> mem == old(mem)
      ensures r.Ok? ==> Translate(old(mem), root, virt) == Some(r.value)
      ensures r.Ok? ==> forall v: U64 ::
                Translate(mem, root, v)
                == if PathOf(v) == PathOf(virt) then None else Translate(old(mem), root, v)
      ensures forall p: Path | |p| <= 3 :: TableAt(mem, root, p) == TableAt(old(mem), root, p)
      ensures LinksKept(old(mem), mem, root)
    {
      hide LinkEntry, TableAt, Lookup, UnmapOutcome, Walk, Translate, PathOf, Sound, SameExcept, FrameAllocator.BitmapFrameAllocator.Valid;
      var q := PathOf(virt);
      if physOffset == UNSET {
        return Err(NotInitialized);
      }
      UnmapWalk(mem, root, q);
      var l3 := NextTable(root, q[0]);
      if l3.Err? { return Err(l3.error); }
      var l2 := NextTable(l3.value, q[1]);
      if l2.Err? { return Err(l2.error); }
      var l1 := NextTable(l2.value, q[2]);
      if l1.Err? { return Err(l1.error); }
      var entry := EntryAt(mem, l1.value, q[3]);
      if !entry.Present() {
        return Err(NotMapped);
      }
      var pa := entry.FrameAddr();
      StoreLeaf(l1.value, q, EMPTY_ENTRY);
      UnmappedTranslate(old(mem), mem, root, virt, entry);
      return Ok(pa);
    }

    /** Mapping a page and unmapping it again hands back the mapped address and
        leaves every translation as it was. */
    method MapThenUnmap(virt: U64, phys: U64, flags: PageFlags)
      returns (m: Result<Unit, MapError>, u: Result<nat, MapError>)
      requires Valid() && PageAligned(virt) && PageAligned(phys)
      modifies this`mem, this`history, frames, frames.bitmap
      ensures Valid()
      ensures m.Ok? ==> u == Ok(phys % PHYS_LIMIT)
      ensures m.Ok? ==> forall v: U64 :: Translate(mem, root, v) == Translate(old(mem), root, v)
    {
      hide *;
      m := Map(virt, phys, flags);
      if m.Err? {
        return m, Err(NotMapped);
      }
      UndoesMap(old(mem), old(frames.free), mem, root, virt, phys, flags + {PRESENT});
      u := Unmap(virt);
    }

    /** The reader, while nothing else is writing: entry by entry down to the
        flat view's mapping of the page. */
    method TranslateAddress(virt: U64) returns (r: Option<nat>)
      ensures r == if physOffset == UNSET then None else Resolve(Lookup(mem, root, PathOf(virt)), virt)
    {
      hide TableAt, BitOr, PathOf;
      var p := PathOf(virt);
      if physOffset == UNSET {
        return None;
      }
      FirstLoad(mem, root, p);
      var e4 := EntryAt(mem, root, p[0]);
      if !e4.Present() {
        return None;
      }
      var e3 := EntryAt(mem, e4.frame, p[1]);
      if !e3.Present() {
        return None;
      }
      if e3.Huge() {
        return Some(BitOr(e3.FrameAddr(), virt % 0x4000_0000));
      }
      var e2 := EntryAt(mem, e3.frame, p[2]);
      if !e2.Present() {
        return None;
      }
      if e2.Huge() {
        return Some(BitOr(e2.FrameAddr(), virt % 0x20_0000));
      }
      var e1 := EntryAt(mem, e2.frame, p[3]);
      if !e1.Present() {
        return None;
      }
      return Some(BitOr(e1.FrameAddr(), virt % PAGE_SIZE));
    }
  }

  /** Zero an unlinked frame, then link it: two stores, one more table. */
  lemma CreateTable(mem: Memory, root: FrameNumber, free: set<nat>, history: seq<Memory>,
                    p: Path, i: Index, e: Entry, request: PageFlags)
    requires Sound(mem, root, free, history) && |p| <= 2 && TableAt(mem, root, p).Some?
    requires !EntryAt(mem, TableAt(mem, root, p).value, i).Present()
    requires LinkFlags(e.flags, request) && e.frame in mem && e.frame !in free && NotTable(mem, root, e.frame)
    ensures var table := TableAt(mem, root, p).value;
            var zeroed := mem[e.frame := BlankTable()];
            && table in zeroed
            && var linked := Store(zeroed, table, i, e);
               && Sound(linked, root, free, history + [zeroed] + [linked])
               && SameLookups(mem, linked, root)
               && linked.Keys == mem.Keys && Blank(linked[e.frame])
               && LinksMade(mem, linked, root, request)
               && (if p == [] then EntryAt(linked, root, i) == e
                   else forall j: Index :: EntryAt(linked, root, j) == EntryAt(mem, root, j))
               && forall q: Path | |q| <= 3 ::
                    TableAt(linked, root, q) == if q == p + [i] then Some(e.frame) else TableAt(mem, root, q)
  {
    hide Lookup, TableAt, Blank, StoreTrace, StoreStep, LinksMade, LinksKept;
    var table := TableAt(mem, root, p).value;
    var zeroed := mem[e.frame := BlankTable()];
    ZeroFrame(mem, root, e.frame);
    assert table in zeroed && table != e.frame;
    var linked := Store(zeroed, table, i, e);
    LinkFrame(zeroed, linked, root, p, i, e);
    LinkMade(zeroed, linked, root, p, i, e, request);
    LinksKeptMade(mem, zeroed, linked, root, request);
    SameLookupsChain(mem, zeroed, linked, root);
    RootTable(mem, root);
    TraceExtends(history, zeroed, root);
    TraceExtends(history + [zeroed], linked, root);
  }

  lemma ZeroFrame(mem: Memory, root: FrameNumber, f: FrameNumber)
    requires Tree(mem, root) && f in mem && NotTable(mem, root, f)
    ensures var zeroed := mem[f := BlankTable()];
            && Tree(zeroed, root) && SameLookups(mem, zeroed, root) && StoreStep(mem, zeroed, root)
            && NotTable(zeroed, root, f) && LinksKept(mem, zeroed, root)
            && forall q: Path | |q| <= 3 :: TableAt(zeroed, root, q) == TableAt(mem, root, q)
  {
    hide TableAt, Lookup;
    var zeroed := mem[f := BlankTable()];
    assert Scribble(mem, zeroed, root, f, BlankTable());
    ScribbleStep(mem, zeroed, root, f, BlankTable());
    LinksKeptOutside(mem, zeroed, root, f);
  }

  lemma LinkFrame(mem: Memory, mem': Memory, root: FrameNumber, p: Path, i: Index, e: Entry)
    requires Tree(mem, root) && Link(mem, mem', root, p, i, e)
    ensures Tree(mem', root) && SameLookups(mem, mem', root) && StoreStep(mem, mem', root)
    ensures forall q: Path | |q| <= 3 ::
              TableAt(mem', root, q) == if q == p + [i] then Some(e.frame) else TableAt(mem, root, q)
  {
    hide TableAt, Lookup, Tree, Blank;
    LinkStep(mem, mem', root, p, i, e);
  }

  // ---------------------------------------------------------------------
  // Bookkeeping of a descent
  // ---------------------------------------------------------------------

  /** New tables come from the frames that were free. */
  ghost predicate TablesFrom(mem0: Memory, free0: set<nat>, mem: Memory, root: FrameNumber) {
    forall p: Path | |p| <= 3 && TableAt(mem, root, p).Some? ::
      TableAt(mem0, root, p) == TableAt(mem, root, p) || TableAt(mem, root, p).value in free0
  }

  function MissingUpTo(mem: Memory, root: FrameNumber, q: Path, k: nat): nat
    requires |q| == 4 && k <= 3
  {
    if k == 0 then 0
    else MissingUpTo(mem, root, q, k - 1) + if TableAt(mem, root, q[..k]).None? then 1 else 0
  }

  /** The state after `k` levels: exactly the tables along the first `k` indices
      have been added, nothing has been mapped, and each new table cost a frame. */
  ghost predicate Progress(mem0: Memory, free0: set<nat>, mem: Memory, free: set<nat>,
                           root: FrameNumber, q: Path, k: nat)
    requires |q| == 4 && k <= 3
  {
    && SameLookups(mem0, mem, root)
    && TablesStay(mem0, mem, root) && TablesFrom(mem0, free0, mem, root)
    && mem.Keys == mem0.Keys
    && (forall p: Path | |p| <= 3 ::
          TableAt(mem, root, p).Some? <==> TableAt(mem0, root, p).Some? || p <= q[..k])
    && (forall j: nat | j < k && TableAt(mem0, root, q[..j]).Some? ::
          !HugeEntry(EntryAt(mem0, TableAt(mem0, root, q[..j]).value, q[j])))
    && (k > 0 ==> !HugeEntry(EntryAt(mem, root, q[0])))
    && free <= free0 && |free| == |free0| - MissingUpTo(mem0, root, q, k)
    && (if TableAt(mem0, root, q[..k]).Some? then
          mem == mem0 && free == free0
        else
          && TableAt(mem, root, q[..k]).value in mem
          && Blank(mem[TableAt(mem, root, q[..k]).value]))
  }

  /** A descent that had to give up maps nothing: either it met a huge entry
      before creating anything, or it used up the frames. */
  ghost predicate DescentFailed(mem0: Memory, free0: set<nat>, mem: Memory, free: set<nat>,
                                root: FrameNumber, q: Path)
    requires |q| == 4
  {
    && SameLookups(mem0, mem, root)
    && TablesStay(mem0, mem, root) && TablesFrom(mem0, free0, mem, root)
    && mem.Keys == mem0.Keys
    && free <= free0
    && (if Conflict(mem0, root, q) then free == free0 else Missing(mem0, root, q) > |free0| && free == {})
  }

  predicate HugeEntry(e: Entry) { e.Present() && e.Huge() }

  /** What `NextTableOrCreate` does at level `k` of the path. */
  ghost predicate LevelStep(mem: Memory, free: set<nat>, mem': Memory, free': set<nat>,
                            root: FrameNumber, q: Path, k: nat, r: Result<FrameNumber, MapError>)
    requires |q| == 4 && k < 3 && TableAt(mem, root, q[..k]).Some?
  {
    var e := EntryAt(mem, TableAt(mem, root, q[..k]).value, q[k]);
    if e.Present() then
      && mem' == mem && free' == free
      && r == if e.Huge() then Err(HugePageConflict) else Ok(e.frame)
    else if free == {} then
      && mem' == mem && free' == free && r == Err(OutOfFrames)
    else
      && r.Ok? && Created(mem, free, mem', free', root, q, k, r.value)
  }

  ghost predicate Created(mem: Memory, free: set<nat>, mem': Memory, free': set<nat>,
                          root: FrameNumber, q: Path, k: nat, f: FrameNumber)
    requires |q| == 4 && k < 3
  {
    && f in free && free' == free - {f}
    && SameLookups(mem, mem', root)
    && mem'.Keys == mem.Keys && f in mem' && Blank(mem'[f])
    && (if k == 0 then !EntryAt(mem', root, q[0]).Huge()
        else EntryAt(mem', root, q[0]) == EntryAt(mem, root, q[0]))
    && forall p: Path | |p| <= 3 ::
         TableAt(mem', root, p) == if p == q[..k + 1] then Some(f) else TableAt(mem, root, p)
  }

  lemma NothingMissingYet(mem: Memory, root: FrameNumber, q: Path, k: nat)
    requires |q| == 4 && k <= 3 && TableAt(mem, root, q[..k]).Some?
    ensures forall j: nat | j <= k :: TableAt(mem, root, q[..j]).Some?
    ensures MissingUpTo(mem, root, q, k) == 0
  {
    TablesAbove(mem, root, q, k);
    if k > 0 { NothingMissingYet(mem, root, q, k - 1); }
  }

  /** Following an entry that is already there. */
  lemma ProgressFollow(mem0: Memory, free0: set<nat>, mem: Memory, free: set<nat>,
                       root: FrameNumber, q: Path, k: nat)
    requires |q| == 4 && k < 3 && Progress(mem0, free0, mem, free, root, q, k)
    requires var e := EntryAt(mem, TableAt(mem, root, q[..k]).value, q[k]); e.Present() && !e.Huge()
    ensures Progress(mem0, free0, mem, free, root, q, k + 1)
  {
    NextLevel(mem, root, q, k);
    if TableAt(mem0, root, q[..k]).None? {
      assert false;
    }
    NothingMissingYet(mem0, root, q, k + 1);
    forall p: Path | |p| <= 3
      ensures TableAt(mem, root, p).Some? <==> TableAt(mem0, root, p).Some? || p <= q[..k + 1]
    {
      if p <= q[..k + 1] {
        assert p == q[..|p|];
      }
    }
  }

  /** Adding the missing table. */
  lemma ProgressCreate(mem0: Memory, free0: set<nat>, mem: Memory, free: set<nat>, mem': Memory, free': set<nat>,
                       root: FrameNumber, q: Path, k: nat, f: FrameNumber)
    requires |q| == 4 && k < 3 && Progress(mem0, free0, mem, free, root, q, k)
    requires !EntryAt(mem, TableAt(mem, root, q[..k]).value, q[k]).Present()
    requires Created(mem, free, mem', free', root, q, k, f)
    ensures Progress(mem0, free0, mem', free', root, q, k + 1)
  {
    hide Lookup, TableAt, SameLookups, Blank;
    NextLevel(mem, root, q, k);
    SameLookupsChain(mem0, mem, mem', root);
    assert TableAt(mem, root, q[..k + 1]).None?;
    assert TableAt(mem0, root, q[..k + 1]).None?;
    forall p: Path | |p| <= 3
      ensures TableAt(mem', root, p).Some? <==> TableAt(mem0, root, p).Some? || p <= q[..k + 1]
    {
      if p <= q[..k + 1] && p != q[..k + 1] {
        assert p <= q[..k];
      }
      if p <= q[..k] {
        assert p <= q[..k + 1];
      }
    }
  }

  lemma SameLookupsChain(a: Memory, b: Memory, c: Memory, root: FrameNumber)
    requires SameLookups(a, b, root) && SameLookups(b, c, root)
    ensures SameLookups(a, c, root)
  {
    hide Lookup;
  }

  lemma MissingUpToThree(mem: Memory, root: FrameNumber, q: Path)
    requires |q| == 4
    ensures MissingUpTo(mem, root, q, 3) == Missing(mem, root, q)
  {
    assert MissingUpTo(mem, root, q, 1) == if TableAt(mem, root, q[..1]).None? then 1 else 0;
    assert MissingUpTo(mem, root, q, 2)
        == MissingUpTo(mem, root, q, 1) + if TableAt(mem, root, q[..2]).None? then 1 else 0;
  }

  lemma MissingUpToGrows(mem: Memory, root: FrameNumber, q: Path, j: nat, k: nat)
    requires |q| == 4 && j <= k <= 3
    ensures MissingUpTo(mem, root, q, j) <= MissingUpTo(mem, root, q, k)
    decreases k
  {
    if j < k { MissingUpToGrows(mem, root, q, j, k - 1); }
  }

  /** The descent stops at level `k`. */
  lemma ProgressStuck(mem0: Memory, free0: set<nat>, mem: Memory, free: set<nat>, root: FrameNumber, q: Path, k: nat)
    requires |q| == 4 && k < 3 && Progress(mem0, free0, mem, free, root, q, k)
    requires var e := EntryAt(mem, TableAt(mem, root, q[..k]).value, q[k]);
             HugeEntry(e) || (!e.Present() && free == {})
    ensures var e := EntryAt(mem, TableAt(mem, root, q[..k]).value, q[k]);
            Conflict(mem0, root, q) == HugeEntry(e)
    ensures Conflict(mem0, root, q) ==> free == free0
    ensures !Conflict(mem0, root, q) ==> Missing(mem0, root, q) > |free0|
  {
    var e := EntryAt(mem, TableAt(mem, root, q[..k]).value, q[k]);
    if HugeEntry(e) {
      if TableAt(mem0, root, q[..k]).None? {
        assert false;
      }
    } else {
      NextLevel(mem, root, q, k);
      forall j | 0 <= j < 3 && TableAt(mem0, root, q[..j]).Some?
        ensures !HugeEntry(EntryAt(mem0, TableAt(mem0, root, q[..j]).value, q[j]))
      {
        if j > k {
          NoneBelow(mem0, root, q[..k + 1], q[..j]);
        } else if j == k {
          assert mem == mem0;
        }
      }
      MissingUpToGrows(mem0, root, q, k + 1, 3);
      MissingUpToThree(mem0, root, q);
    }
  }

  lemma ProgressStep(mem0: Memory, free0: set<nat>, mem: Memory, free: set<nat>, mem': Memory, free': set<nat>,
                     root: FrameNumber, q: Path, k: nat, r: Result<FrameNumber, MapError>)
    requires |q| == 4 && k < 3 && Progress(mem0, free0, mem, free, root, q, k)
    requires LevelStep(mem, free, mem', free', root, q, k, r)
    ensures r.Ok? ==> && Progress(mem0, free0, mem', free', root, q, k + 1)
                      && TableAt(mem', root, q[..k + 1]) == Some(r.value)
    ensures r.Err? ==> && DescentFailed(mem0, free0, mem', free', root, q)
                       && MapOutcome(mem0, root, q, |free0|) == Err(r.error)
  {
    hide Lookup;
    var e := EntryAt(mem, TableAt(mem, root, q[..k]).value, q[k]);
    NextLevel(mem, root, q, k);
    if r.Err? {
      ProgressStuck(mem0, free0, mem, free, root, q, k);
    } else if e.Present() {
      ProgressFollow(mem0, free0, mem, free, root, q, k);
    } else {
      ProgressCreate(mem0, free0, mem, free, mem', free', root, q, k, r.value);
    }
  }

  lemma ProgressKeepsTables(mem0: Memory, free0: set<nat>, mem: Memory, free: set<nat>, root: FrameNumber, q: Path, k: nat)
    requires |q| == 4 && k <= 3 && Progress(mem0, free0, mem, free, root, q, k)
    ensures TablesStay(mem0, mem, root)
  {
  }

  lemma ProgressStart(mem: Memory, free: set<nat>, root: FrameNumber, q: Path)
    requires |q| == 4
    ensures Progress(mem, free, mem, free, root, q, 0) && TableAt(mem, root, q[..0]) == Some(root)
  {
  }

  /** What `map` does to tables and frames. */
  ghost predicate MapAccount(mem0: Memory, free0: set<nat>, mem: Memory, free: set<nat>,
                             root: FrameNumber, q: Path, r: Result<Unit, MapError>)
    requires |q| == 4
  {
    && TablesStay(mem0, mem, root) && TablesFrom(mem0, free0, mem, root)
    && free <= free0
    && (match r
        case Ok(_) =>
          && |free| == |free0| - Missing(mem0, root, q)
          && forall p: Path | |p| <= 3 ::
               TableAt(mem, root, p).Some? <==> TableAt(mem0, root, p).Some? || p <= q[..3]
        case Err(OutOfFrames) => free == {}
        case Err(_) => free == free0)
  }

  /** All three levels are there: the outcome hangs on the leaf entry. */
  lemma ProgressEnd(mem0: Memory, free0: set<nat>, mem: Memory, free: set<nat>, root: FrameNumber, q: Path)
    requires |q| == 4 && Progress(mem0, free0, mem, free, root, q, 3)
    ensures |free| == |free0| - Missing(mem0, root, q)
    ensures TableAt(mem, root, q[..3]).Some? && !HugeEntry(EntryAt(mem, root, q[0]))
    ensures MapOutcome(mem0, root, q, |free0|)
         == if EntryAt(mem, TableAt(mem, root, q[..3]).value, q[3]).Present() then Err(AlreadyMapped) else Ok(Unit)
    ensures EntryAt(mem, TableAt(mem, root, q[..3]).value, q[3]).Present() ==> free == free0
  {
    MissingUpToThree(mem0, root, q);
    TablesAbove(mem, root, q, 3);
    LookupByTables(mem, root, q);
    if TableAt(mem0, root, q[..3]).Some? {
      NothingMissingYet(mem0, root, q, 3);
    }
  }

  /** A failed `map` that did not take a frame. */
  lemma NothingDone(mem: Memory, free: set<nat>, root: FrameNumber, q: Path, e: MapError)
    requires |q| == 4 && e != OutOfFrames
    ensures SameLookups(mem, mem, root)
    ensures MapAccount(mem, free, mem, free, root, q, Err(e))
  {
  }

  lemma DescentFailedMap(mem0: Memory, free0: set<nat>, mem: Memory, free: set<nat>,
                         root: FrameNumber, q: Path, e: MapError)
    requires |q| == 4 && DescentFailed(mem0, free0, mem, free, root, q)
    requires MapOutcome(mem0, root, q, |free0|) == Err(e)
    ensures SameLookups(mem0, mem, root) && mem.Keys == mem0.Keys
    ensures MapAccount(mem0, free0, mem, free, root, q, Err(e))
    ensures forall v: U64 :: Translate(mem, root, v) == Translate(mem0, root, v)
  {
    SameLookupsTranslate(mem0, mem, root);
  }

  lemma AlreadyMappedMap(mem0: Memory, free0: set<nat>, mem: Memory, free: set<nat>, root: FrameNumber, q: Path)
    requires |q| == 4 && Progress(mem0, free0, mem, free, root, q, 3) && free == free0
    ensures SameLookups(mem0, mem, root) && mem.Keys == mem0.Keys
    ensures MapAccount(mem0, free0, mem, free, root, q, Err(AlreadyMapped))
    ensures forall v: U64 :: Translate(mem, root, v) == Translate(mem0, root, v)
  {
    SameLookupsTranslate(mem0, mem, root);
  }

  lemma EntryIsPresent(phys: nat, flags: PageFlags)
    requires PRESENT in flags
    ensures MakeEntry(phys, flags).Present()
  {
  }

  lemma LinksForRequest(mem0: Memory, mem: Memory, root: FrameNumber, request: PageFlags)
    requires LinksMade(mem0, mem, root, request + {PRESENT})
    ensures LinksMade(mem0, mem, root, request)
  {
    hide TableAt, LinkEntry;
  }

  lemma MappedGrants(mem0: Memory, free0: set<nat>, mem: Memory, free: set<nat>, root: FrameNumber, q: Path,
                     phys: U64, request: PageFlags)
    requires |q| == 4 && LinksMade(mem0, mem, root, request)
    requires MapAccount(mem0, free0, mem, free, root, q, Ok(Unit))
    requires Lookup(mem, root, q) == Page(MakeEntry(phys, request + {PRESENT}))
    ensures forall b: FlagBit | b == WRITABLE || b == USER ::
              Granted(mem, root, q, b) <==> b in request && LinksGrant(mem0, root, q, b)
  {
    hide Lookup, Granted, LinksGrant, LinksMade;
    var e := MakeEntry(phys, request + {PRESENT});
    GrantedWhenLinksGrant(mem0, mem, root, q, e, request, WRITABLE);
    GrantedWhenLinksGrant(mem0, mem, root, q, e, request, USER);
  }

  lemma LeafAfterProgress(mem0: Memory, free0: set<nat>, mem1: Memory, free: set<nat>, mem: Memory,
                          root: FrameNumber, q: Path)
    requires |q| == 4 && Progress(mem0, free0, mem1, free, root, q, 3)
    requires |free| == |free0| - Missing(mem0, root, q)
    requires forall p: Path | |p| <= 3 :: TableAt(mem, root, p) == TableAt(mem1, root, p)
    requires SameExcept(mem1, mem, root, q)
    ensures SameExcept(mem0, mem, root, q) && mem1.Keys == mem0.Keys
    ensures MapAccount(mem0, free0, mem, free, root, q, Ok(Unit))
  {
  }

  lemma NoConflictLeft(mem: Memory, root: FrameNumber, q: Path)
    requires |q| == 4 && !HugeEntry(EntryAt(mem, root, q[0])) && TableAt(mem, root, q[..3]).Some?
    ensures !Conflict(mem, root, q)
  {
    TablesAbove(mem, root, q, 3);
    NextLevel(mem, root, q, 1);
    NextLevel(mem, root, q, 2);
  }

  lemma WriteLeaf(mem: Memory, root: FrameNumber, free: set<nat>, history: seq<Memory>, q: Path, e: Entry)
    requires Sound(mem, root, free, history) && |q| == 4 && TableAt(mem, root, q[..3]).Some?
    ensures TableAt(mem, root, q[..3]).value in mem
    ensures var mem' := Store(mem, TableAt(mem, root, q[..3]).value, q[3], e);
            && Sound(mem', root, free, history + [mem'])
            && mem'.Keys == mem.Keys
            && (forall p: Path | |p| <= 3 :: TableAt(mem', root, p) == TableAt(mem, root, p))
            && (forall j: Index :: EntryAt(mem', root, j) == EntryAt(mem, root, j))
            && SameExcept(mem, mem', root, q) && LinksKept(mem, mem', root)
            && Lookup(mem', root, q) == if e.Present() then Page(e) else Unmapped
  {
    RootTable(mem, root);
    hide Lookup, TableAt, LinkEntry, LinksKept, Blank;
    var table := TableAt(mem, root, q[..3]).value;
    var mem' := Store(mem, table, q[3], e);
    assert q[..3] + [q[3]] == q;
    assert Leaf(mem, mem', root, q[..3], q[3], e);
    LeafStep(mem, mem', root, q[..3], q[3], e);
    forall p: Path | |p| <= 2
      ensures TableAt(mem, root, p) != Some(table)
    {
      assert p != q[..3];
    }
    LinksKeptOutside(mem, mem', root, table);
    TraceExtends(history, mem', root);
  }

  lemma UndoesMap(mem0: Memory, free0: set<nat>, mem: Memory, root: FrameNumber,
                  virt: U64, phys: U64, flags: PageFlags)
    requires PageAligned(phys)
    requires MapOutcome(mem0, root, PathOf(virt), |free0|).Ok?
    requires !Conflict(mem, root, PathOf(virt))
    requires Lookup(mem, root, PathOf(virt)) == Page(MakeEntry(phys, flags))
    ensures forall v: U64 | PathOf(v) == PathOf(virt) :: Translate(mem0, root, v) == None
    ensures UnmapOutcome(mem, root, PathOf(virt)) == Ok(phys % PHYS_LIMIT)
  {
    MaskedAddress(phys);
    forall v: U64 | PathOf(v) == PathOf(virt)
      ensures Translate(mem0, root, v) == None
    {
      TranslateIsLookup(mem0, root, v);
    }
  }

  lemma UnmapWalk(mem: Memory, root: FrameNumber, q: Path)
    requires |q| == 4
    ensures var e4 := EntryAt(mem, root, q[0]);
            if !e4.Present() then UnmapOutcome(mem, root, q) == Err(NotMapped)
            else if e4.Huge() then UnmapOutcome(mem, root, q) == Err(HugePageConflict)
            else
              var e3 := EntryAt(mem, e4.frame, q[1]);
              if !e3.Present() then UnmapOutcome(mem, root, q) == Err(NotMapped)
              else if e3.Huge() then UnmapOutcome(mem, root, q) == Err(HugePageConflict)
              else
                var e2 := EntryAt(mem, e3.frame, q[2]);
                if !e2.Present() then UnmapOutcome(mem, root, q) == Err(NotMapped)
                else if e2.Huge() then UnmapOutcome(mem, root, q) == Err(HugePageConflict)
                else
                  var e1 := EntryAt(mem, e2.frame, q[3]);
                  && TableAt(mem, root, q[..3]) == Some(e2.frame)
                  && UnmapOutcome(mem, root, q) == (if !e1.Present() then Err(NotMapped) else Ok(e1.FrameAddr()))
                  && Lookup(mem, root, q) == (if e1.Present() then Page(e1) else Unmapped)
  {
    assert q[..0] == [];
    FirstLoad(mem, root, q);
    MissingBelow(mem, root, q);
    if EntryAt(mem, root, q[0]).Present() {
      NextLevel(mem, root, q, 1);
      if TableAt(mem, root, q[..2]).Some? {
        NextLevel(mem, root, q, 2);
      }
    }
  }

  // ---------------------------------------------------------------------
  // From the flat view to translations
  // ---------------------------------------------------------------------

  lemma SameLookupsTranslate(mem: Memory, mem': Memory, root: FrameNumber)
    requires SameLookups(mem, mem', root)
    ensures forall v: U64 :: Translate(mem', root, v) == Translate(mem, root, v)
  {
    forall v: U64
      ensures Translate(mem', root, v) == Translate(mem, root, v)
    {
      TranslateIsLookup(mem, root, v);
      TranslateIsLookup(mem', root, v);
    }
  }

  lemma MappedTranslate(mem: Memory, mem': Memory, root: FrameNumber, virt: U64, phys: U64, flags: PageFlags)
    requires PageAligned(phys)
    requires SameExcept(mem, mem', root, PathOf(virt))
    requires Lookup(mem', root, PathOf(virt)) == Page(MakeEntry(phys, flags))
    ensures forall v: U64 ::
              Translate(mem', root, v)
              == if PathOf(v) == PathOf(virt) then Some(phys % PHYS_LIMIT + v % PAGE_SIZE)
                 else Translate(mem, root, v)
  {
    MaskedAddress(phys);
    forall v: U64
      ensures Translate(mem', root, v)
              == if PathOf(v) == PathOf(virt) then Some(phys % PHYS_LIMIT + v % PAGE_SIZE)
                 else Translate(mem, root, v)
    {
      TranslateIsLookup(mem, root, v);
      TranslateIsLookup(mem', root, v);
      ResolvePage(MakeEntry(phys, flags), v);
    }
  }

  lemma UnmappedTranslate(mem: Memory, mem': Memory, root: FrameNumber, virt: U64, e: Entry)
    requires PageAligned(virt)
    requires SameExcept(mem, mem', root, PathOf(virt))
    requires Lookup(mem, root, PathOf(virt)) == Page(e) && Lookup(mem', root, PathOf(virt)) == Unmapped
    ensures Translate(mem, root, virt) == Some(e.FrameAddr())
    ensures forall v: U64 ::
              Translate(mem', root, v) == if PathOf(v) == PathOf(virt) then None else Translate(mem, root, v)
  {
    TranslateIsLookup(mem, root, virt);
    ResolvePage(e, virt);
    forall v: U64
      ensures Translate(mem', root, v) == if PathOf(v) == PathOf(virt) then None else Translate(mem, root, v)
    {
      TranslateIsLookup(mem, root, v);
      TranslateIsLookup(mem', root, v);
    }
  }

  lemma MaskedAddress(phys: U64)
    requires PageAligned(phys)
    ensures phys / PAGE_SIZE % FRAME_LIMIT * PAGE_SIZE == phys % PHYS_LIMIT
  {
  }

  /** An address survives the entry's mask exactly when it fits in 52 bits. */
  lemma AddressKept(phys: U64, flags: PageFlags)
    requires PageAligned(phys)
    ensures MakeEntry(phys, flags).FrameAddr() == phys <==> phys < PHYS_LIMIT
  {
    MaskedAddress(phys);
  }
}
