/**
`heap::init`: back the heap's 2048 pages with fresh frames, then hand the
region to the free-list allocator. Frame allocator, page tables and heap meet
here.
 */
module HeapInit {
  import opened Common
  import opened PageTables
  import opened Paging
  import FrameAllocator
  import Heap

  const HEAP_PAGES: nat := 2048
  const HEAP_FLAGS: PageFlags := {PRESENT, WRITABLE, NO_EXECUTE}

  function HeapPage(k: nat): U64
    requires k < HEAP_PAGES
  {
    Heap.HEAP_START + k * PAGE_SIZE
  }

  function HeapPath(k: nat): (p: Path)
    requires k < HEAP_PAGES
    ensures |p| == 4
  {
    [384, 0, k / 512, k % 512]
  }

  lemma HeapPageSplits(k: nat)
    requires k < HEAP_PAGES
    ensures PathOf(HeapPage(k)) == HeapPath(k) && PageAligned(HeapPage(k)) && Canonical(HeapPage(k))
  {
    var v := HeapPage(k);
    var a := v / PAGE_SIZE;
    PathDigits(v);
    assert a == 0xF_FFFC_0000_0000 + k;
    DivModUnique(a, 512, 0x7FF_FE00_0000 + k / 512, k % 512);
    DivModUnique(a / 512, 512, 0x3_FFFF_0000, k / 512);
  }

  // ---------------------------------------------------------------------
  // Counting tables
  // ---------------------------------------------------------------------

  function Absent(mem: Memory, root: FrameNumber, p: Path): nat {
    if TableAt(mem, root, p).None? then 1 else 0
  }

  /** How many of the six tables that serve the heap do not exist yet. */
  function TablesToCreate(mem: Memory, root: FrameNumber): nat {
    Absent(mem, root, [384]) + Absent(mem, root, [384, 0])
    + Absent(mem, root, [384, 0, 0]) + Absent(mem, root, [384, 0, 1])
    + Absent(mem, root, [384, 0, 2]) + Absent(mem, root, [384, 0, 3])
  }

  lemma HeapPrefixes(k: nat)
    requires k < HEAP_PAGES
    ensures HeapPath(k)[..1] == [384] && HeapPath(k)[..2] == [384, 0] && HeapPath(k)[..3] == [384, 0, k / 512]
  {
  }

  /** Mapping page `k` creates exactly the tables missing on its path. */
  lemma TablesCreated(mem: Memory, mem': Memory, root: FrameNumber, k: nat)
    requires k < HEAP_PAGES
    requires forall p: Path | |p| <= 3 ::
               TableAt(mem', root, p).Some? <==> TableAt(mem, root, p).Some? || p <= HeapPath(k)[..3]
    ensures TablesToCreate(mem', root) == TablesToCreate(mem, root) - Missing(mem, root, HeapPath(k))
  {
    HeapPrefixes(k);
    var q3: Path := [384, 0, k / 512];
    hide TableAt;
    CreatedOne(mem, mem', root, [384], q3);
    CreatedOne(mem, mem', root, [384, 0], q3);
    CreatedOne(mem, mem', root, [384, 0, 0], q3);
    CreatedOne(mem, mem', root, [384, 0, 1], q3);
    CreatedOne(mem, mem', root, [384, 0, 2], q3);
    CreatedOne(mem, mem', root, [384, 0, 3], q3);
    PrefixesOf(k / 512);
  }

  lemma PrefixesOf(t: Index)
    ensures var q3: Path := [384, 0, t];
            && [384] <= q3 && [384, 0] <= q3
            && ([384, 0, 0] <= q3 <==> t == 0) && ([384, 0, 1] <= q3 <==> t == 1)
            && ([384, 0, 2] <= q3 <==> t == 2) && ([384, 0, 3] <= q3 <==> t == 3)
  {
    assert [384, 0, 0][2] == 0 && [384, 0, 1][2] == 1 && [384, 0, 2][2] == 2 && [384, 0, 3][2] == 3;
  }

  lemma CreatedOne(mem: Memory, mem': Memory, root: FrameNumber, p: Path, q3: Path)
    requires |p| <= 3
    requires TableAt(mem', root, p).Some? <==> TableAt(mem, root, p).Some? || p <= q3
    ensures Absent(mem', root, p) == if p <= q3 then 0 else Absent(mem, root, p)
  {
  }

  // ---------------------------------------------------------------------
  // The state of the loop
  // ---------------------------------------------------------------------

  /** The L4 entry over the heap is marked huge: a reserved combination that
      `translate` ignores and `map` refuses. */
  predicate HugeSlot(mem: Memory, root: FrameNumber) {
    HugeEntry(EntryAt(mem, root, 384))
  }

  /** Nothing is mapped in the first `k` pages of the heap range. */
  ghost predicate HeapUnmapped(mem: Memory, root: FrameNumber, k: nat)
    requires k <= HEAP_PAGES
  {
    forall j: nat | j < k :: Lookup(mem, root, HeapPath(j)) == Unmapped
  }

  /** From page `k` on, the heap range is mapped as it was. */
  ghost predicate RestAsBefore(mem0: Memory, mem: Memory, root: FrameNumber, k: nat) {
    forall j: nat | k <= j < HEAP_PAGES :: Lookup(mem, root, HeapPath(j)) == Lookup(mem0, root, HeapPath(j))
  }

  /** The first `|backing|` pages are mapped, in order, to `backing`. */
  ghost predicate HeapMapped(mem: Memory, root: FrameNumber, backing: seq<FrameNumber>) {
    && |backing| <= HEAP_PAGES
    && forall j: nat | j < |backing| ::
         Lookup(mem, root, HeapPath(j)) == Page(Entry(backing[j], HEAP_FLAGS))
  }

  /** The backing frames are distinct, used, and none of them holds a table. */
  ghost predicate BackingApart(mem: Memory, root: FrameNumber, free: set<nat>, backing: seq<FrameNumber>) {
    && (forall i, j | 0 <= i < j < |backing| :: backing[i] != backing[j])
    && (forall j | 0 <= j < |backing| :: backing[j] !in free && NotTable(mem, root, backing[j]))
  }

  lemma UnmappedNoConflict(mem: Memory, root: FrameNumber, k: nat)
    requires k < HEAP_PAGES && Lookup(mem, root, HeapPath(k)) == Unmapped && !HugeSlot(mem, root)
    ensures !Conflict(mem, root, HeapPath(k))
  {
    var q := HeapPath(k);
    FirstLoad(mem, root, q);
    LookupByTables(mem, root, q);
    assert q[..0] == [];
    if TableAt(mem, root, q[..1]).Some? {
      NextLevel(mem, root, q, 1);
    }
    if TableAt(mem, root, q[..2]).Some? {
      MissingBelow(mem, root, q);
      NextLevel(mem, root, q, 2);
    }
  }

  lemma PathsDiffer(j: nat, k: nat)
    requires j < HEAP_PAGES && k < HEAP_PAGES && j != k
    ensures HeapPath(j) != HeapPath(k)
  {
    assert HeapPath(j)[2] != HeapPath(k)[2] || HeapPath(j)[3] != HeapPath(k)[3];
  }

  lemma MappedOne(mem0: Memory, mem: Memory, free: set<nat>, mem': Memory, free': set<nat>, root: FrameNumber,
                  backing: seq<FrameNumber>, f: FrameNumber)
    requires |backing| < HEAP_PAGES
    requires HeapMapped(mem, root, backing) && RestAsBefore(mem0, mem, root, |backing|)
    requires BackingApart(mem, root, free + {f}, backing) && f !in free && NotTable(mem, root, f)
    requires SameExcept(mem, mem', root, HeapPath(|backing|)) && !Conflict(mem', root, HeapPath(|backing|))
    requires Lookup(mem', root, HeapPath(|backing|)) == Page(Entry(f, HEAP_FLAGS))
    requires TablesFrom(mem, free, mem', root) && free' <= free
    ensures HeapMapped(mem', root, backing + [f]) && RestAsBefore(mem0, mem', root, |backing| + 1)
    ensures !HugeSlot(mem', root)
    ensures BackingApart(mem', root, free', backing + [f])
  {
    var k := |backing|;
    var after := backing + [f];
    hide Lookup, TableAt;
    forall j: nat | j < HEAP_PAGES && j != k
      ensures Lookup(mem', root, HeapPath(j)) == Lookup(mem, root, HeapPath(j))
    {
      PathsDiffer(j, k);
    }
    FirstSlot(mem', root, k);
  }

  lemma FirstSlot(mem: Memory, root: FrameNumber, k: nat)
    requires k < HEAP_PAGES && !Conflict(mem, root, HeapPath(k))
    ensures !HugeSlot(mem, root)
  {
    assert HeapPath(k)[..0] == [];
  }

  // ---------------------------------------------------------------------
  // heap::init
  // ---------------------------------------------------------------------

  /** What holds after `|backing|` pages. */
  ghost predicate LoopState(mem0: Memory, free0: set<nat>, mem: Memory, free: set<nat>,
                            root: FrameNumber, backing: seq<FrameNumber>)
  {
    && HeapMapped(mem, root, backing) && HeapUnmapped(mem0, root, |backing|)
    && RestAsBefore(mem0, mem, root, |backing|) && !HugeSlot(mem, root)
    && BackingApart(mem, root, free, backing)
    && TablesStay(mem0, mem, root) && LinksMade(mem0, mem, root, HEAP_FLAGS)
    && free <= free0 && (forall j | 0 <= j < |backing| :: backing[j] in free0)
    && TablesToCreate(mem, root) <= TablesToCreate(mem0, root)
    && |free| == |free0| - |backing| - (TablesToCreate(mem0, root) - TablesToCreate(mem, root))
  }

  /** One page: a frame for the data, then the mapping. */
  method BackPage(space: AddressSpace, k: nat, ghost mem0: Memory, ghost free0: set<nat>, ghost backing: seq<FrameNumber>)
    returns (ok: bool, ghost f: FrameNumber)
    requires space.Valid() && k == |backing| < HEAP_PAGES
    requires HugeSlot(space.mem, space.root) || LoopState(mem0, free0, space.mem, space.frames.free, space.root, backing)
    modifies space`mem, space`history, space.frames, space.frames.bitmap
    ensures space.Valid()
    ensures ok ==> && space.physOffset != UNSET && !HugeSlot(old(space.mem), space.root)
                   && LoopState(mem0, free0, space.mem, space.frames.free, space.root, backing + [f])
    ensures !ok ==> || space.physOffset == UNSET || HugeSlot(old(space.mem), space.root)
                    || Lookup(mem0, space.root, HeapPath(k)) != Unmapped
                    || |free0| < HEAP_PAGES + TablesToCreate(mem0, space.root)
  {
    hide LoopState, HugeSlot, Sound, TableAt, Lookup, Walk, Conflict, MapOutcome, MapAccount, HeapPath, TablesToCreate;
    f := 0;
    ghost var free := space.frames.free;
    var frame := space.frames.AllocateFrame();
    if frame.None? {
      if !HugeSlot(space.mem, space.root) {
        OutOfDataFrames(mem0, free0, space.mem, free, space.frames.free, space.root, backing);
      }
      AllocatedNone(free, space.frames.free);
      return false, f;
    }
    Allocated(space.mem, space.root, free, space.history, frame.value, space.frames.free);
    f := frame.value;
    HeapPageSplits(k);
    if HugeSlot(space.mem, space.root) {
      HugeSlotConflicts(space.mem, space.root, k, |space.frames.free|);
    } else {
      PageIsFree(mem0, free0, space.mem, free, space.root, backing, |space.frames.free|);
    }
    ghost var mem1, free1 := space.mem, space.frames.free;
    FrameAddress(frame.value);
    var result := space.Map(HeapPage(k), frame.value * PAGE_SIZE, HEAP_FLAGS);
    if result.Err? {
      if space.physOffset != UNSET && !HugeSlot(mem1, space.root) && Lookup(mem0, space.root, HeapPath(k)) == Unmapped {
        OutOfTableFrames(mem0, free0, mem1, free, free1, space.root, backing, f, result.error);
      }
      return false, f;
    }
    BackedOne(mem0, free0, mem1, free, free1, space.mem, space.frames.free, space.root, backing, f, result);
    ok := true;
  }

  lemma HugeSlotConflicts(mem: Memory, root: FrameNumber, k: nat, free: nat)
    requires k < HEAP_PAGES && HugeSlot(mem, root)
    ensures MapOutcome(mem, root, HeapPath(k), free).Err?
  {
    assert HeapPath(k)[..0] == [];
    assert TableAt(mem, root, HeapPath(k)[..0]) == Some(root);
  }

  lemma AllocatedNone(free: set<nat>, free1: set<nat>)
    requires FrameAllocator.Step(free, FrameAllocator.Exhausted, free1)
    ensures free1 == free
  {
  }

  lemma FrameAddress(f: nat)
    requires f < FRAME_LIMIT
    ensures f * PAGE_SIZE < U64_LIMIT && PageAligned(f * PAGE_SIZE)
    ensures MakeEntry(f * PAGE_SIZE, HEAP_FLAGS + {PRESENT}) == Entry(f, HEAP_FLAGS)
  {
    assert HEAP_FLAGS + {PRESENT} == HEAP_FLAGS;
    DivModUnique(f * PAGE_SIZE, PAGE_SIZE, f, 0);
  }

  lemma Allocated(mem: Memory, root: FrameNumber, free: set<nat>, history: seq<Memory>, f: nat, free1: set<nat>)
    requires Sound(mem, root, free, history) && FrameAllocator.Step(free, FrameAllocator.Took(f), free1)
    ensures Sound(mem, root, free1, history)
    ensures f in free && free1 == free - {f} && f < FRAME_LIMIT && f in mem && NotTable(mem, root, f)
  {
    TakeFrame(mem, root, free, history, f);
  }

  lemma OutOfDataFrames(mem0: Memory, free0: set<nat>, mem: Memory, free: set<nat>, free1: set<nat>,
                        root: FrameNumber, backing: seq<FrameNumber>)
    requires |backing| < HEAP_PAGES && LoopState(mem0, free0, mem, free, root, backing)
    requires FrameAllocator.Step(free, FrameAllocator.Exhausted, free1)
    ensures free1 == free && |free0| < HEAP_PAGES + TablesToCreate(mem0, root)
  {
  }

  /** The next page is mapped as it was; if it was, `map` refuses it. */
  lemma PageIsFree(mem0: Memory, free0: set<nat>, mem: Memory, free: set<nat>,
                   root: FrameNumber, backing: seq<FrameNumber>, frames: nat)
    requires |backing| < HEAP_PAGES && LoopState(mem0, free0, mem, free, root, backing)
    ensures Lookup(mem, root, HeapPath(|backing|)) == Lookup(mem0, root, HeapPath(|backing|))
    ensures if Lookup(mem0, root, HeapPath(|backing|)) == Unmapped then !Conflict(mem, root, HeapPath(|backing|))
            else MapOutcome(mem, root, HeapPath(|backing|), frames).Err?
  {
    hide Lookup, TableAt, Conflict;
    if Lookup(mem0, root, HeapPath(|backing|)) == Unmapped {
      UnmappedNoConflict(mem, root, |backing|);
    }
  }

  lemma OutOfTableFrames(mem0: Memory, free0: set<nat>, mem: Memory, free: set<nat>, free1: set<nat>,
                         root: FrameNumber, backing: seq<FrameNumber>, f: FrameNumber, e: MapError)
    requires |backing| < HEAP_PAGES && LoopState(mem0, free0, mem, free, root, backing)
    requires f in free && free1 == free - {f}
    requires !Conflict(mem, root, HeapPath(|backing|)) && Lookup(mem, root, HeapPath(|backing|)) == Unmapped
    requires MapOutcome(mem, root, HeapPath(|backing|), |free1|) == Err(e)
    ensures |free0| < HEAP_PAGES + TablesToCreate(mem0, root)
  {
    MissingAtMost(mem, root, |backing|);
  }

  lemma MissingAtMost(mem: Memory, root: FrameNumber, k: nat)
    requires k < HEAP_PAGES
    ensures Missing(mem, root, HeapPath(k)) <= TablesToCreate(mem, root)
  {
    HeapPrefixes(k);
    hide TableAt;
    assert k / 512 == 0 || k / 512 == 1 || k / 512 == 2 || k / 512 == 3;
  }

  lemma BackedOne(mem0: Memory, free0: set<nat>, mem: Memory, free: set<nat>, free1: set<nat>,
                  mem': Memory, free': set<nat>, root: FrameNumber, backing: seq<FrameNumber>, f: FrameNumber,
                  r: Result<Unit, MapError>)
    requires |backing| < HEAP_PAGES && LoopState(mem0, free0, mem, free, root, backing)
    requires f in free && free1 == free - {f} && NotTable(mem, root, f) && r.Ok?
    requires Lookup(mem0, root, HeapPath(|backing|)) == Unmapped
    requires SameExcept(mem, mem', root, HeapPath(|backing|)) && !Conflict(mem', root, HeapPath(|backing|))
    requires Lookup(mem', root, HeapPath(|backing|)) == Page(Entry(f, HEAP_FLAGS))
    requires MapAccount(mem, free1, mem', free', root, HeapPath(|backing|), r)
    requires LinksMade(mem, mem', root, HEAP_FLAGS)
    ensures LoopState(mem0, free0, mem', free', root, backing + [f])
  {
    hide Lookup, TableAt, Missing, TablesToCreate, HeapPath, LinksMade;
    LinksMadeOn(mem0, mem, mem', root, HEAP_FLAGS);
    assert free == free1 + {f};
    MappedOne(mem0, mem, free1, mem', free', root, backing, f);
    TablesCreated(mem, mem', root, |backing|);
    MissingAtMost(mem, root, |backing|);
  }

  /** Succeeds exactly when paging is up, the L4 slot can be descended, nothing
      in the range is mapped, and there is a frame for every page and for every
      table the range still lacks (at most 2048 + 6); then uses up exactly those. */
  method Init(space: AddressSpace, heap: Heap.LinkedListAllocator)
    returns (ok: bool, ghost backing: seq<FrameNumber>)
    requires space.Valid()
    modifies space`mem, space`history, space.frames, space.frames.bitmap, heap
    ensures space.Valid()
    ensures ok <==> && space.physOffset != UNSET && !HugeSlot(old(space.mem), space.root)
                    && HeapUnmapped(old(space.mem), space.root, HEAP_PAGES)
                    && |old(space.frames.free)| >= HEAP_PAGES + TablesToCreate(old(space.mem), space.root)
    ensures ok ==> |space.frames.free| == |old(space.frames.free)| - HEAP_PAGES - TablesToCreate(old(space.mem), space.root)
    ensures ok ==> && |backing| == HEAP_PAGES
                   && HeapMapped(space.mem, space.root, backing)
                   && BackingApart(space.mem, space.root, space.frames.free, backing)
                   && forall j | 0 <= j < HEAP_PAGES :: backing[j] in old(space.frames.free)
    ensures ok ==> forall k: nat | k < HEAP_PAGES ::
              && (Granted(space.mem, space.root, HeapPath(k), WRITABLE)
                  <==> LinksGrant(old(space.mem), space.root, HeapPath(k), WRITABLE))
              && !Granted(space.mem, space.root, HeapPath(k), USER)
    ensures ok ==> && heap.Valid() && heap.live == {}
                   && heap.free == [Heap.Block(Heap.HEAP_START, Heap.HEAP_SIZE)]
  {
    hide LoopState, HugeSlot, Sound, TablesToCreate, HeapMapped, BackingApart, HeapUnmapped, Granted, LinksGrant;
    ghost var mem0, free0 := space.mem, space.frames.free;
    if !HugeSlot(mem0, space.root) {
      LoopStart(mem0, free0, space.root);
    }
    backing := [];
    var mapped := 0;
    while mapped < Heap.HEAP_SIZE
      invariant mapped == |backing| * PAGE_SIZE && |backing| <= HEAP_PAGES
      invariant space.Valid() && (backing != [] ==> space.physOffset != UNSET)
      invariant if HugeSlot(mem0, space.root) then backing == [] && space.mem == mem0
                else LoopState(mem0, free0, space.mem, space.frames.free, space.root, backing)
    {
      if !HugeSlot(mem0, space.root) {
        StillNotHuge(mem0, free0, space.mem, space.frames.free, space.root, backing);
      }
      var got, f := BackPage(space, mapped / PAGE_SIZE, mem0, free0, backing);
      if !got {
        if Lookup(mem0, space.root, HeapPath(|backing|)) != Unmapped {
          PageWasMapped(mem0, space.root, |backing|);
        }
        return false, backing;
      }
      backing := backing + [f];
      mapped := mapped + PAGE_SIZE;
    }
    AllTablesThere(mem0, free0, space.mem, space.frames.free, space.root, backing);
    HeapGrants(mem0, free0, space.mem, space.frames.free, space.root, backing);
    heap.Init(Heap.HEAP_START, Heap.HEAP_SIZE);
    return true, backing;
  }

  lemma LoopStart(mem: Memory, free: set<nat>, root: FrameNumber)
    requires !HugeSlot(mem, root)
    ensures LoopState(mem, free, mem, free, root, [])
  {
  }

  lemma PageWasMapped(mem: Memory, root: FrameNumber, k: nat)
    requires k < HEAP_PAGES && Lookup(mem, root, HeapPath(k)) != Unmapped
    ensures !HeapUnmapped(mem, root, HEAP_PAGES)
  {
  }

  lemma StillNotHuge(mem0: Memory, free0: set<nat>, mem: Memory, free: set<nat>,
                     root: FrameNumber, backing: seq<FrameNumber>)
    requires LoopState(mem0, free0, mem, free, root, backing)
    ensures !HugeSlot(mem, root)
  {
  }

  lemma AllTablesThere(mem0: Memory, free0: set<nat>, mem: Memory, free: set<nat>,
                       root: FrameNumber, backing: seq<FrameNumber>)
    requires |backing| == HEAP_PAGES && LoopState(mem0, free0, mem, free, root, backing)
    ensures HeapMapped(mem, root, backing) && BackingApart(mem, root, free, backing)
    ensures HeapUnmapped(mem0, root, HEAP_PAGES)
    ensures forall j | 0 <= j < HEAP_PAGES :: backing[j] in free0
    ensures TablesToCreate(mem, root) == 0
    ensures |free| == |free0| - HEAP_PAGES - TablesToCreate(mem0, root)
  {
    ServingTables(mem, root, backing, 0);
    ServingTables(mem, root, backing, 512);
    ServingTables(mem, root, backing, 1024);
    ServingTables(mem, root, backing, 1536);
  }

  /** Every heap page can be written wherever the tables found there allow it,
      and none is open to user code. */
  lemma HeapGrants(mem0: Memory, free0: set<nat>, mem: Memory, free: set<nat>,
                   root: FrameNumber, backing: seq<FrameNumber>)
    requires |backing| == HEAP_PAGES && LoopState(mem0, free0, mem, free, root, backing)
    ensures forall k: nat | k < HEAP_PAGES ::
              && (Granted(mem, root, HeapPath(k), WRITABLE) <==> LinksGrant(mem0, root, HeapPath(k), WRITABLE))
              && !Granted(mem, root, HeapPath(k), USER)
  {
    hide Lookup, TableAt, Granted, LinksGrant, LinksMade, TablesStay, TablesToCreate, HeapPath;
    forall k: nat | k < HEAP_PAGES
      ensures Granted(mem, root, HeapPath(k), WRITABLE) <==> LinksGrant(mem0, root, HeapPath(k), WRITABLE)
      ensures !Granted(mem, root, HeapPath(k), USER)
    {
      var e := Entry(backing[k], HEAP_FLAGS);
      GrantedWhenLinksGrant(mem0, mem, root, HeapPath(k), e, HEAP_FLAGS, WRITABLE);
      GrantedWhenLinksGrant(mem0, mem, root, HeapPath(k), e, HEAP_FLAGS, USER);
    }
  }

  lemma ServingTables(mem: Memory, root: FrameNumber, backing: seq<FrameNumber>, k: nat)
    requires HeapMapped(mem, root, backing) && k < |backing|
    ensures Absent(mem, root, [384]) == 0 && Absent(mem, root, [384, 0]) == 0
    ensures Absent(mem, root, [384, 0, k / 512]) == 0
  {
    HeapPrefixes(k);
    assert Lookup(mem, root, HeapPath(k)).Page?;
    LookupByTables(mem, root, HeapPath(k));
  }

  /** At most six tables serve the heap. */
  lemma AtMostSixTables(mem: Memory, root: FrameNumber)
    ensures TablesToCreate(mem, root) <= 6
  {
  }
}
