/**
The physical frame allocator: one bit per 4 KiB frame, a cached count of the
clear bits and a rotating search cursor.
 */
module FrameAllocator {
  import opened Common

  const FRAME_SIZE: nat := 4096
  /** 32 GiB of frames. */
  const MAX_FRAMES: nat := 8_388_608
  const BITMAP_WORDS: nat := 131_072

  datatype RegionKind = Usable | Reserved | KernelImage | Bootloader
  datatype Region = Region(start: U64, end: U64, kind: RegionKind)

  datatype InitError = NoUsableRegions | BitmapTooSmall | AlreadyInitialized

  /** The 64 bits of a bitmap word, least significant first; `true` is "used". */
  type Word = w: seq<bool> | |w| == 64 witness seq(64, _ => true)

  // ---------------------------------------------------------------------
  // What the bitmap means
  // ---------------------------------------------------------------------

  predicate Used(words: seq<Word>, i: nat)
    requires |words| == BITMAP_WORDS && i < MAX_FRAMES
  {
    words[i / 64][i % 64]
  }

  /** `free` is the set of frames whose bit is clear. */
  ghost predicate Tracks(words: seq<Word>, free: set<nat>)
    requires |words| == BITMAP_WORDS
  {
    && (forall i | i in free :: i < MAX_FRAMES)
    && (forall i: nat {:trigger Used(words, i)} | i < MAX_FRAMES :: i in free <==> !Used(words, i))
  }

  function WithBit(words: seq<Word>, i: nat, used: bool): (r: seq<Word>)
    requires |words| == BITMAP_WORDS && i < MAX_FRAMES
    ensures |r| == BITMAP_WORDS
  {
    words[i / 64 := words[i / 64][i % 64 := used]]
  }

  lemma TracksWithBit(words: seq<Word>, free: set<nat>, i: nat, used: bool)
    requires |words| == BITMAP_WORDS && i < MAX_FRAMES && Tracks(words, free)
    ensures Tracks(WithBit(words, i, used), if used then free - {i} else free + {i})
  {
    forall j: nat | j < MAX_FRAMES
      ensures Used(WithBit(words, i, used), j) == if j == i then used else Used(words, j)
    {
      assert j == j / 64 * 64 + j % 64;
    }
  }

  lemma AllUsed(words: seq<Word>, free: set<nat>)
    requires |words| == BITMAP_WORDS && Tracks(words, free)
    requires forall k | 0 <= k < BITMAP_WORDS :: false !in words[k]
    ensures free == {}
  {
    forall i: nat | i < MAX_FRAMES
      ensures i !in free
    {
      assert words[i / 64][i % 64] in words[i / 64];
      assert Used(words, i);
    }
  }

  /** `(!word).trailing_zeros()`: the lowest clear bit. */
  function LowestClear(w: seq<bool>): (b: nat)
    requires false in w
    ensures b < |w| && !w[b] && forall j | 0 <= j < b :: w[j]
  {
    if !w[0] then 0 else 1 + LowestClear(w[1..])
  }

  /** The word examined at step `k` of the scan. */
  function RingIndex(cursor: nat, k: nat): (i: nat)
    ensures i < BITMAP_WORDS
  {
    (cursor + k) % BITMAP_WORDS
  }

  ghost predicate FullFor(words: seq<Word>, cursor: nat, n: nat)
    requires |words| == BITMAP_WORDS
  {
    forall k: nat | k < n :: false !in words[RingIndex(cursor, k)]
  }

  /** Place of a frame in the scan that starts at word `cursor`. */
  function ScanRank(cursor: nat, i: nat): int {
    (i / 64 - cursor) % BITMAP_WORDS * 64 + i % 64
  }

  // ---------------------------------------------------------------------
  // Runs
  // ---------------------------------------------------------------------

  datatype Event = Took(frame: nat) | Exhausted | Returned(frame: nat)

  /** What each call may do to the set of free frames. */
  ghost predicate Step(free: set<nat>, e: Event, free': set<nat>) {
    match e
    case Took(f) => f in free && f < MAX_FRAMES && free' == free - {f}
    case Exhausted => free == {} && free' == free
    case Returned(f) => free' == if f < MAX_FRAMES then free + {f} else free
  }

  ghost predicate Run(states: seq<set<nat>>, events: seq<Event>) {
    && |states| == |events| + 1
    && forall k | 0 <= k < |events| :: Step(states[k], events[k], states[k + 1])
  }

  lemma {:induction false} StaysTaken(states: seq<set<nat>>, events: seq<Event>, f: nat, i: nat, j: nat)
    requires Run(states, events) && i <= j <= |events|
    requires f !in states[i]
    requires forall k | i <= k < j :: events[k] != Returned(f)
    ensures f !in states[j]
    decreases j
  {
    if i < j {
      StaysTaken(states, events, f, i, j - 1);
      assert Step(states[j - 1], events[j - 1], states[j]);
    }
  }

  /** No frame is handed out twice without having been returned in between. */
  lemma NeverHandedOutTwice(states: seq<set<nat>>, events: seq<Event>, i: nat, j: nat)
    requires Run(states, events) && i < j < |events|
    requires events[i].Took? && events[i] == events[j]
    ensures exists k :: i < k < j && events[k] == Returned(events[i].frame)
  {
    var f := events[i].frame;
    assert Step(states[i], events[i], states[i + 1]);
    assert Step(states[j], events[j], states[j + 1]);
    if forall k | i + 1 <= k < j :: events[k] != Returned(f) {
      StaysTaken(states, events, f, i + 1, j);
    }
  }

  // ---------------------------------------------------------------------
  // The memory map
  // ---------------------------------------------------------------------

  /** Release-mode rounding: the addition wraps at 2^64. */
  function AlignUp(a: U64): U64 {
    (a + (FRAME_SIZE - 1)) % U64_LIMIT / FRAME_SIZE * FRAME_SIZE
  }

  function AlignDown(a: U64): U64 {
    a / FRAME_SIZE * FRAME_SIZE
  }

  /** `init` walks frame `f` of this region. */
  predicate Scans(r: Region, f: nat) {
    r.kind.Usable? && AlignUp(r.start) <= f * FRAME_SIZE && (f + 1) * FRAME_SIZE <= AlignDown(r.end)
  }

  /** Frame `f` lies wholly inside a region of usable RAM. */
  predicate Inside(r: Region, f: nat) {
    r.kind.Usable? && r.start <= f * FRAME_SIZE && (f + 1) * FRAME_SIZE <= r.end
  }

  /** The walk covers exactly the frames inside the region, unless rounding the
      start wraps while the end still lies above the first frame. */
  lemma ScansExactlyInside(r: Region)
    requires r.kind.Usable?
    ensures (forall f: nat :: Scans(r, f) <==> Inside(r, f))
       <==> (r.start <= U64_LIMIT - FRAME_SIZE || r.end < FRAME_SIZE)
  {
    if r.start <= U64_LIMIT - FRAME_SIZE {
      forall f: nat
        ensures Scans(r, f) <==> Inside(r, f)
      {
      }
    } else {
      assert AlignUp(r.start) == 0;
      if r.end >= FRAME_SIZE {
        assert Scans(r, 0) && !Inside(r, 0);
      } else {
        forall f: nat
          ensures !Scans(r, f) && !Inside(r, f)
        {
        }
      }
    }
  }

  ghost predicate Scanned(regions: seq<Region>, f: nat) {
    exists k :: 0 <= k < |regions| && Scans(regions[k], f)
  }

  ghost predicate AnyScanned(regions: seq<Region>) {
    exists f: nat :: Scanned(regions, f)
  }

  /** A memory map no usable region of which is scanned beyond its bounds. */
  predicate Honest(regions: seq<Region>) {
    forall r | r in regions :: r.kind.Usable? ==> r.start <= U64_LIMIT - FRAME_SIZE || r.end < FRAME_SIZE
  }

  /** Frame `f` lies wholly inside some usable region of the map. */
  ghost predicate InUsableRam(regions: seq<Region>, f: nat) {
    exists k :: 0 <= k < |regions| && Inside(regions[k], f)
  }

  /** On an honest map the frames `init` frees are the usable RAM. */
  lemma ScannedIsUsableRam(regions: seq<Region>)
    requires Honest(regions)
    ensures forall f: nat :: Scanned(regions, f) <==> InUsableRam(regions, f)
  {
    forall f: nat, k | 0 <= k < |regions|
      ensures Scans(regions[k], f) <==> Inside(regions[k], f)
    {
      if regions[k].kind.Usable? {
        ScansExactlyInside(regions[k]);
      }
    }
  }

  // ---------------------------------------------------------------------
  // The allocator
  // ---------------------------------------------------------------------

  class BitmapFrameAllocator {
    const bitmap: array<Word>
    var nextSearch: nat
    var totalFrames: nat
    var freeFrames: nat
    var initialized: bool
    /** The frames whose bit is clear. */
    ghost var free: set<nat>

    ghost predicate Valid()
      reads this, bitmap
    {
      && bitmap.Length == BITMAP_WORDS
      && nextSearch < BITMAP_WORDS
      && Tracks(bitmap[..], free)
      && freeFrames == |free|
    }

    constructor ()
      ensures Valid() && fresh(bitmap) && free == {} && nextSearch == 0
      ensures freeFrames == totalFrames == 0 && !initialized
    {
      bitmap := new Word[BITMAP_WORDS](_ => seq(64, _ => true));
      nextSearch, totalFrames, freeFrames, initialized := 0, 0, 0, false;
      free := {};
    }

    method MarkFree(frame: nat)
      requires Valid()
      modifies bitmap, this`freeFrames, this`free
      ensures Valid() && Step(old(free), Returned(frame), free)
    {
      if frame >= MAX_FRAMES {
        return;
      }
      var word, bit := frame / 64, frame % 64;
      assert bitmap[word][bit] == Used(bitmap[..], frame);
      if bitmap[word][bit] {
        TracksWithBit(bitmap[..], free, frame, false);
        bitmap[word] := bitmap[word][bit := false];
        assert bitmap[..] == WithBit(old(bitmap[..]), frame, false);
        freeFrames, free := freeFrames + 1, free + {frame};
      }
    }

    method MarkUsed(frame: nat)
      requires Valid()
      modifies bitmap, this`freeFrames, this`free
      ensures Valid() && free == old(free) - {frame}
    {
      if frame >= MAX_FRAMES {
        return;
      }
      var word, bit := frame / 64, frame % 64;
      assert bitmap[word][bit] == Used(bitmap[..], frame);
      if !bitmap[word][bit] {
        TracksWithBit(bitmap[..], free, frame, true);
        bitmap[word] := bitmap[word][bit := true];
        assert bitmap[..] == WithBit(old(bitmap[..]), frame, true);
        freeFrames, free := freeFrames - 1, free - {frame};
      }
    }

    /** Succeeds exactly when some frame is free, wherever the cursor stands,
        and takes the free frame that comes first in the rotated scan. */
    method AllocateFrame() returns (r: Option<nat>)
      requires Valid()
      modifies bitmap, this`freeFrames, this`nextSearch, this`free
      ensures Valid()
      ensures Step(old(free), if r.Some? then Took(r.value) else Exhausted, free)
      ensures r.Some? ==> nextSearch == r.value / 64
      ensures r.Some? ==> forall g | g in old(free) ::
                ScanRank(old(nextSearch), r.value) <= ScanRank(old(nextSearch), g)
      ensures r.None? ==> nextSearch == old(nextSearch)
    {
      if freeFrames == 0 {
        return None;
      }
      var offset := 0;
      while offset < BITMAP_WORDS
        invariant offset <= BITMAP_WORDS
        invariant FullFor(bitmap[..], nextSearch, offset)
      {
        var i := RingIndex(nextSearch, offset);
        var word := bitmap[i];
        if false in word {
          var bit := LowestClear(word);
          var frame := i * 64 + bit;
          assert frame / 64 == i && frame % 64 == bit;
          assert !Used(bitmap[..], frame);
          TracksWithBit(bitmap[..], free, frame, true);
          FirstInScan(bitmap[..], free, nextSearch, offset, frame);
          bitmap[i] := word[bit := true];
          assert bitmap[..] == WithBit(old(bitmap[..]), frame, true);
          freeFrames, free := freeFrames - 1, free - {frame};
          nextSearch := i;
          return Some(frame);
        }
        offset := offset + 1;
      }
      FullCircle(bitmap[..], free, nextSearch);
      assert false;
    }

    /** Clears the bit and moves the cursor to the freed word. */
    method DeallocateFrame(frame: nat)
      requires Valid()
      modifies bitmap, this`freeFrames, this`nextSearch, this`free
      ensures Valid() && Step(old(free), Returned(frame), free)
      ensures nextSearch == if frame < MAX_FRAMES then frame / 64 else old(nextSearch)
    {
      MarkFree(frame);
      var word := frame / 64;
      if word < BITMAP_WORDS {
        nextSearch := word;
      }
    }

    /** Populate the bitmap from the boot memory map. */
    method Init(regions: seq<Region>) returns (r: Result<Unit, InitError>)
      requires Valid()
      modifies this, bitmap
      ensures Valid() && initialized
      ensures r == Err(AlreadyInitialized) <==> old(initialized)
      ensures old(initialized) ==> free == old(free) && totalFrames == old(totalFrames)
      ensures !old(initialized) ==>
                (r == Err(BitmapTooSmall) <==> exists f: nat :: Scanned(regions, f) && f >= MAX_FRAMES)
      ensures !old(initialized) ==> (r == Err(NoUsableRegions) <==> !AnyScanned(regions))
      ensures r.Ok? ==> forall f: nat :: f in free <==> f in old(free) || Scanned(regions, f)
      ensures totalFrames - old(totalFrames) == |free| - |old(free)|
    {
      if initialized {
        return Err(AlreadyInitialized);
      }
      initialized := true;
      var anyUsable := false;
      var n := 0;
      while n < |regions|
        invariant n <= |regions|
        invariant Valid() && initialized
        invariant totalFrames - old(totalFrames) == |free| - |old(free)|
        invariant anyUsable <==> AnyScanned(regions[..n])
        invariant forall f: nat :: f in free <==> f in old(free) || Scanned(regions[..n], f)
        invariant forall f: nat :: Scanned(regions[..n], f) ==> f < MAX_FRAMES
      {
        var region := regions[n];
        ScannedNext(regions, n);
        assert region.kind.Usable? && AlignDown(region.end) > AlignUp(region.start)
           <==> exists f: nat :: Scans(region, f) by { ScansSome(region); }
        if region.kind.Usable? {
          var ok := ScanRegion(region);
          if !ok {
            return Err(BitmapTooSmall);
          }
          if AlignDown(region.end) > AlignUp(region.start) {
            anyUsable := true;
          }
        }
        n := n + 1;
      }
      assert regions[..n] == regions;
      if !anyUsable {
        return Err(NoUsableRegions);
      }
      return Ok(Unit);
    }

    /** The inner loop of `init`: free every frame of one region. */
    method ScanRegion(region: Region) returns (ok: bool)
      requires Valid() && region.kind.Usable?
      modifies this`freeFrames, this`totalFrames, this`free, bitmap
      ensures Valid()
      ensures ok <==> forall f: nat | Scans(region, f) :: f < MAX_FRAMES
      ensures ok ==> forall f: nat :: f in free <==> f in old(free) || Scans(region, f)
      ensures totalFrames - old(totalFrames) == |free| - |old(free)|
    {
      var start, end := AlignUp(region.start), AlignDown(region.end);
      ScansRange(region);
      if end <= start {
        return true;
      }
      var addr: nat := start;
      while addr + FRAME_SIZE <= end
        invariant start <= addr <= end && addr % FRAME_SIZE == 0
        invariant Valid()
        invariant totalFrames - old(totalFrames) == |free| - |old(free)|
        invariant forall f: nat :: f in free <==> f in old(free) || start / FRAME_SIZE <= f < addr / FRAME_SIZE
        invariant addr / FRAME_SIZE <= MAX_FRAMES || addr == start
        decreases end - addr
      {
        var idx := addr / FRAME_SIZE;
        assert Scans(region, idx);
        if idx >= MAX_FRAMES {
          return false;
        }
        FreeAndCount(idx);
        addr := addr + FRAME_SIZE;
      }
      return true;
    }

    method FreeAndCount(idx: nat)
      requires Valid() && idx < MAX_FRAMES
      modifies this`freeFrames, this`totalFrames, this`free, bitmap
      ensures Valid() && free == old(free) + {idx}
      ensures totalFrames - old(totalFrames) == |free| - |old(free)|
    {
      assert bitmap[idx / 64][idx % 64] == Used(bitmap[..], idx);
      if bitmap[idx / 64][idx % 64] {
        TracksWithBit(bitmap[..], free, idx, false);
        bitmap[idx / 64] := bitmap[idx / 64][idx % 64 := false];
        assert bitmap[..] == WithBit(old(bitmap[..]), idx, false);
        freeFrames, free := freeFrames + 1, free + {idx};
        totalFrames := totalFrames + 1;
      }
    }
  }

  lemma ScansRange(r: Region)
    requires r.kind.Usable?
    ensures forall f: nat :: Scans(r, f) <==> AlignUp(r.start) / FRAME_SIZE <= f < AlignDown(r.end) / FRAME_SIZE
  {
  }

  lemma ScansSome(r: Region)
    ensures r.kind.Usable? && AlignDown(r.end) > AlignUp(r.start) <==> exists f: nat :: Scans(r, f)
  {
    if r.kind.Usable? && AlignDown(r.end) > AlignUp(r.start) {
      assert Scans(r, AlignUp(r.start) / FRAME_SIZE);
    }
  }

  lemma ScannedNext(regions: seq<Region>, n: nat)
    requires n < |regions|
    ensures forall f: nat :: Scanned(regions[..n + 1], f)
              <==> Scanned(regions[..n], f) || Scans(regions[n], f)
    ensures forall f: nat | Scans(regions[n], f) :: Scanned(regions, f)
    ensures AnyScanned(regions[..n + 1]) <==> AnyScanned(regions[..n]) || exists f: nat :: Scans(regions[n], f)
  {
    forall f: nat
      ensures Scanned(regions[..n + 1], f) <==> Scanned(regions[..n], f) || Scans(regions[n], f)
    {
      assert forall k | 0 <= k < n :: regions[..n + 1][k] == regions[..n][k];
      if Scans(regions[n], f) {
        assert Scans(regions[..n + 1][n], f);
      }
    }
    if AnyScanned(regions[..n + 1]) {
      var f :| Scanned(regions[..n + 1], f);
      assert Scanned(regions[..n], f) || Scans(regions[n], f);
    }
    if AnyScanned(regions[..n]) {
      var f :| Scanned(regions[..n], f);
      assert Scanned(regions[..n + 1], f);
    }
    if f: nat :| Scans(regions[n], f) {
      assert Scanned(regions[..n + 1], f);
    }
  }

  /** After a whole turn without a clear bit, nothing is free. */
  lemma FullCircle(words: seq<Word>, free: set<nat>, cursor: nat)
    requires |words| == BITMAP_WORDS && cursor < BITMAP_WORDS && Tracks(words, free)
    requires FullFor(words, cursor, BITMAP_WORDS)
    ensures free == {}
  {
    forall w | 0 <= w < BITMAP_WORDS
      ensures false !in words[w]
    {
      var k := (w - cursor) % BITMAP_WORDS;
      assert RingIndex(cursor, k) == w;
    }
    AllUsed(words, free);
  }

  lemma FirstInScan(words: seq<Word>, free: set<nat>, cursor: nat, offset: nat, frame: nat)
    requires |words| == BITMAP_WORDS && cursor < BITMAP_WORDS && offset < BITMAP_WORDS && Tracks(words, free)
    requires FullFor(words, cursor, offset)
    requires frame < MAX_FRAMES && frame / 64 == RingIndex(cursor, offset)
    requires false in words[frame / 64] && frame % 64 == LowestClear(words[frame / 64])
    ensures forall g | g in free :: ScanRank(cursor, frame) <= ScanRank(cursor, g)
  {
    assert (frame / 64 - cursor) % BITMAP_WORDS == offset;
    forall g | g in free
      ensures ScanRank(cursor, frame) <= ScanRank(cursor, g)
    {
      assert !Used(words, g);
      var k := (g / 64 - cursor) % BITMAP_WORDS;
      assert RingIndex(cursor, k) == g / 64;
      assert words[g / 64][g % 64] in words[g / 64];
      assert k >= offset;
    }
  }
}
