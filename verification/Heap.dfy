/**
The kernel heap: a first-fit free list whose headers live inside the free
blocks themselves. Free blocks and live allocations always tile the region.
 */
module Heap {
  import opened Common

  const HEADER_SIZE: nat := 16
  const HEADER_ALIGN: nat := 8
  const NULL: nat := 0
  const HEAP_START: nat := 0xFFFF_C000_0000_0000
  const HEAP_SIZE: nat := 8 * 1024 * 1024

  /** `size` bytes from `addr`. */
  datatype Block = Block(addr: nat, size: nat) {
    function End(): nat { addr + size }
  }

  /** The `FreeBlock` header stored at the start of a free block. */
  datatype Header = Header(size: nat, next: nat)

  // ---------------------------------------------------------------------
  // Alignment
  // ---------------------------------------------------------------------

  ghost predicate PowerOfTwo(a: nat) {
    exists k: nat :: a == Pow2(k)
  }

  predicate Aligned(addr: nat, align: nat)
    requires align > 0
  {
    addr % align == 0
  }

  /** `(addr + align - 1) & !(align - 1)` for a power of two, in 64 bits. */
  function AlignUp(addr: nat, align: nat): nat
    requires align > 0
  {
    var x := (addr + align - 1) % U64_LIMIT;
    x - x % align
  }

  /** Short of wrap-around, the least multiple of `align` not below `addr`. */
  lemma AlignUpIsLeast(addr: nat, align: nat)
    requires align > 0 && addr + align <= U64_LIMIT
    ensures AlignUp(addr, align) % align == 0
    ensures addr <= AlignUp(addr, align) < addr + align
  {
    var x := addr + align - 1;
    assert x % U64_LIMIT == x;
    RoundDown(x, align);
  }

  /** The rounding runs past 2^64 and comes out as zero. */
  lemma AlignUpWraps(addr: nat, align: nat)
    requires addr < U64_LIMIT && align <= U64_LIMIT && addr + align > U64_LIMIT
    ensures AlignUp(addr, align) == 0
  {
    var x := addr + align - 1 - U64_LIMIT;
    DivModUnique(addr + align - 1, U64_LIMIT, 1, x);
    DivModUnique(x, align, 0, x);
  }

  lemma {:induction false} Pow2Monotonic(j: nat, k: nat)
    requires j <= k
    ensures Pow2(j) <= Pow2(k)
    decreases k
  {
    if j < k { Pow2Monotonic(j, k - 1); }
  }

  predicate InHeap(addr: nat) {
    HEAP_START <= addr < HEAP_START + HEAP_SIZE
  }

  /** Every heap address is rounded up, not round to zero, exactly when the
      alignment is at most 2^45. */
  lemma HeapAlignmentBound(k: nat)
    requires k < 64
    ensures (forall addr: nat | InHeap(addr) :: AlignUp(addr, Pow2(k)) >= addr) <==> k <= 45
  {
    hide AlignUp;
    Pow2Values();
    if k <= 45 {
      Pow2Monotonic(k, 45);
      forall addr: nat | InHeap(addr)
        ensures AlignUp(addr, Pow2(k)) >= addr
      {
        AlignUpIsLeast(addr, Pow2(k));
      }
    } else {
      Pow2Monotonic(46, k);
      Pow2Monotonic(k, 64);
      assert InHeap(HEAP_START + 8);
      AlignUpWraps(HEAP_START + 8, Pow2(k));
    }
  }

  lemma {:induction false} Pow2Sum(j: nat, k: nat)
    ensures Pow2(j + k) == Pow2(j) * Pow2(k)
  {
    if j > 0 { Pow2Sum(j - 1, k); }
  }

  lemma Pow2Values()
    ensures Pow2(45) == 0x2000_0000_0000 && Pow2(46) == 0x4000_0000_0000 && Pow2(47) == 0x8000_0000_0000
    ensures Pow2(64) == U64_LIMIT
  {
    assert Pow2(3) == 8;
    Pow2Sum(3, 3);
    Pow2Sum(6, 3);
    assert Pow2(9) == 512;
    Pow2Sum(9, 9);
    assert Pow2(18) == 0x4_0000;
    Pow2Sum(18, 18);
    assert Pow2(36) == 0x10_0000_0000;
    Pow2Sum(36, 9);
    Pow2Sum(36, 18);
    assert Pow2(54) == 0x40_0000_0000_0000;
    Pow2Sum(54, 9);
    assert Pow2(63) == 0x8000_0000_0000_0000;
  }

  lemma AlignmentIsMultiple(a: nat)
    requires PowerOfTwo(a) && a >= HEADER_ALIGN
    ensures a % HEADER_ALIGN == 0
  {
    var k: nat :| a == Pow2(k);
    assert Pow2(2) == 4;
    if k < 3 {
      Pow2Monotonic(k, 2);
    } else {
      assert Pow2(k) == 2 * Pow2(k - 1) == 4 * Pow2(k - 2) == 8 * Pow2(k - 3);
      DivModUnique(a, HEADER_ALIGN, Pow2(k - 3), 0);
    }
  }

  // ---------------------------------------------------------------------
  // Tiling
  // ---------------------------------------------------------------------

  predicate WellShaped(b: Block) {
    b.size >= HEADER_SIZE && b.addr % HEADER_ALIGN == 0 && b.size % HEADER_ALIGN == 0
  }

  predicate Owns(b: Block, x: nat) {
    b.addr <= x < b.End()
  }

  predicate Apart(a: Block, b: Block) {
    a.End() <= b.addr || b.End() <= a.addr
  }

  /** The blocks lie in [lo, hi), do not overlap and leave no gap. */
  ghost predicate Tiles(blocks: set<Block>, lo: nat, hi: nat) {
    && (forall b | b in blocks :: WellShaped(b) && lo <= b.addr && b.End() <= hi)
    && (forall a, b | a in blocks && b in blocks && a != b :: Apart(a, b))
    && (forall x | lo <= x < hi :: Covered(blocks, x))
  }

  ghost predicate Covered(blocks: set<Block>, x: nat) {
    exists b :: b in blocks && Owns(b, x)
  }

  lemma CoveredBy(blocks: set<Block>, x: nat, b: Block)
    requires b in blocks && Owns(b, x)
    ensures Covered(blocks, x)
  {
  }

  /** Replacing a block by blocks that tile it keeps the whole tiled. */
  lemma SplitKeepsTiles(blocks: set<Block>, lo: nat, hi: nat, r: Block, parts: set<Block>)
    requires Tiles(blocks, lo, hi) && r in blocks && Tiles(parts, r.addr, r.End())
    ensures Tiles(blocks - {r} + parts, lo, hi)
    ensures (blocks - {r}) !! parts
  {
    var after := blocks - {r} + parts;
    forall a, b | a in after && b in after && a != b
      ensures Apart(a, b)
    {
      if a in parts && b !in parts {
        assert Apart(r, b);
      } else if a !in parts && b in parts {
        assert Apart(a, r);
      }
    }
    forall x | lo <= x < hi
      ensures Covered(after, x)
    {
      assert Covered(blocks, x);
      var b :| b in blocks && Owns(b, x);
      if b == r {
        assert Covered(parts, x);
        var c :| c in parts && Owns(c, x);
        assert c in after;
      } else {
        assert b in after;
      }
    }
    forall b | b in blocks - {r}
      ensures b !in parts
    {
      assert Apart(r, b) && WellShaped(b);
    }
  }

  // ---------------------------------------------------------------------
  // First fit
  // ---------------------------------------------------------------------

  /** `start - b.addr` in 64 bits. */
  function Gap(b: Block, start: nat): int {
    if start >= b.addr then start - b.addr else start + U64_LIMIT - b.addr
  }

  /** The tests `alloc_inner` puts to one block: fit, suffix and prefix. */
  predicate Fits(b: Block, size: nat, align: nat)
    requires align > 0
  {
    var start := AlignUp(b.addr, align);
    && start + size < U64_LIMIT
    && start + size <= b.End()
    && (b.End() - (start + size) == 0 || b.End() - (start + size) >= HEADER_SIZE)
    && (Gap(b, start) == 0 || Gap(b, start) >= HEADER_SIZE)
  }

  /** Rounding the block's address up to the alignment runs past 2^64. */
  predicate Wraps(b: Block, align: nat) {
    b.addr + align > U64_LIMIT
  }

  /** What is left of `b` above and below `size` bytes taken at `start`. */
  function Suffix(b: Block, start: nat, size: nat): seq<Block> {
    if b.End() > start + size then [Block(start + size, b.End() - (start + size))] else []
  }

  function Prefix(b: Block, start: nat): seq<Block> {
    if start > b.addr then [Block(b.addr, start - b.addr)] else []
  }

  function Leftovers(b: Block, start: nat, size: nat): seq<Block> {
    Suffix(b, start, size) + Prefix(b, start)
  }

  function Without<T>(s: seq<T>, k: nat): seq<T>
    requires k < |s|
  {
    s[..k] + s[k + 1..]
  }

  /** The list after taking `size` bytes out of its `k`-th block. */
  ghost predicate Carved(free: seq<Block>, k: nat, size: nat, align: nat, after: seq<Block>)
    requires align > 0 && k < |free|
  {
    after == Leftovers(free[k], AlignUp(free[k].addr, align), size) + Without(free, k)
  }

  ghost predicate NoneFits(free: seq<Block>, size: nat, align: nat)
    requires align > 0
  {
    forall j: nat | j < |free| :: !Fits(free[j], size, align)
  }

  /** The `k`-th block is the first that passes the tests. */
  ghost predicate FirstFit(free: seq<Block>, k: nat, size: nat, align: nat)
    requires align > 0
  {
    k < |free| && Fits(free[k], size, align) && forall j: nat | j < k :: !Fits(free[j], size, align)
  }

  lemma FirstFitIsUnique(free: seq<Block>, j: nat, k: nat, size: nat, align: nat)
    requires align > 0 && FirstFit(free, j, size, align) && FirstFit(free, k, size, align)
    ensures j == k
  {
    hide Fits;
  }

  ghost function AsSet(s: seq<Block>): set<Block> {
    set b | b in s
  }

  ghost predicate NoRepeats(s: seq<Block>) {
    forall i, j | 0 <= i < j < |s| :: s[i] != s[j]
  }

  /** `size` bytes at `start` can be taken out of `b`, leaving usable ends. */
  predicate CutOk(b: Block, start: nat, size: nat) {
    && start % HEADER_ALIGN == 0 && size % HEADER_ALIGN == 0 && size >= HEADER_SIZE
    && b.addr <= start && start + size <= b.End()
    && (b.End() == start + size || b.End() - (start + size) >= HEADER_SIZE)
    && (start == b.addr || start - b.addr >= HEADER_SIZE)
  }

  /** The pieces carved from a fitting block tile that block. */
  lemma PiecesTile(b: Block, start: nat, size: nat)
    requires WellShaped(b) && CutOk(b, start, size)
    ensures Block(start, size) !in Leftovers(b, start, size)
    ensures Tiles(AsSet(Leftovers(b, start, size)) + {Block(start, size)}, b.addr, b.End())
    ensures NoRepeats(Leftovers(b, start, size))
  {
    var a := Block(start, size);
    var above, below := Block(start + size, b.End() - (start + size)), Block(b.addr, start - b.addr);
    var parts := AsSet(Leftovers(b, start, size)) + {a};
    EightAligned(b, start, size);
    hide Covered;
    assert parts == {a} + (if b.End() > start + size then {above} else {}) + (if start > b.addr then {below} else {});
    forall x | b.addr <= x < b.End()
      ensures Covered(parts, x)
    {
      var o := if Owns(below, x) then below else if Owns(a, x) then a else above;
      CoveredBy(parts, x, o);
    }
  }

  lemma EightAligned(b: Block, start: nat, size: nat)
    requires b.addr % 8 == 0 && b.size % 8 == 0 && start % 8 == 0 && size % 8 == 0
    ensures (start + size) % 8 == 0 && (b.End() - (start + size)) % 8 == 0 && (start - b.addr) % 8 == 0
  {
  }

  /** Where a fitting block is cut: aligned, inside, and leaving usable ends. */
  lemma CutPoint(b: Block, size: nat, align: nat)
    requires PowerOfTwo(align) && align >= HEADER_ALIGN && !Wraps(b, align)
    requires size % HEADER_ALIGN == 0 && size >= HEADER_SIZE && Fits(b, size, align)
    ensures var start := AlignUp(b.addr, align);
            Aligned(start, align) && CutOk(b, start, size)
  {
    AlignmentIsMultiple(align);
    AlignUpIsLeast(b.addr, align);
    MultipleOfMultiple(AlignUp(b.addr, align), align, HEADER_ALIGN);
  }

  // ---------------------------------------------------------------------
  // First fit, by where a block can be cut
  // ---------------------------------------------------------------------

  /** `start` is the least multiple of `align` not below `addr`. */
  predicate FirstMultiple(start: nat, addr: nat, align: nat)
    requires align > 0
  {
    start % align == 0 && addr <= start < addr + align
  }

  /** `b` can serve the request at `start`. */
  predicate Serves(b: Block, size: nat, align: nat, start: nat)
    requires align > 0
  {
    FirstMultiple(start, b.addr, align) && CutOk(b, start, size)
  }

  ghost predicate NoneWraps(free: seq<Block>, align: nat) {
    forall k: nat | k < |free| :: !Wraps(free[k], align)
  }

  /** Some block serves the request. */
  ghost predicate Servable(free: seq<Block>, size: nat, align: nat)
    requires align > 0
  {
    exists k: nat, start: nat :: k < |free| && Serves(free[k], size, align, start)
  }

  /** The `k`-th block is the first that serves the request, at `start`. */
  ghost predicate ServesFirst(free: seq<Block>, size: nat, align: nat, k: nat, start: nat)
    requires align > 0
  {
    && k < |free| && Serves(free[k], size, align, start)
    && forall j: nat, other: nat | j < k :: !Serves(free[j], size, align, other)
  }

  lemma FirstMultipleIsUnique(a: nat, b: nat, addr: nat, align: nat)
    requires align > 0 && FirstMultiple(a, addr, align) && FirstMultiple(b, addr, align)
    ensures a == b
  {
    var k := a / align - b / align;
    assert a - b == align * k;
    ScaledApart(align, k);
  }

  /** A block passes the tests exactly when it can be cut at the first multiple
      of the alignment inside it. */
  lemma FitsWhenServes(b: Block, size: nat, align: nat, start: nat)
    requires PowerOfTwo(align) && align >= HEADER_ALIGN && !Wraps(b, align) && b.End() < U64_LIMIT
    requires size % HEADER_ALIGN == 0 && size >= HEADER_SIZE
    ensures Serves(b, size, align, start) <==> Fits(b, size, align) && start == AlignUp(b.addr, align)
  {
    hide AlignUp, PowerOfTwo;
    AlignUpIsLeast(b.addr, align);
    if Fits(b, size, align) {
      CutPoint(b, size, align);
    }
    if Serves(b, size, align, start) {
      FirstMultipleIsUnique(start, AlignUp(b.addr, align), b.addr, align);
    }
  }

  /** Over a list whose first `n` blocks do not wrap. */
  lemma FirstFitServes(free: seq<Block>, n: nat, size: nat, align: nat)
    requires PowerOfTwo(align) && align >= HEADER_ALIGN && n <= |free| && NoneWraps(free[..n], align)
    requires forall k: nat | k < |free| :: free[k].End() < U64_LIMIT
    requires size % HEADER_ALIGN == 0 && size >= HEADER_SIZE
    ensures forall k: nat, start: nat | k < n ::
              Serves(free[k], size, align, start) <==> Fits(free[k], size, align) && start == AlignUp(free[k].addr, align)
  {
    hide AlignUp, Fits, Serves, PowerOfTwo;
    forall k: nat, start: nat | k < n
      ensures Serves(free[k], size, align, start) <==> Fits(free[k], size, align) && start == AlignUp(free[k].addr, align)
    {
      assert free[..n][k] == free[k];
      FitsWhenServes(free[k], size, align, start);
    }
  }

  /** A multiple of a power of two leaves room for one more below 2^64, so a
      block that serves a request does not wrap. */
  lemma NoWrapAt(start: nat, align: nat)
    requires PowerOfTwo(align) && 0 < align < U64_LIMIT && start % align == 0 && start < U64_LIMIT
    ensures start + align <= U64_LIMIT
  {
    hide Pow2;
    Pow2Values();
    var k: nat :| align == Pow2(k);
    if k > 64 {
      Pow2Monotonic(64, k);
    } else {
      Pow2Sum(k, 64 - k);
      MultipleBelow(start, align, Pow2(64 - k));
    }
  }

  lemma MultipleBelow(x: nat, d: nat, m: nat)
    requires d > 0 && x % d == 0 && x < d * m
    ensures x + d <= d * m
  {
    assert d * m - x == d * (m - x / d);
    ScaledApart(d, m - x / d);
  }

  lemma ServingDoesNotWrap(b: Block, size: nat, align: nat, start: nat)
    requires PowerOfTwo(align) && 0 < align < U64_LIMIT && b.End() < U64_LIMIT && Serves(b, size, align, start)
    ensures !Wraps(b, align)
  {
    hide PowerOfTwo;
    NoWrapAt(start, align);
  }

  /** `size` bytes at `start` have been taken out of the `k`-th block. */
  ghost predicate CutFrom(free0: seq<Block>, live0: set<Block>, size: nat, k: nat, start: nat, r: nat,
                          free: seq<Block>, live: set<Block>)
  {
    && k < |free0| && r == start
    && Block(start, size) !in live0 && live == live0 + {Block(start, size)}
    && free == Leftovers(free0[k], start, size) + Without(free0, k)
  }

  /** What a request comes to, short of wrap-around: a cut from the first block
      that serves it, and null exactly when there is none. */
  ghost predicate Answered(free0: seq<Block>, live0: set<Block>, size: nat, align: nat, r: nat,
                           free: seq<Block>, live: set<Block>)
    requires align > 0
  {
    && (forall k: nat, start: nat | k < |free0| && ServesFirst(free0, size, align, k, start) && NoneWraps(free0[..k], align) ::
          CutFrom(free0, live0, size, k, start, r, free, live))
    && (NoneWraps(free0, align) ==>
          && (r != NULL <==> Servable(free0, size, align))
          && (r == NULL ==> free == free0 && live == live0))
  }

  /** The first block that serves is the first that passes the tests. */
  lemma ServesFirstFits(free: seq<Block>, size: nat, align: nat, k: nat, start: nat)
    requires PowerOfTwo(align) && HEADER_ALIGN <= align < U64_LIMIT
    requires forall j: nat | j < |free| :: free[j].End() < U64_LIMIT
    requires size % HEADER_ALIGN == 0 && size >= HEADER_SIZE
    requires ServesFirst(free, size, align, k, start) && NoneWraps(free[..k], align)
    ensures FirstFit(free, k, size, align) && start == AlignUp(free[k].addr, align) && !Wraps(free[k], align)
  {
    hide AlignUp, Fits, Serves, PowerOfTwo;
    ServingDoesNotWrap(free[k], size, align, start);
    FitsWhenServes(free[k], size, align, start);
    FirstFitServes(free, k, size, align);
    forall j: nat | j < k
      ensures !Fits(free[j], size, align)
    {
      assert !Serves(free[j], size, align, AlignUp(free[j].addr, align));
    }
  }

  lemma AnsweredNone(free: seq<Block>, live: set<Block>, size: nat, align: nat)
    requires PowerOfTwo(align) && HEADER_ALIGN <= align < U64_LIMIT
    requires forall k: nat | k < |free| :: free[k].End() < U64_LIMIT
    requires size % HEADER_ALIGN == 0 && size >= HEADER_SIZE && NoneFits(free, size, align)
    ensures Answered(free, live, size, align, NULL, free, live)
  {
    hide AlignUp, Fits, Serves, PowerOfTwo, ServesFirst, NoneWraps, CutFrom;
    forall k: nat, start: nat | k < |free| && NoneWraps(free[..k], align)
      ensures !ServesFirst(free, size, align, k, start)
    {
      if ServesFirst(free, size, align, k, start) {
        ServesFirstFits(free, size, align, k, start);
      }
    }
    if NoneWraps(free, align) {
      assert free[..|free|] == free;
      FirstFitServes(free, |free|, size, align);
    }
  }

  lemma AnsweredCut(free0: seq<Block>, live0: set<Block>, k: nat, size: nat, align: nat, r: nat,
                    head: nat, headers: map<nat, Header>, free: seq<Block>, live: set<Block>, lo: nat, hi: nat)
    requires PowerOfTwo(align) && HEADER_ALIGN <= align < U64_LIMIT
    requires forall j: nat | j < |free0| :: free0[j].End() < U64_LIMIT
    requires size % HEADER_ALIGN == 0 && size >= HEADER_SIZE && FirstFit(free0, k, size, align)
    requires TookFrom(free0, live0, k, size, align, r, head, headers, free, live, lo, hi)
    ensures Answered(free0, live0, size, align, r, free, live)
  {
    hide AlignUp, Fits, Serves, PowerOfTwo, ServesFirst, NoneWraps, Leftovers, Without, Linked, Consistent, Ruined;
    forall j: nat, start: nat | j < |free0| && ServesFirst(free0, size, align, j, start) && NoneWraps(free0[..j], align)
      ensures CutFrom(free0, live0, size, j, start, r, free, live)
    {
      ServesFirstFits(free0, size, align, j, start);
      FirstFitIsUnique(free0, j, k, size, align);
    }
    if NoneWraps(free0, align) {
      assert free0[..|free0|] == free0;
      FirstFitServes(free0, |free0|, size, align);
      TookKeepsValid(free0, live0, k, size, align, r, head, headers, free, live, lo, hi);
      assert Serves(free0[k], size, align, AlignUp(free0[k].addr, align));
    }
  }

  // ---------------------------------------------------------------------
  // The invariant of the list and its memory
  // ---------------------------------------------------------------------

  ghost function AddrAt(free: seq<Block>, k: nat): nat {
    if k < |free| then free[k].addr else NULL
  }

  /** `headers` spells the list `free` from `head`. */
  ghost predicate Linked(head: nat, headers: map<nat, Header>, free: seq<Block>) {
    && head == AddrAt(free, 0)
    && forall k: nat | k < |free| ::
         && free[k].addr in headers
         && headers[free[k].addr] == Header(free[k].size, AddrAt(free, k + 1))
  }

  ghost predicate Consistent(free: seq<Block>, live: set<Block>, lo: nat, hi: nat) {
    && (lo < hi ==> lo > NULL) && hi < U64_LIMIT
    && NoRepeats(free) && AsSet(free) !! live
    && Tiles(AsSet(free) + live, lo, hi)
  }

  lemma DistinctAddresses(free: seq<Block>, live: set<Block>, lo: nat, hi: nat)
    requires Consistent(free, live, lo, hi)
    ensures forall i, j | 0 <= i < j < |free| :: free[i].addr != free[j].addr
    ensures forall i | 0 <= i < |free| :: free[i].addr != NULL && WellShaped(free[i]) && free[i].End() <= hi
    ensures hi < U64_LIMIT
  {
    forall i | 0 <= i < |free|
      ensures free[i].addr != NULL && WellShaped(free[i]) && free[i].End() <= hi
    {
      assert free[i] in AsSet(free) + live;
    }
    forall i, j | 0 <= i < j < |free|
      ensures free[i].addr != free[j].addr
    {
      assert free[i] in AsSet(free) + live && free[j] in AsSet(free) + live;
      assert Apart(free[i], free[j]);
    }
  }

  lemma CarveKeepsConsistent(free: seq<Block>, live: set<Block>, lo: nat, hi: nat, k: nat, start: nat, size: nat)
    requires Consistent(free, live, lo, hi) && k < |free| && CutOk(free[k], start, size)
    ensures Block(start, size) !in live
    ensures Consistent(Leftovers(free[k], start, size) + Without(free, k), live + {Block(start, size)}, lo, hi)
  {
    var b := free[k];
    var a := Block(start, size);
    var all := AsSet(free) + live;
    assert b in all;
    PiecesTile(b, start, size);
    var pieces := Leftovers(b, start, size);
    var rest := Without(free, k);
    RemovedOnce(free, k);
    SplitKeepsTiles(all, lo, hi, b, AsSet(pieces) + {a});
    var after := pieces + rest;
    assert b !in live;
    assert AsSet(after) + (live + {a}) == all - {b} + (AsSet(pieces) + {a});
    forall i, j | 0 <= i < j < |after|
      ensures after[i] != after[j]
    {
      if i < |pieces| <= j {
        assert after[i] in AsSet(pieces) && after[j] in AsSet(rest);
      }
    }
  }

  lemma RemovedOnce(s: seq<Block>, k: nat)
    requires NoRepeats(s) && k < |s|
    ensures AsSet(Without(s, k)) == AsSet(s) - {s[k]}
    ensures NoRepeats(Without(s, k))
  {
    var r := Without(s, k);
    forall b | b in AsSet(s) - {s[k]}
      ensures b in r
    {
      var i :| 0 <= i < |s| && s[i] == b;
      assert r[if i < k then i else i - 1] == b;
    }
  }

  // ---------------------------------------------------------------------
  // The list in memory
  // ---------------------------------------------------------------------

  /** A pointer variable of the list: the head, or the `next` word of a block. */
  datatype Slot = Head | NextOf(addr: nat)

  ghost function SlotBefore(free: seq<Block>, k: nat): Slot
    requires k <= |free|
  {
    if k == 0 then Head else NextOf(free[k - 1].addr)
  }

  ghost predicate FreshAddress(free: seq<Block>, addr: nat) {
    addr != NULL && forall i | 0 <= i < |free| :: free[i].addr != addr
  }

  ghost predicate DistinctAddrs(free: seq<Block>) {
    forall i, j | 0 <= i < j < |free| :: free[i].addr != free[j].addr
  }

  /** The pointer before the `k`-th block leads to it. */
  lemma FollowSlot(head: nat, headers: map<nat, Header>, free: seq<Block>, k: nat)
    requires Linked(head, headers, free) && k <= |free|
    ensures k == 0 ==> SlotBefore(free, k) == Head && head == AddrAt(free, k)
    ensures k > 0 ==> && SlotBefore(free, k) == NextOf(free[k - 1].addr) && free[k - 1].addr in headers
                      && headers[free[k - 1].addr].next == AddrAt(free, k)
    ensures k < |free| ==> free[k].addr in headers && headers[free[k].addr].size == free[k].size
  {
  }

  lemma PushLinked(head: nat, headers: map<nat, Header>, free: seq<Block>, addr: nat, size: nat)
    requires Linked(head, headers, free) && FreshAddress(free, addr)
    ensures Linked(addr, headers[addr := Header(size, head)], [Block(addr, size)] + free)
  {
    var after := [Block(addr, size)] + free;
    forall k: nat | k < |after|
      ensures var h := headers[addr := Header(size, head)];
              after[k].addr in h && h[after[k].addr] == Header(after[k].size, AddrAt(after, k + 1))
    {
      if k > 0 { assert after[k] == free[k - 1]; }
    }
  }

  /** Making the pointer before a block skip it removes it from the list. */
  lemma UnlinkHead(head: nat, headers: map<nat, Header>, free: seq<Block>)
    requires Linked(head, headers, free) && free != []
    ensures Linked(headers[free[0].addr].next, headers, Without(free, 0))
  {
    var rest := Without(free, 0);
    assert forall j | 0 <= j < |rest| :: rest[j] == free[j + 1];
    forall j: nat | j < |rest|
      ensures rest[j].addr in headers
      ensures headers[rest[j].addr] == Header(rest[j].size, AddrAt(rest, j + 1))
    {
      assert AddrAt(rest, j + 1) == AddrAt(free, j + 2);
    }
  }

  lemma UnlinkInner(head: nat, headers: map<nat, Header>, free: seq<Block>, k: nat)
    requires Linked(head, headers, free) && DistinctAddrs(free) && 0 < k < |free|
    ensures var p := free[k - 1].addr;
            Linked(head, headers[p := Header(headers[p].size, headers[free[k].addr].next)], Without(free, k))
  {
    var rest := Without(free, k);
    var p := free[k - 1].addr;
    var after := headers[p := Header(headers[p].size, headers[free[k].addr].next)];
    forall j: nat | j < |rest|
      ensures rest[j].addr in after
      ensures after[rest[j].addr] == Header(rest[j].size, AddrAt(rest, j + 1))
    {
      var i := if j < k then j else j + 1;
      assert rest[j] == free[i] && free[i].addr in headers;
      if j == k - 1 {
        assert AddrAt(rest, k) == AddrAt(free, k + 1);
      } else {
        assert AddrAt(rest, j + 1) == AddrAt(free, i + 1);
        assert free[i].addr != p;
      }
    }
  }

  /** A cut keeps the invariant, and the ends it gives back are new to the
      shortened list. */
  lemma CarvePlan(free: seq<Block>, live: set<Block>, lo: nat, hi: nat, k: nat, start: nat, size: nat)
    requires Consistent(free, live, lo, hi) && k < |free| && CutOk(free[k], start, size)
    ensures DistinctAddrs(free) && free[k].addr <= start && start != NULL
    ensures FreshAddress(Without(free, k), free[k].addr)
    ensures start + size < free[k].End() ==>
              FreshAddress(Prefix(free[k], start) + Without(free, k), start + size)
    ensures Block(start, size) !in live
    ensures Consistent(Leftovers(free[k], start, size) + Without(free, k), live + {Block(start, size)}, lo, hi)
  {
    DistinctAddresses(free, live, lo, hi);
    CarveKeepsConsistent(free, live, lo, hi, k, start, size);
    var rest := Without(free, k);
    forall i | 0 <= i < |rest|
      ensures rest[i].addr != free[k].addr
      ensures start + size < free[k].End() ==> rest[i].addr != start + size
    {
      assert rest[i] == free[if i < k then i else i + 1];
      assert rest[i] in AsSet(free) + live && free[k] in AsSet(free) + live;
      assert Apart(rest[i], free[k]);
    }
  }

  datatype Layout = Layout(size: nat, align: nat)

  const ISIZE_MAX: nat := 0x7FFF_FFFF_FFFF_FFFF

  function RoundUpTo(x: nat, align: nat): nat
    requires align > 0
  {
    var y := x + align - 1;
    y - y % align
  }

  function Max(a: nat, b: nat): nat {
    if a < b then b else a
  }

  /** What `core::alloc::Layout` guarantees. */
  ghost predicate LayoutOk(l: Layout) {
    0 < l.align < U64_LIMIT && PowerOfTwo(l.align) && RoundUpTo(l.size, l.align) <= ISIZE_MAX
  }

  /** `size_align`: `None` is the panic of `align_to(..).expect(..)`. */
  function SizeAlign(l: Layout): (r: Option<(nat, nat)>)
    requires l.align > 0
  {
    var align := Max(l.align, HEADER_ALIGN);
    var padded := RoundUpTo(l.size, align);
    if padded > ISIZE_MAX then None else Some((Max(padded, HEADER_SIZE), align))
  }

  /** A normalised request holds the layout and can be turned back into a free
      block. */
  lemma SizeAlignOk(l: Layout)
    requires LayoutOk(l) && SizeAlign(l).Some?
    ensures var (size, align) := SizeAlign(l).value;
            && l.size <= size && (size > HEADER_SIZE ==> size % align == 0 && size < l.size + align)
            && size >= HEADER_SIZE && size % HEADER_ALIGN == 0
            && PowerOfTwo(align) && HEADER_ALIGN <= align < U64_LIMIT && align % l.align == 0 && size < U64_LIMIT
  {
    hide PowerOfTwo, RoundUpTo;
    var align := Max(l.align, HEADER_ALIGN);
    NormalAlignment(l.align);
    AlignmentIsMultiple(align);
    RoundUpToFacts(l.size, align);
    MultipleOfMultiple(RoundUpTo(l.size, align), align, HEADER_ALIGN);
  }

  lemma RoundUpToFacts(x: nat, align: nat)
    requires align > 0
    ensures x <= RoundUpTo(x, align) < x + align && RoundUpTo(x, align) % align == 0
  {
    RoundDown(x + align - 1, align);
  }

  lemma NormalAlignment(a: nat)
    requires PowerOfTwo(a) && a > 0
    ensures PowerOfTwo(Max(a, HEADER_ALIGN)) && Max(a, HEADER_ALIGN) % a == 0
  {
    var k: nat :| a == Pow2(k);
    assert Pow2(0) == 1 && Pow2(1) == 2 && Pow2(2) == 4 && Pow2(3) == HEADER_ALIGN;
    if k >= 3 {
      Pow2Monotonic(3, k);
      MultipleMod(1, a);
    } else {
      assert k == 0 || k == 1 || k == 2;
      assert PowerOfTwo(HEADER_ALIGN);
    }
  }

  // ---------------------------------------------------------------------
  // Past the alignment bound
  // ---------------------------------------------------------------------

  /** Memory no longer spells a list that could tile the region with anything. */
  ghost predicate Ruined(head: nat, headers: map<nat, Header>, lo: nat, hi: nat) {
    forall free: seq<Block>, live: set<Block> :: Linked(head, headers, free) ==> !Consistent(free, live, lo, hi)
  }

  /** The header of a suffix that begins at address `size`, wherever that is:
      memory has no bounds here, where a machine may fault. */
  ghost predicate SuffixStored(head: nat, headers: map<nat, Header>, size: nat, b: Block) {
    size < b.End() ==> head == size && size in headers && headers[size] == Header(b.End() - size, b.addr)
  }

  /** What taking the `k`-th block comes to: a cut that keeps the tiling, or, if
      rounding its address wraps, null and a ruined list. */
  ghost predicate TookFrom(free0: seq<Block>, live0: set<Block>, k: nat, size: nat, align: nat, r: nat,
                           head: nat, headers: map<nat, Header>, free: seq<Block>, live: set<Block>, lo: nat, hi: nat)
    requires align > 0
  {
    && k < |free0|
    && if Wraps(free0[k], align) then
         r == NULL && live == live0 && Ruined(head, headers, lo, hi) && SuffixStored(head, headers, size, free0[k])
       else
         && Linked(head, headers, free) && Consistent(free, live, lo, hi)
         && r == AlignUp(free0[k].addr, align) && r != NULL && Aligned(r, align)
         && Block(r, size) !in live0 && live == live0 + {Block(r, size)}
         && Carved(free0, k, size, align, free)
  }

  /** A prefix that reaches to 2^64 at the head of the list, with or without a
      suffix before it. */
  lemma WrappedPrefixRuins(head: nat, headers: map<nat, Header>, lo: nat, hi: nat, addr: nat, size: nat)
    requires NULL < addr < U64_LIMIT && addr in headers
    requires || (head == addr && headers[addr].size == U64_LIMIT - addr)
             || (head == size && size > NULL && size in headers && headers[size].next == addr
                 && (size != addr ==> headers[addr].size == U64_LIMIT - addr))
    ensures Ruined(head, headers, lo, hi)
  {
    hide Linked, Consistent;
    forall free: seq<Block>, live: set<Block> | Linked(head, headers, free)
      ensures !Consistent(free, live, lo, hi)
    {
      WrappedPrefixListed(head, headers, lo, hi, addr, size, free, live);
    }
  }

  lemma WrappedPrefixListed(head: nat, headers: map<nat, Header>, lo: nat, hi: nat, addr: nat, size: nat,
                            free: seq<Block>, live: set<Block>)
    requires NULL < addr < U64_LIMIT && addr in headers && Linked(head, headers, free)
    requires || (head == addr && headers[addr].size == U64_LIMIT - addr)
             || (head == size && size > NULL && size in headers && headers[size].next == addr
                 && (size != addr ==> headers[addr].size == U64_LIMIT - addr))
    ensures !Consistent(free, live, lo, hi)
  {
    hide Consistent;
    assert free != [] && free[0].addr == head;
    if head != addr || headers[addr].size != U64_LIMIT - addr {
      assert |free| > 1 && free[1].addr == addr;
    }
    if Consistent(free, live, lo, hi) {
      DistinctAddresses(free, live, lo, hi);
    }
  }

  /** No block of the kernel heap wraps at an alignment up to 2^45. */
  lemma KernelHeapNeverWraps(free: seq<Block>, live: set<Block>, align: nat)
    requires Consistent(free, live, HEAP_START, HEAP_START + HEAP_SIZE) && align <= 0x2000_0000_0000
    ensures forall k | 0 <= k < |free| :: !Wraps(free[k], align)
  {
    DistinctAddresses(free, live, HEAP_START, HEAP_START + HEAP_SIZE);
  }

  /** On the heap as it is handed over, a request aligned to 2^47 is one that
      wraps. */
  lemma WideAlignmentWraps()
    ensures var whole := [Block(HEAP_START, HEAP_SIZE)];
            var request := SizeAlign(Layout(16, Pow2(47)));
            && LayoutOk(Layout(16, Pow2(47))) && request.Some?
            && FirstFit(whole, 0, request.value.0, request.value.1) && Wraps(whole[0], request.value.1)
  {
    Pow2Values();
    var align := Pow2(47);
    AlignUpWraps(HEAP_START, align);
    DivModUnique(align + 15, align, 1, 15);
  }

  class LinkedListAllocator {
    var head: nat
    /** The header words readable at each address of the region. */
    var headers: map<nat, Header>
    ghost var free: seq<Block>
    ghost var live: set<Block>
    ghost var lo: nat
    ghost var hi: nat

    ghost predicate Valid()
      reads this
    {
      Linked(head, headers, free) && Consistent(free, live, lo, hi)
    }

    constructor ()
      ensures Valid() && free == [] && live == {} && lo == hi
    {
      head, headers, free, live, lo, hi := NULL, map[], [], {}, 0, 0;
    }

    /** Hand over a region as one free block. */
    method Init(start: nat, size: nat)
      requires start > NULL && start % HEADER_ALIGN == 0 && size >= HEADER_SIZE && size % HEADER_ALIGN == 0
      requires start + size < U64_LIMIT
      modifies this
      ensures Valid() && free == [Block(start, size)] && live == {} && lo == start && hi == start + size
    {
      head, free, live, lo, hi := NULL, [], {}, start, start + size;
      AddFree(start, size);
      assert AsSet(free) + live == {Block(start, size)};
      forall x | lo <= x < hi
        ensures Covered({Block(start, size)}, x)
      {
        assert Owns(Block(start, size), x);
      }
    }

    /** Push a block onto the head of the list. */
    method AddFree(addr: nat, size: nat)
      modifies this`head, this`headers, this`free
      ensures head == addr && headers == old(headers)[addr := Header(size, old(head))]
      ensures free == [Block(addr, size)] + old(free)
      ensures Linked(old(head), old(headers), old(free)) && FreshAddress(old(free), addr) ==> Linked(head, headers, free)
    {
      if Linked(head, headers, free) && FreshAddress(free, addr) {
        PushLinked(head, headers, free, addr, size);
      }
      headers := headers[addr := Header(size, head)];
      head := addr;
      free := [Block(addr, size)] + free;
    }

    function Load(slot: Slot): nat
      requires slot.NextOf? ==> slot.addr in headers
      reads this
    {
      match slot
      case Head => head
      case NextOf(a) => headers[a].next
    }

    /** `*prev = (*region).next` */
    method Unlink(prev: Slot, region: nat, ghost k: nat)
      requires Linked(head, headers, free) && DistinctAddrs(free)
      requires k < |free| && prev == SlotBefore(free, k) && region == free[k].addr
      modifies this`head, this`headers, this`free
      ensures Linked(head, headers, free) && free == Without(old(free), k)
    {
      var next := headers[region].next;
      match prev {
        case Head =>
          UnlinkHead(head, headers, free);
          head := next;
        case NextOf(a) =>
          UnlinkInner(head, headers, free, k);
          headers := headers[a := Header(headers[a].size, next)];
      }
      free := Without(free, k);
    }

    /** First fit. No block passes: null, and nothing changes. The first that
        does is cut at its rounded address and its ends go back on the list;
        but when that rounding wraps, null comes out and the list is ruined. */
    method AllocInner(size: nat, align: nat) returns (r: nat)
      requires Valid()
      requires PowerOfTwo(align) && HEADER_ALIGN <= align < U64_LIMIT
      requires size >= HEADER_SIZE && size % HEADER_ALIGN == 0
      modifies this`head, this`headers, this`free, this`live
      ensures NoneFits(old(free), size, align) ==>
                r == NULL && Valid() && free == old(free) && live == old(live)
      ensures forall k: nat | FirstFit(old(free), k, size, align) ::
                TookFrom(old(free), old(live), k, size, align, r, head, headers, free, live, lo, hi)
      ensures NoneFits(old(free), size, align) || exists k: nat :: FirstFit(old(free), k, size, align)
      ensures Answered(old(free), old(live), size, align, r, free, live)
      ensures NoneWraps(old(free), align) ==> Valid()
    {
      hide AlignUp, Fits, Consistent, PowerOfTwo, TookFrom, Answered, NoneWraps, Linked;
      DistinctAddresses(free, live, lo, hi);
      var found, prev, here, start, k := FindFit(size, align);
      if !found {
        AnsweredNone(free, live, size, align);
        return NULL;
      }
      Cut(prev, here, start, size, align, k);
      AnsweredCut(old(free), old(live), k, size, align, start, head, headers, free, live, lo, hi);
      if NoneWraps(old(free), align) {
        TookKeepsValid(old(free), old(live), k, size, align, start, head, headers, free, live, lo, hi);
      }
      forall j: nat | FirstFit(old(free), j, size, align)
        ensures j == k
      {
        FirstFitIsUnique(old(free), j, k, size, align);
      }
      return start;
    }

    /** The search along the list for the first block that passes the tests, and
        the pointer that leads to it. */
    method FindFit(size: nat, align: nat) returns (found: bool, prev: Slot, here: Block, start: nat, ghost k: nat)
      requires Valid() && PowerOfTwo(align) && align >= HEADER_ALIGN
      requires size % HEADER_ALIGN == 0 && size >= HEADER_SIZE
      ensures !found ==> NoneFits(free, size, align)
      ensures found ==> && FirstFit(free, k, size, align) && start == AlignUp(here.addr, align)
                        && here == free[k] && prev == SlotBefore(free, k)
    {
      hide AlignUp, Fits, CutOk, Consistent, Linked, PowerOfTwo, FirstMultiple, Wraps, WellShaped, SlotBefore;
      DistinctAddresses(free, live, lo, hi);
      FollowSlot(head, headers, free, 0);
      prev, here, start, k := Head, Block(NULL, 0), NULL, 0;
      while Load(prev) != NULL
        invariant k <= |free| && prev == SlotBefore(free, k)
        invariant prev.NextOf? ==> prev.addr in headers
        invariant Load(prev) == AddrAt(free, k)
        invariant forall j: nat | j < k :: !Fits(free[j], size, align)
        decreases |free| - k
      {
        FollowSlot(head, headers, free, k);
        var region := Load(prev);
        here := Block(region, headers[region].size);
        found, start := Examine(here, size, align);
        if found {
          return;
        }
        FollowSlot(head, headers, free, k + 1);
        prev, k := NextOf(region), k + 1;
      }
      found := false;
    }

    /** Taking a block that passed the tests, in both cases. */
    method Cut(prev: Slot, here: Block, start: nat, size: nat, align: nat, ghost k: nat)
      requires Valid() && k < |free| && here == free[k] && prev == SlotBefore(free, k)
      requires PowerOfTwo(align) && HEADER_ALIGN <= align < U64_LIMIT
      requires size >= HEADER_SIZE && size % HEADER_ALIGN == 0
      requires Fits(here, size, align) && start == AlignUp(here.addr, align)
      modifies this`head, this`headers, this`free, this`live
      ensures TookFrom(old(free), old(live), k, size, align, start, head, headers, free, live, lo, hi)
    {
      hide AlignUp, Aligned, Fits, Consistent, PowerOfTwo, CutOk, Linked, Without, Ruined, FreshAddress, DistinctAddrs;
      CutCases(free, live, lo, hi, k, size, align);
      Unlink(prev, here.addr, k);
      Republish(here, start, size);
      if Wraps(here, align) {
        WrappedPrefixRuins(head, headers, lo, hi, here.addr, size);
      } else {
        live := live + {Block(start, size)};
      }
    }

    /** The prefix and the suffix go back on the list, if there are any. */
    method Republish(here: Block, start: nat, size: nat)
      requires start + size <= here.End() && here.addr < U64_LIMIT
      modifies this`head, this`headers, this`free
      ensures here.addr <= start ==> free == Leftovers(here, start, size) + old(free)
      ensures && here.addr <= start && Linked(old(head), old(headers), old(free)) && FreshAddress(old(free), here.addr)
              && (start + size < here.End() ==> FreshAddress(Prefix(here, start) + old(free), start + size)) ==>
                Linked(head, headers, free)
      ensures here.addr > start ==>
                var pushed := old(headers)[here.addr := Header(Gap(here, start), old(head))];
                if start + size == here.End() then head == here.addr && headers == pushed
                else
                  head == start + size && headers == pushed[start + size := Header(here.End() - (start + size), here.addr)]
    {
      hide Linked, FreshAddress;
      var prefix := Gap(here, start);
      if prefix > 0 {
        AddFree(here.addr, prefix);
      }
      assert here.addr <= start ==> free == Prefix(here, start) + old(free);
      var excess := here.End() - (start + size);
      if excess > 0 {
        AddFree(start + size, excess);
      }
      assert here.addr <= start ==> free == Leftovers(here, start, size) + old(free);
    }

    /** Give a live block back; nothing is merged. */
    method DeallocInner(ptr: nat, size: nat)
      requires Valid() && Block(ptr, size) in live
      modifies this`head, this`headers, this`free, this`live
      ensures Valid()
      ensures free == [Block(ptr, size)] + old(free) && live == old(live) - {Block(ptr, size)}
    {
      ReturnKeepsConsistent(free, live, lo, hi, Block(ptr, size));
      AddFree(ptr, size);
      live := live - {Block(ptr, size)};
    }

    /** `GlobalAlloc::alloc`: the block holds the layout at its alignment. The
        heap survives exactly when the block that is taken does not wrap. */
    method Alloc(l: Layout) returns (r: Option<nat>)
      requires Valid() && LayoutOk(l)
      modifies this`head, this`headers, this`free, this`live
      ensures r.None? <==> SizeAlign(l).None?
      ensures Valid() <==> !TakesWrapped(old(free), l)
      ensures TakesWrapped(old(free), l) ==> r == Some(NULL) && Ruined(head, headers, lo, hi)
      ensures r.Some? && r.value != NULL ==>
                var (size, _) := SizeAlign(l).value;
                && r.value % l.align == 0 && size >= l.size
                && Block(r.value, size) !in old(live) && live == old(live) + {Block(r.value, size)}
      ensures Valid() && (r.None? || r.value == NULL) ==> free == old(free) && live == old(live)
      ensures SizeAlign(l).Some? ==>
                var (size, align) := SizeAlign(l).value;
                && Answered(old(free), old(live), size, align, r.value, free, live)
                && (NoneWraps(old(free), align) ==> Valid())
    {
      var request := SizeAlign(l);
      if request.None? {
        return None;
      }
      SizeAlignOk(l);
      var (size, align) := request.value;
      hide AlignUp, Fits, Linked, Consistent, PowerOfTwo, NoneFits, Wraps, Carved, FirstFit, SizeAlign, NoneWraps, Answered;
      var p := AllocInner(size, align);
      FirstFitDecides(old(free), size, align);
      if p != NULL {
        MultipleOfMultiple(p, align, l.align);
      }
      return Some(p);
    }

    /** `GlobalAlloc::dealloc` with the layout the block was requested with. */
    method Dealloc(ptr: nat, l: Layout)
      requires Valid() && l.align > 0 && SizeAlign(l).Some? && Block(ptr, SizeAlign(l).value.0) in live
      modifies this`head, this`headers, this`free, this`live
      ensures Valid()
      ensures var b := Block(ptr, SizeAlign(l).value.0);
              free == [b] + old(free) && live == old(live) - {b}
    {
      DeallocInner(ptr, SizeAlign(l).value.0);
    }

    /** A block given back is the one the same request gets next, and the list
        is then as it was. */
    method DeallocThenAlloc(ptr: nat, l: Layout) returns (r: Option<nat>)
      requires Valid() && LayoutOk(l) && SizeAlign(l).Some?
      requires Block(ptr, SizeAlign(l).value.0) in live && ptr % l.align == 0
      modifies this`head, this`headers, this`free, this`live
      ensures Valid() && r == Some(ptr) && free == old(free) && live == old(live)
    {
      hide Linked, Consistent, PowerOfTwo, SizeAlign, RoundUpTo, Answered, TakesWrapped, ServesFirst, NoneWraps, Ruined;
      SizeAlignOk(l);
      LiveBlock(free, live, lo, hi, ptr, SizeAlign(l).value.0);
      Dealloc(ptr, l);
      ReturnedServes(free, live, lo, hi, l, ptr);
      r := Alloc(l);
      ReturnedTaken(old(free), old(live), l, ptr, r.value, free, live);
    }

    /** The owner of a live block may write anything into it. */
    method UserWrite(b: Block, addr: nat, word: Header)
      requires Valid() && b in live && Owns(b, addr)
      modifies this`headers
      ensures Valid()
    {
      forall i | 0 <= i < |free|
        ensures free[i].addr != addr
      {
        assert free[i] in AsSet(free) + live && b in AsSet(free) + live;
        assert Apart(free[i], b);
      }
      headers := headers[addr := word];
    }
  }

  lemma TookKeepsValid(free0: seq<Block>, live0: set<Block>, k: nat, size: nat, align: nat, r: nat,
                       head: nat, headers: map<nat, Header>, free: seq<Block>, live: set<Block>, lo: nat, hi: nat)
    requires align > 0 && NoneWraps(free0, align)
    requires TookFrom(free0, live0, k, size, align, r, head, headers, free, live, lo, hi)
    ensures Linked(head, headers, free) && Consistent(free, live, lo, hi) && r != NULL
  {
  }

  /** The tests put to one block, in the order they are made: short of
      wrap-around, whether it can be cut at the first multiple of the alignment. */
  method Examine(here: Block, size: nat, align: nat) returns (fits: bool, start: nat)
    requires PowerOfTwo(align) && align >= HEADER_ALIGN && here.End() < U64_LIMIT
    requires size % HEADER_ALIGN == 0 && size >= HEADER_SIZE
    ensures fits == Fits(here, size, align) && start == AlignUp(here.addr, align)
    ensures !Wraps(here, align) ==> FirstMultiple(start, here.addr, align) && fits == CutOk(here, start, size)
  {
    hide PowerOfTwo, AlignUp;
    start := AlignUp(here.addr, align);
    if !Wraps(here, align) {
      AlignUpIsLeast(here.addr, align);
      FitsWhenServes(here, size, align, start);
    }
    if start + size >= U64_LIMIT {
      return false, start;
    }
    var end := start + size;
    if end > here.End() {
      return false, start;
    }
    var excess := here.End() - end;
    if excess > 0 && excess < HEADER_SIZE {
      return false, start;
    }
    var prefix := Gap(here, start);
    if 0 < prefix < HEADER_SIZE {
      return false, start;
    }
    return true, start;
  }

  lemma LiveBlock(free: seq<Block>, live: set<Block>, lo: nat, hi: nat, ptr: nat, size: nat)
    requires Consistent(free, live, lo, hi) && Block(ptr, size) in live
    ensures WellShaped(Block(ptr, size))
  {
    assert Block(ptr, size) in AsSet(free) + live;
  }

  /** A block at the head of the list serves the request it was made for. */
  lemma ReturnedServes(free: seq<Block>, live: set<Block>, lo: nat, hi: nat, l: Layout, ptr: nat)
    requires Consistent(free, live, lo, hi) && free != [] && LayoutOk(l) && SizeAlign(l).Some? && ptr % l.align == 0
    requires free[0] == Block(ptr, SizeAlign(l).value.0) && WellShaped(free[0])
    ensures ServesFirst(free, SizeAlign(l).value.0, SizeAlign(l).value.1, 0, ptr)
    ensures NoneWraps(free[..0], SizeAlign(l).value.1)
    ensures !TakesWrapped(free, l)
  {
    hide AlignUp, Fits, PowerOfTwo, Consistent, FirstFit;
    SizeAlignOk(l);
    var (size, align) := SizeAlign(l).value;
    assert align == Max(l.align, HEADER_ALIGN);
    DistinctAddresses(free, live, lo, hi);
    ServesFirstFits(free, size, align, 0, ptr);
    FirstFitDecides(free, size, align);
  }

  lemma ReturnedTaken(free: seq<Block>, live: set<Block>, l: Layout, ptr: nat, r: nat,
                      free': seq<Block>, live': set<Block>)
    requires LayoutOk(l) && SizeAlign(l).Some? && SizeAlign(l).value.1 > 0
    requires var b := Block(ptr, SizeAlign(l).value.0);
             && b in live
             && ServesFirst([b] + free, b.size, SizeAlign(l).value.1, 0, ptr)
             && NoneWraps(([b] + free)[..0], SizeAlign(l).value.1)
             && Answered([b] + free, live - {b}, b.size, SizeAlign(l).value.1, r, free', live')
    ensures r == ptr && free' == free && live' == live
  {
    hide PowerOfTwo, SizeAlign, ServesFirst, Servable;
    var b := Block(ptr, SizeAlign(l).value.0);
    assert CutFrom([b] + free, live - {b}, b.size, 0, ptr, r, free', live');
    assert Leftovers(b, ptr, b.size) == [];
    assert Without([b] + free, 0) == free;
  }

  /** The request is met from a block whose rounding wraps. */
  ghost predicate TakesWrapped(free: seq<Block>, l: Layout)
    requires l.align > 0
  {
    && SizeAlign(l).Some?
    && var (size, align) := SizeAlign(l).value;
       exists k: nat :: FirstFit(free, k, size, align) && Wraps(free[k], align)
  }

  lemma FirstFitDecides(free: seq<Block>, size: nat, align: nat)
    requires align > 0
    ensures NoneFits(free, size, align) ==> forall k: nat :: !FirstFit(free, k, size, align)
    ensures forall j: nat, k: nat | FirstFit(free, j, size, align) && FirstFit(free, k, size, align) :: j == k
  {
    hide Fits;
  }

  /** What a block that passed the tests is good for. */
  lemma CutCases(free: seq<Block>, live: set<Block>, lo: nat, hi: nat, k: nat, size: nat, align: nat)
    requires Consistent(free, live, lo, hi) && k < |free|
    requires PowerOfTwo(align) && HEADER_ALIGN <= align < U64_LIMIT
    requires size >= HEADER_SIZE && size % HEADER_ALIGN == 0 && Fits(free[k], size, align)
    ensures var b, start := free[k], AlignUp(free[k].addr, align);
            && DistinctAddrs(free) && NULL < b.addr < U64_LIMIT && start + size <= b.End()
            && FreshAddress(Without(free, k), b.addr)
            && (if Wraps(b, align) then start == NULL && Gap(b, start) == U64_LIMIT - b.addr
                else
                  && b.addr <= start && start != NULL && Aligned(start, align)
                  && (start + size < b.End() ==> FreshAddress(Prefix(b, start) + Without(free, k), start + size))
                  && Block(start, size) !in live
                  && Consistent(Leftovers(b, start, size) + Without(free, k), live + {Block(start, size)}, lo, hi))
  {
    hide AlignUp, Aligned, Consistent, PowerOfTwo, Leftovers, Without, FreshAddress, Fits;
    var b := free[k];
    DistinctAddresses(free, live, lo, hi);
    if Wraps(b, align) {
      AlignUpWraps(b.addr, align);
      WrappedFits(b, size, align);
      OwnAddressIsFresh(free, k);
    } else {
      CutPoint(b, size, align);
      CutIsInside(b, AlignUp(b.addr, align), size);
      CarvePlan(free, live, lo, hi, k, AlignUp(b.addr, align), size);
    }
  }

  lemma WrappedFits(b: Block, size: nat, align: nat)
    requires align > 0 && Fits(b, size, align)
    ensures AlignUp(b.addr, align) + size <= b.End()
  {
  }

  lemma CutIsInside(b: Block, start: nat, size: nat)
    requires CutOk(b, start, size)
    ensures b.addr <= start && start + size <= b.End()
  {
  }

  lemma OwnAddressIsFresh(free: seq<Block>, k: nat)
    requires DistinctAddrs(free) && k < |free| && free[k].addr != NULL
    ensures FreshAddress(Without(free, k), free[k].addr)
  {
    var rest := Without(free, k);
    assert forall i | 0 <= i < |rest| :: rest[i] == free[if i < k then i else i + 1];
  }

  lemma ReturnKeepsConsistent(free: seq<Block>, live: set<Block>, lo: nat, hi: nat, b: Block)
    requires Consistent(free, live, lo, hi) && b in live
    ensures FreshAddress(free, b.addr)
    ensures Consistent([b] + free, live - {b}, lo, hi)
  {
    assert AsSet([b] + free) == AsSet(free) + {b};
    assert AsSet([b] + free) + (live - {b}) == AsSet(free) + live;
    assert b in AsSet(free) + live;
    forall i | 0 <= i < |free|
      ensures free[i].addr != b.addr && free[i] != b
    {
      assert free[i] in AsSet(free);
      assert Apart(free[i], b);
    }
  }
}
