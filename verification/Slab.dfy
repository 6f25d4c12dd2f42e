/**
The kernel heap (kernel/slab.c): blocks of thirteen sizes cut from slabs, and
larger ones that are page runs of their own.

A block carries no mark of where it came from.  When it is freed, the heap looks
64 bytes before it for the header of a large block and then searches the slabs.
The free blocks of a slab are a list whose links are stored in the blocks
themselves.  The theorems say that in every run of allocations, matching frees and
stores into live blocks, the live blocks are disjoint and clear of all headers and
of all links, that they are large enough unless the size wraps, and that every
block finds its way back to where it came from.
*/
module Slabs {
  import opened Common

  const OFFSET := 64
  const CLASSES := 13

  // ----- sizes

  /** The block sizes: 32, 64, ..., 131072. */
  function SizeOf(c: nat): (size: nat)
    ensures size >= 32
  {
    if c == 0 then 32 else 2 * SizeOf(c - 1)
  }

  lemma {:induction false} SizeAligned(c: nat)
    ensures SizeOf(c) % 32 == 0
  {
    if c > 0 {
      SizeAligned(c - 1);
    }
  }

  lemma Sizes()
    ensures SizeOf(0) == 32 && SizeOf(1) == 64 && SizeOf(2) == 128 && SizeOf(3) == 256 && SizeOf(4) == 512
    ensures SizeOf(5) == 1024 && SizeOf(6) == 2048 && SizeOf(7) == 4096 && SizeOf(8) == 8192 && SizeOf(9) == 16384
    ensures SizeOf(10) == 32768 && SizeOf(11) == 65536 && SizeOf(12) == 131072
  {
    assert SizeOf(3) == 256;
    assert SizeOf(6) == 2048;
    assert SizeOf(9) == 16384;
    assert SizeOf(12) == 131072;
  }

  /** The pages of a slab, and the blocks in it. */
  function SlabPages(c: nat): nat
    requires c < CLASSES
  {
    if OFFSET + SizeOf(c) > PAGE_SIZE then (OFFSET + SizeOf(c) + (PAGE_SIZE - 1)) / PAGE_SIZE else 1
  }

  function SlabCount(c: nat): nat
    requires c < CLASSES
  {
    (SlabPages(c) * PAGE_SIZE - OFFSET) / SizeOf(c)
  }

  /** Slabs of several pages hold one block, and those of one page hold as many as fit behind the header. */
  lemma SlabShape(c: nat)
    requires c < CLASSES
    ensures SlabCount(c) >= 1 && SlabPages(c) >= 1
    ensures SlabPages(c) > 1 ==> SlabCount(c) == 1
    ensures OFFSET + SlabCount(c) * SizeOf(c) <= SlabPages(c) * PAGE_SIZE
  {
    if c < 7 {
      SmallShape(c);
    } else {
      LargeShape(c);
    }
  }

  lemma SmallShape(c: nat)
    requires c < 7
    ensures SlabPages(c) == 1 && SlabCount(c) >= 1 && OFFSET + SlabCount(c) * SizeOf(c) <= PAGE_SIZE
  {
    Sizes();
    assert SlabPages(c) == 1;
    match c
    case 0 => assert SlabCount(c) == 126;
    case 1 => assert SlabCount(c) == 63;
    case 2 => assert SlabCount(c) == 31;
    case 3 => assert SlabCount(c) == 15;
    case 4 => assert SlabCount(c) == 7;
    case 5 => assert SlabCount(c) == 3;
    case 6 => assert SlabCount(c) == 1;
  }

  lemma LargeShape(c: nat)
    requires 7 <= c < CLASSES
    ensures SlabPages(c) > 1 && SlabCount(c) == 1 && OFFSET + SizeOf(c) <= SlabPages(c) * PAGE_SIZE
  {
    Sizes();
    match c
    case 7 => assert SlabPages(c) == 2;
    case 8 => assert SlabPages(c) == 3;
    case 9 => assert SlabPages(c) == 5;
    case 10 => assert SlabPages(c) == 9;
    case 11 => assert SlabPages(c) == 17;
    case 12 => assert SlabPages(c) == 33;
  }

  /** The first class from `i` on whose blocks are large enough. */
  function ClassFrom(size: nat, i: nat): (c: Option<nat>)
    ensures c.Some? ==> c.value < CLASSES && size <= SizeOf(c.value)
    decreases CLASSES - i
  {
    if i >= CLASSES then None else if size <= SizeOf(i) then Some(i) else ClassFrom(size, i + 1)
  }

  /** cache_for_size: the smallest class that fits. */
  method CacheFor(size: u64) returns (c: Option<nat>)
    ensures c == ClassFrom(size, 0)
    ensures forall j :: 0 <= j < (if c.Some? then c.value else CLASSES) ==> SizeOf(j) < size
  {
    var i := 0;
    while i < CLASSES
      invariant 0 <= i <= CLASSES && (forall j :: 0 <= j < i ==> SizeOf(j) < size)
      invariant ClassFrom(size, 0) == ClassFrom(size, i)
    {
      if size <= SizeOf(i) {
        return Some(i);
      }
      i := i + 1;
    }
    return None;
  }

  /** The header of a slab: how many blocks of which size it holds on how many pages. */
  datatype Geometry = Geometry(size: nat, pages: nat, count: nat)

  predicate Sensible(g: Geometry) {
    && g.size > 0 && g.size % 32 == 0 && g.count > 0
    && OFFSET + g.count * g.size <= g.pages * PAGE_SIZE && (g.pages > 1 ==> g.count == 1)
  }

  function GeometryOf(c: nat): Geometry
    requires c < CLASSES
  {
    Geometry(SizeOf(c), SlabPages(c), SlabCount(c))
  }

  /** Block `i` of the slab at `base`. */
  function BlockAt(base: nat, g: Geometry, i: nat): nat {
    base + OFFSET + i * g.size
  }

  ghost predicate IsBlock(base: nat, g: Geometry, x: nat, i: nat) {
    i < g.count && x == BlockAt(base, g, i)
  }

  ghost predicate InSlab(base: nat, g: Geometry, x: nat) {
    exists i: nat :: IsBlock(base, g, x, i)
  }

  lemma {:induction false} Times(i: nat, j: nat, size: nat)
    requires i < j
    ensures i * size + size <= j * size
  {
    assert (i + 1) * size == i * size + size;
    if i + 1 < j {
      Times(i, j - 1, size);
      assert j * size == (j - 1) * size + size;
    }
  }

  /** A block lies in its slab, behind the header. */
  lemma BlockInside(base: nat, g: Geometry, x: nat)
    requires Sensible(g) && InSlab(base, g, x)
    ensures base + OFFSET <= x && x + g.size <= base + g.pages * PAGE_SIZE
  {
    var i: nat :| IsBlock(base, g, x, i);
    Times(i, g.count, g.size);
  }

  lemma BlocksApart(base: nat, g: Geometry, x: nat, y: nat)
    requires InSlab(base, g, x) && InSlab(base, g, y) && x != y
    ensures x + g.size <= y || y + g.size <= x
  {
    var i: nat :| IsBlock(base, g, x, i);
    var j: nat :| IsBlock(base, g, y, j);
    if i < j {
      Times(i, j, g.size);
    } else if j < i {
      Times(j, i, g.size);
    }
  }

  lemma {:induction false} TimesAligned(i: nat, size: nat)
    requires size % 32 == 0
    ensures i * size % 8 == 0
  {
    if i > 0 {
      TimesAligned(i - 1, size);
      assert i * size == (i - 1) * size + size;
      SumAligned((i - 1) * size, size);
    }
  }

  lemma SumAligned(a: nat, b: nat)
    requires a % 8 == 0 && b % 32 == 0
    ensures (a + b) % 8 == 0
  {
  }

  lemma PageIsWord(b: nat)
    requires b % PAGE_SIZE == 0
    ensures b % 8 == 0
  {
    assert b == PAGE_SIZE * (b / PAGE_SIZE);
    PageWord(b / PAGE_SIZE);
  }

  lemma PageWord(p: nat)
    ensures PAGE_SIZE * p % 8 == 0
  {
  }

  /** Blocks are aligned for the pointers that are stored in them. */
  lemma BlockAligned(base: nat, g: Geometry, x: nat)
    requires Sensible(g) && InSlab(base, g, x) && base % PAGE_SIZE == 0
    ensures x % 8 == 0
  {
    var i: nat :| IsBlock(base, g, x, i);
    PageIsWord(base);
    TimesAligned(i, g.size);
    ThreeAligned(base, i * g.size);
  }

  lemma ThreeAligned(a: nat, b: nat)
    requires a % 8 == 0 && b % 8 == 0
    ensures (a + OFFSET + b) % 8 == 0
  {
  }

  /** Only the first block of a slab starts 64 bytes behind a page boundary. */
  lemma HeaderTest(base: nat, g: Geometry, x: nat)
    requires Sensible(g) && InSlab(base, g, x) && base % PAGE_SIZE == 0
    ensures x >= OFFSET && ((x - OFFSET) % PAGE_SIZE == 0 <==> x - OFFSET == base)
  {
    var i: nat :| IsBlock(base, g, x, i);
    if i > 0 {
      Times(i, g.count, g.size);
      Times(0, i, g.size);
      var d := i * g.size;
      assert 0 < d < PAGE_SIZE;
      assert (base + d) % PAGE_SIZE == d;
    }
  }

  /** A block passes the test of slab_free for its slab. */
  lemma BlockMatches(base: nat, g: Geometry, x: nat)
    requires Sensible(g) && InSlab(base, g, x)
    ensures base + OFFSET <= x < base + g.pages * PAGE_SIZE && (x - (base + OFFSET)) % g.size == 0
  {
    var i: nat :| IsBlock(base, g, x, i);
    BlockInside(base, g, x);
    ModIs(i * g.size, i, 0, g.size);
  }

  lemma ModIs(x: nat, q: nat, r: nat, size: nat)
    requires size > 0 && r < size && x == q * size + r
    ensures x % size == r
  {
    var q', r' := x / size, x % size;
    assert x == q' * size + r';
    if q' < q {
      Times(q', q, size);
    } else if q < q' {
      Times(q, q', size);
    }
  }

  // ----- large blocks

  /** The pages that slab_alloc_large asks for; header and size are added in 64-bit arithmetic. */
  function LargePages(size: u64): nat {
    AlignUp((OFFSET + size) % U64) / PAGE_SIZE
  }

  /** The sum wraps to a request for no pages, which the page allocator refuses, ... */
  lemma NoPagesIff(size: u64)
    ensures LargePages(size) == 0 <==> U64 - OFFSET - (PAGE_SIZE - 1) <= size <= U64 - OFFSET
  {
    WrappedPages(size);
  }

  /** ... and for the largest sizes to a request for a single page: the block is then too small. */
  lemma LargeRoomIff(size: u64)
    requires LargePages(size) > 0
    ensures OFFSET + size <= LargePages(size) * PAGE_SIZE <==> size <= U64 - OFFSET
    ensures size > U64 - OFFSET ==> LargePages(size) == 1
  {
    WrappedPages(size);
  }

  lemma WrappedPages(size: u64)
    ensures size < U64 - OFFSET - (PAGE_SIZE - 1) ==> LargePages(size) == (OFFSET + size + (PAGE_SIZE - 1)) / PAGE_SIZE
    ensures U64 - OFFSET - (PAGE_SIZE - 1) <= size <= U64 - OFFSET ==> LargePages(size) == 0
    ensures size > U64 - OFFSET ==> LargePages(size) == 1
  {
    var sum := (OFFSET + size) % U64;
    if size < U64 - OFFSET {
      assert sum == OFFSET + size;
    } else {
      assert sum == OFFSET + size - U64;
    }
    if sum + (PAGE_SIZE - 1) < U64 {
      assert (sum + (PAGE_SIZE - 1)) % U64 == sum + (PAGE_SIZE - 1);
    } else {
      assert (sum + (PAGE_SIZE - 1)) % U64 == sum + (PAGE_SIZE - 1) - U64;
    }
  }

  /** A request for all but one byte of the address space gets a page, of which 4032 bytes are usable. */
  lemma LargestRequest()
    ensures LargePages(U64 - 1) == 1 && LargePages(U64 - 1) * PAGE_SIZE - OFFSET == 4032
  {
    WrappedPages(U64 - 1);
  }

  // ----- the heap

  const SLAB_MAGIC := 0x534c4142
  const LARGE_MAGIC := 0x534c4247

  /** Memory as 64-bit words, by word number. */
  type Words = map<nat, nat>

  function WordAt(words: Words, addr: nat): nat {
    if addr / 8 in words then words[addr / 8] else 0
  }

  /** `free` lists the free blocks of a slab. */
  datatype Slab = Slab(c: nat, g: Geometry, free: seq<nat>, freeCount: nat)

  /** A live block: its usable bytes, and the page run it lies in. */
  datatype Block = Block(size: nat, base: nat)

  /** `larges` gives the pages of every large block; `owner` the run that every page in use belongs to. */
  datatype Heap = Heap(slabs: map<nat, Slab>, larges: map<nat, nat>, live: map<nat, Block>, owner: map<int, nat>,
                       words: Words)

  ghost predicate Owned(owner: map<int, nat>, base: nat, n: nat) {
    && base % PAGE_SIZE == 0 && base > 0 && n > 0
    && forall p :: base / PAGE_SIZE <= p < base / PAGE_SIZE + n ==> OwnerIs(owner, p, base)
  }

  ghost predicate OwnerIs(owner: map<int, nat>, p: int, base: nat) {
    p in owner && owner[p] == base
  }

  ghost predicate SlabOk(base: nat, s: Slab) {
    && Sensible(s.g) && s.freeCount == |s.free| && Distinct(s.free)
    && forall x :: x in s.free ==> InSlab(base, s.g, x)
  }

  /** The run of a live block is a slab with the block in use, or a large block of its own. */
  ghost predicate LiveOk(h: Heap, x: nat, b: Block) {
    if b.base in h.slabs then
      var s := h.slabs[b.base];
      InSlab(b.base, s.g, x) && x !in s.free && b.size == s.g.size
    else
      b.base in h.larges && x == b.base + OFFSET && OFFSET + b.size == h.larges[b.base] * PAGE_SIZE
  }

  ghost predicate Inv(h: Heap) {
    && h.slabs.Keys !! h.larges.Keys
    && (forall b :: b in h.slabs ==> SlabOk(b, h.slabs[b]) && Owned(h.owner, b, h.slabs[b].g.pages))
    && (forall b :: b in h.larges ==> Owned(h.owner, b, h.larges[b]))
    && (forall x :: x in h.live ==> LiveOk(h, x, h.live[x]))
    && Marked(h)
    && Chained(h)
    && Conserved(h)
  }

  /** No block is lost: every block of a slab is free or live. */
  ghost predicate Conserved(h: Heap) {
    forall b, x :: b in h.slabs ==> HasPlace(h, b, x)
  }

  ghost predicate HasPlace(h: Heap, b: nat, x: nat)
    requires b in h.slabs
  {
    InSlab(b, h.slabs[b].g, x) ==> x in h.slabs[b].free || x in h.live
  }

  /** Where a list of free blocks goes on after position `k`, and where it starts; 0 is its end. */
  function NextFree(free: seq<nat>, k: nat): nat {
    if k + 1 < |free| then free[k + 1] else 0
  }

  function HeadOf(free: seq<nat>): nat {
    if free == [] then 0 else free[0]
  }

  /** The first word of every free block is the link to the next one. */
  ghost predicate ChainedFree(words: Words, free: seq<nat>) {
    forall k :: 0 <= k < |free| ==> LinkOk(words, free, k)
  }

  ghost predicate LinkOk(words: Words, free: seq<nat>, k: int)
    requires 0 <= k < |free|
  {
    WordAt(words, free[k]) == NextFree(free, k)
  }

  ghost predicate Chained(h: Heap) {
    forall b :: b in h.slabs ==> ChainedFree(h.words, h.slabs[b].free)
  }

  /** The first word of every run says what it is. */
  ghost predicate Marked(h: Heap) {
    && (forall b :: b in h.slabs ==> WordAt(h.words, b) == SLAB_MAGIC)
    && (forall b :: b in h.larges ==> WordAt(h.words, b) == LARGE_MAGIC)
  }

  /** The pages of the run at `base`. */
  ghost function RunPages(h: Heap, base: nat): nat
    requires base in h.slabs || base in h.larges
  {
    if base in h.slabs then h.slabs[base].g.pages else h.larges[base]
  }

  /** Two page runs have no byte in common. */
  lemma RunsApart(owner: map<int, nat>, a: nat, m: nat, b: nat, n: nat)
    requires Owned(owner, a, m) && Owned(owner, b, n) && a != b
    ensures a + m * PAGE_SIZE <= b || b + n * PAGE_SIZE <= a
  {
    var p, q := a / PAGE_SIZE, b / PAGE_SIZE;
    assert OwnerIs(owner, p, a) && OwnerIs(owner, q, b);
    assert p <= q < p + m ==> OwnerIs(owner, q, a);
    assert q <= p < q + n ==> OwnerIs(owner, p, b);
  }

  /** A live block lies in its run, behind the header. */
  lemma LiveInside(h: Heap, x: nat)
    requires Inv(h) && x in h.live
    ensures
      var b := h.live[x];
      && (b.base in h.slabs || b.base in h.larges)
      && Owned(h.owner, b.base, RunPages(h, b.base))
      && b.base + OFFSET <= x && x + b.size <= b.base + RunPages(h, b.base) * PAGE_SIZE
  {
    var b := h.live[x];
    assert LiveOk(h, x, b);
    if b.base in h.slabs {
      BlockInside(b.base, h.slabs[b.base].g, x);
    }
  }

  /** Live blocks do not overlap. */
  lemma LiveDisjoint(h: Heap, x: nat, y: nat)
    requires Inv(h) && x in h.live && y in h.live && x != y
    ensures x + h.live[x].size <= y || y + h.live[y].size <= x
  {
    LiveInside(h, x);
    LiveInside(h, y);
    var a, b := h.live[x].base, h.live[y].base;
    if a != b {
      RunsApart(h.owner, a, RunPages(h, a), b, RunPages(h, b));
    } else {
      assert LiveOk(h, x, h.live[x]) && LiveOk(h, y, h.live[y]);
      SameRun(h, x, y, a);
    }
  }

  lemma SameRun(h: Heap, x: nat, y: nat, base: nat)
    requires x in h.live && y in h.live && x != y && h.live[x].base == base && h.live[y].base == base
    requires LiveOk(h, x, h.live[x]) && LiveOk(h, y, h.live[y])
    ensures x + h.live[x].size <= y || y + h.live[y].size <= x
  {
    BlocksApart(base, h.slabs[base].g, x, y);
  }

  /** A free block lies in its slab, behind the header. */
  lemma FreeInside(h: Heap, base: nat, y: nat)
    requires Inv(h) && base in h.slabs && y in h.slabs[base].free
    ensures InSlab(base, h.slabs[base].g, y) && Owned(h.owner, base, h.slabs[base].g.pages) && y % 8 == 0
    ensures base + OFFSET <= y && y + h.slabs[base].g.size <= base + h.slabs[base].g.pages * PAGE_SIZE
  {
    assert SlabOk(base, h.slabs[base]);
    BlockInside(base, h.slabs[base].g, y);
    BlockAligned(base, h.slabs[base].g, y);
  }

  /** The link in a free block lies in no live block. */
  lemma LinkClear(h: Heap, x: nat, base: nat, y: nat)
    requires Inv(h) && x in h.live && base in h.slabs && y in h.slabs[base].free
    ensures y + 8 <= x || x + h.live[x].size <= y
  {
    LiveInside(h, x);
    FreeInside(h, base, y);
    assert SlabOk(base, h.slabs[base]);
    var a := h.live[x].base;
    assert LiveOk(h, x, h.live[x]);
    if a != base {
      RunsApart(h.owner, a, RunPages(h, a), base, h.slabs[base].g.pages);
    } else {
      BlocksApart(base, h.slabs[base].g, x, y);
    }
  }

  /** The link in a free block is not the first word of any run. */
  lemma LinkIsNoHeader(h: Heap, base: nat, y: nat, b: nat)
    requires Inv(h) && base in h.slabs && y in h.slabs[base].free && (b in h.slabs || b in h.larges)
    ensures y != b && b % 8 == 0 && y % 8 == 0
  {
    FreeInside(h, base, y);
    assert b in h.slabs ==> SlabOk(b, h.slabs[b]) && Owned(h.owner, b, h.slabs[b].g.pages);
    if b != base {
      RunsApart(h.owner, b, RunPages(h, b), base, h.slabs[base].g.pages);
    }
    PageIsWord(b);
  }

  lemma OtherCell(x: nat, y: nat)
    requires x % 8 == 0 && y % 8 == 0 && x != y
    ensures x / 8 != y / 8
  {
  }

  /** A store elsewhere leaves the links. */
  lemma ChainKept(h: Heap, w: nat, value: nat)
    requires Inv(h)
    requires forall b, y :: b in h.slabs && y in h.slabs[b].free ==> y / 8 != w
    ensures forall b :: b in h.slabs ==> ChainedFree(h.words[w := value], h.slabs[b].free)
  {
    var words' := h.words[w := value];
    forall b | b in h.slabs
      ensures ChainedFree(words', h.slabs[b].free)
    {
      var free := h.slabs[b].free;
      forall k | 0 <= k < |free|
        ensures LinkOk(words', free, k)
      {
        assert LinkOk(h.words, free, k) && free[k] in free;
      }
    }
  }

  /** No live block overlaps the header of any slab or large block. */
  lemma HeadersClear(h: Heap, x: nat, base: nat)
    requires Inv(h) && x in h.live && (base in h.slabs || base in h.larges)
    ensures base + OFFSET <= x || x + h.live[x].size <= base
  {
    LiveInside(h, x);
    var a := h.live[x].base;
    if a != base {
      assert base in h.slabs ==> SlabOk(base, h.slabs[base]) && Owned(h.owner, base, h.slabs[base].g.pages);
      RunsApart(h.owner, a, RunPages(h, a), base, RunPages(h, base));
    }
  }

  /** The test of slab_free for the header of a large block. */
  predicate LooksLarge(words: Words, x: nat)
    requires x >= OFFSET
  {
    (x - OFFSET) % PAGE_SIZE == 0 && WordAt(words, x - OFFSET) == LARGE_MAGIC
  }

  /** The header test takes a live block for a large one exactly when it is one. */
  lemma TestIsExact(h: Heap, x: nat)
    requires Inv(h) && x in h.live
    ensures x >= OFFSET
    ensures LooksLarge(h.words, x) <==> h.live[x].base in h.larges
    ensures h.live[x].base in h.larges ==> x - OFFSET == h.live[x].base
  {
    LiveInside(h, x);
    var b := h.live[x].base;
    assert LiveOk(h, x, h.live[x]);
    if b in h.slabs {
      HeaderTest(b, h.slabs[b].g, x);
    }
  }

  /** The test of slab_free whether a block belongs to the slab at `base`. */
  predicate Matches(base: nat, g: Geometry, ptr: nat) {
    g.size > 0 && base + OFFSET <= ptr < base + g.pages * PAGE_SIZE && (ptr - (base + OFFSET)) % g.size == 0
  }

  // ----- operations

  /** The pages that a request of `size` bytes asks for if it asks for any. */
  function PagesFor(size: u64): nat {
    var c := ClassFrom(size, 0);
    if c.Some? then SlabPages(c.value) else LargePages(size)
  }

  /** What the page allocator promises about a run that it hands out. */
  ghost predicate FreshRun(owner: map<int, nat>, base: nat, n: nat) {
    && base % PAGE_SIZE == 0 && base > 0 && n > 0
    && forall p :: base / PAGE_SIZE <= p < base / PAGE_SIZE + n ==> p !in owner
  }

  ghost function WithRun(owner: map<int, nat>, base: nat, n: nat): map<int, nat> {
    if n == 0 then owner else WithRun(owner, base, n - 1)[base / PAGE_SIZE + (n - 1) := base]
  }

  lemma {:induction false} WithRunIs(owner: map<int, nat>, base: nat, n: nat, p: int)
    ensures base / PAGE_SIZE <= p < base / PAGE_SIZE + n ==> OwnerIs(WithRun(owner, base, n), p, base)
    ensures !(base / PAGE_SIZE <= p < base / PAGE_SIZE + n) && p in owner ==>
              OwnerIs(WithRun(owner, base, n), p, owner[p])
  {
    if n > 0 {
      WithRunIs(owner, base, n - 1, p);
    }
  }

  lemma RunAdded(owner: map<int, nat>, base: nat, n: nat)
    requires FreshRun(owner, base, n)
    ensures Owned(WithRun(owner, base, n), base, n)
  {
    forall p {
      WithRunIs(owner, base, n, p);
    }
  }

  lemma RunKept(owner: map<int, nat>, base: nat, n: nat, b: nat, m: nat)
    requires FreshRun(owner, base, n) && Owned(owner, b, m)
    ensures b != base && Owned(WithRun(owner, base, n), b, m)
  {
    assert OwnerIs(owner, b / PAGE_SIZE, b);
    forall p | b / PAGE_SIZE <= p < b / PAGE_SIZE + m
      ensures OwnerIs(WithRun(owner, base, n), p, b)
    {
      assert OwnerIs(owner, p, b);
      WithRunIs(owner, base, n, p);
    }
  }

  /** Blocks `n - 1`, ..., 1, 0 of a slab. */
  function AllBlocks(base: nat, g: Geometry, n: nat): seq<nat> {
    if n == 0 then [] else [BlockAt(base, g, n - 1)] + AllBlocks(base, g, n - 1)
  }

  lemma {:induction false} AllBlocksAre(base: nat, g: Geometry, n: nat)
    requires n <= g.count
    ensures |AllBlocks(base, g, n)| == n
    ensures forall k :: 0 <= k < n ==> IsBlock(base, g, AllBlocks(base, g, n)[k], n - 1 - k)
  {
    if n > 0 {
      AllBlocksAre(base, g, n - 1);
    }
  }

  lemma NewSlabOk(base: nat, c: nat)
    requires c < CLASSES
    ensures Sensible(GeometryOf(c)) && SlabOk(base, NewSlab(c, base)) && NewSlab(c, base).free != []
  {
    SlabShape(c);
    SizeAligned(c);
    BlocksOk(base, c, GeometryOf(c));
    AllBlocksAre(base, GeometryOf(c), SlabCount(c));
  }

  lemma BlocksOk(base: nat, c: nat, g: Geometry)
    requires Sensible(g)
    ensures SlabOk(base, Slab(c, g, AllBlocks(base, g, g.count), g.count))
  {
    var n, free := g.count, AllBlocks(base, g, g.count);
    AllBlocksAre(base, g, n);
    forall j, k | 0 <= j < k < |free|
      ensures free[j] != free[k]
    {
      assert IsBlock(base, g, free[j], n - 1 - j) && IsBlock(base, g, free[k], n - 1 - k);
      Times(n - 1 - k, n - 1 - j, g.size);
    }
    forall x | x in free
      ensures InSlab(base, g, x)
    {
      var k :| 0 <= k < |free| && free[k] == x;
      assert IsBlock(base, g, x, n - 1 - k);
    }
  }

  /** All runs of the heap are still owned, and differ from a new one. */
  lemma RunsKept(h: Heap, base: nat, n: nat)
    requires Inv(h) && FreshRun(h.owner, base, n)
    ensures forall b :: b in h.slabs ==> b != base && Owned(WithRun(h.owner, base, n), b, h.slabs[b].g.pages)
    ensures forall b :: b in h.larges ==> b != base && Owned(WithRun(h.owner, base, n), b, h.larges[b])
  {
    forall b | b in h.slabs
      ensures b != base && Owned(WithRun(h.owner, base, n), b, h.slabs[b].g.pages)
    {
      RunKept(h.owner, base, n, b, h.slabs[b].g.pages);
    }
    forall b | b in h.larges
      ensures b != base && Owned(WithRun(h.owner, base, n), b, h.larges[b])
    {
      RunKept(h.owner, base, n, b, h.larges[b]);
    }
  }

  /** The word at the start of a run is not the word at the start of another. */
  lemma OtherWord(words: Words, base: nat, magic: nat, b: nat)
    requires base % PAGE_SIZE == 0 && b % PAGE_SIZE == 0
    ensures WordAt(words[base / 8 := magic], b) == if b == base then magic else WordAt(words, b)
  {
    PageIsWord(base);
    PageIsWord(b);
    if b != base {
      OtherCell(base, b);
    }
  }

  lemma RunsMarked(h: Heap, base: nat, magic: nat)
    requires Inv(h) && base % PAGE_SIZE == 0
    ensures forall b :: b in h.slabs && b != base ==> WordAt(h.words[base / 8 := magic], b) == SLAB_MAGIC
    ensures forall b :: b in h.larges && b != base ==> WordAt(h.words[base / 8 := magic], b) == LARGE_MAGIC
  {
    forall b | b in h.slabs
      ensures b != base ==> WordAt(h.words[base / 8 := magic], b) == SLAB_MAGIC
    {
      OtherWord(h.words, base, magic, b);
    }
    forall b | b in h.larges
      ensures b != base ==> WordAt(h.words[base / 8 := magic], b) == LARGE_MAGIC
    {
      OtherWord(h.words, base, magic, b);
    }
  }

  /** The links that the loop of slab_grow writes into the first `n` blocks. */
  ghost function LinkAll(words: Words, base: nat, g: Geometry, n: nat): Words {
    if n == 0 then words
    else LinkAll(words, base, g, n - 1)[BlockAt(base, g, n - 1) / 8 := HeadOf(AllBlocks(base, g, n - 1))]
  }

  lemma BlocksAligned(base: nat, g: Geometry, i: nat)
    requires Sensible(g) && base % PAGE_SIZE == 0 && i < g.count
    ensures BlockAt(base, g, i) % 8 == 0 && InSlab(base, g, BlockAt(base, g, i))
    ensures base + OFFSET <= BlockAt(base, g, i) < base + g.pages * PAGE_SIZE
  {
    var x := BlockAt(base, g, i);
    assert IsBlock(base, g, x, i);
    BlockAligned(base, g, x);
    BlockInside(base, g, x);
  }

  /** Nothing but the blocks is written. */
  lemma {:induction false} LinkAllOutside(words: Words, base: nat, g: Geometry, n: nat, y: nat)
    requires Sensible(g) && base % PAGE_SIZE == 0 && n <= g.count && y % 8 == 0
    requires y < base + OFFSET || base + g.pages * PAGE_SIZE <= y
    ensures WordAt(LinkAll(words, base, g, n), y) == WordAt(words, y)
  {
    if n > 0 {
      LinkAllOutside(words, base, g, n - 1, y);
      BlocksAligned(base, g, n - 1);
      OtherCell(y, BlockAt(base, g, n - 1));
    }
  }

  lemma {:induction false} LinkAllInside(words: Words, base: nat, g: Geometry, n: nat)
    requires Sensible(g) && base % PAGE_SIZE == 0 && n <= g.count
    ensures ChainedFree(LinkAll(words, base, g, n), AllBlocks(base, g, n))
  {
    if n > 0 {
      LinkAllInside(words, base, g, n - 1);
      var before, free, all := LinkAll(words, base, g, n - 1), AllBlocks(base, g, n - 1), AllBlocks(base, g, n);
      AllBlocksAre(base, g, n - 1);
      AllBlocksAre(base, g, n);
      BlocksAligned(base, g, n - 1);
      var words' := LinkAll(words, base, g, n);
      forall k | 0 <= k < |all|
        ensures LinkOk(words', all, k)
      {
        if k > 0 {
          assert LinkOk(before, free, k - 1) && all[k] == free[k - 1];
          assert IsBlock(base, g, free[k - 1], n - 1 - k);
          EarlierBlock(base, g, n - 1 - k, n - 1);
        }
      }
    }
  }

  lemma EarlierBlock(base: nat, g: Geometry, i: nat, j: nat)
    requires Sensible(g) && base % PAGE_SIZE == 0 && i < j < g.count
    ensures BlockAt(base, g, i) / 8 != BlockAt(base, g, j) / 8
  {
    BlocksAligned(base, g, i);
    BlocksAligned(base, g, j);
    Times(i, j, g.size);
    OtherCell(BlockAt(base, g, i), BlockAt(base, g, j));
  }

  /** slab_grow: a run of pages becomes a slab. */
  ghost function Grown(h: Heap, base: nat, s: Slab): Heap {
    h.(slabs := h.slabs[base := s], owner := WithRun(h.owner, base, s.g.pages),
       words := LinkAll(h.words[base / 8 := SLAB_MAGIC], base, s.g, s.g.count))
  }

  /** All other runs keep their first words and their links. */
  lemma GrowWords(h: Heap, base: nat, s: Slab)
    requires Inv(h) && SlabOk(base, s) && FreshRun(h.owner, base, s.g.pages)
    ensures Owned(WithRun(h.owner, base, s.g.pages), base, s.g.pages)
    ensures
      var words' := Grown(h, base, s).words;
      && WordAt(words', base) == SLAB_MAGIC
      && (forall b :: b in h.slabs ==> WordAt(words', b) == SLAB_MAGIC && ChainedFree(words', h.slabs[b].free))
      && (forall b :: b in h.larges ==> WordAt(words', b) == LARGE_MAGIC)
  {
    var owner, words := WithRun(h.owner, base, s.g.pages), h.words[base / 8 := SLAB_MAGIC];
    RunAdded(h.owner, base, s.g.pages);
    RunsKept(h, base, s.g.pages);
    RunsMarked(h, base, SLAB_MAGIC);
    OtherWord(h.words, base, SLAB_MAGIC, base);
    PageIsWord(base);
    LinkAllOutside(words, base, s.g, s.g.count, base);
    forall b | b in h.slabs || b in h.larges
      ensures WordAt(Grown(h, base, s).words, b) == WordAt(words, b)
    {
      assert Owned(owner, b, RunPages(h, b));
      RunsApart(owner, base, s.g.pages, b, RunPages(h, b));
      PageIsWord(b);
      LinkAllOutside(words, base, s.g, s.g.count, b);
    }
    forall b | b in h.slabs
      ensures ChainedFree(Grown(h, base, s).words, h.slabs[b].free)
    {
      OtherChain(h, base, s, b);
    }
  }

  lemma OtherChain(h: Heap, base: nat, s: Slab, b: nat)
    requires Inv(h) && SlabOk(base, s) && FreshRun(h.owner, base, s.g.pages) && b in h.slabs
    ensures ChainedFree(Grown(h, base, s).words, h.slabs[b].free)
  {
    var free, owner := h.slabs[b].free, WithRun(h.owner, base, s.g.pages);
    RunAdded(h.owner, base, s.g.pages);
    RunKept(h.owner, base, s.g.pages, b, h.slabs[b].g.pages);
    RunsApart(owner, base, s.g.pages, b, h.slabs[b].g.pages);
    PageIsWord(base);
    forall k | 0 <= k < |free|
      ensures LinkOk(Grown(h, base, s).words, free, k)
    {
      assert LinkOk(h.words, free, k) && free[k] in free;
      FreeInside(h, b, free[k]);
      OtherCell(free[k], base);
      LinkAllOutside(h.words[base / 8 := SLAB_MAGIC], base, s.g, s.g.count, free[k]);
    }
  }

  /** A new slab disturbs nothing. */
  lemma GrowKeeps(h: Heap, base: nat, s: Slab)
    requires Inv(h) && SlabOk(base, s) && FreshRun(h.owner, base, s.g.pages)
    requires s.free == AllBlocks(base, s.g, s.g.count)
    ensures base !in h.slabs && base !in h.larges
    ensures Inv(Grown(h, base, s))
  {
    RunsKept(h, base, s.g.pages);
    GrowWords(h, base, s);
    LinkAllInside(h.words[base / 8 := SLAB_MAGIC], base, s.g, s.g.count);
    var h' := Grown(h, base, s);
    forall x | x in h.live {
      LiveKept(h, h', base, x);
    }
    GrowPlaces(h, base, s);
  }

  lemma GrowPlaces(h: Heap, base: nat, s: Slab)
    requires Conserved(h) && s.free == AllBlocks(base, s.g, s.g.count)
    ensures Conserved(Grown(h, base, s))
  {
    var h' := Grown(h, base, s);
    forall b, x | b in h'.slabs
      ensures HasPlace(h', b, x)
    {
      if b == base {
        AllListed(base, s.g, x);
      } else {
        assert HasPlace(h, b, x);
      }
    }
  }

  lemma AllListed(base: nat, g: Geometry, x: nat)
    ensures InSlab(base, g, x) ==> x in AllBlocks(base, g, g.count)
  {
    if InSlab(base, g, x) {
      var i: nat :| IsBlock(base, g, x, i);
      AllBlocksAre(base, g, g.count);
      assert IsBlock(base, g, AllBlocks(base, g, g.count)[g.count - 1 - i], i);
    }
  }

  lemma LiveKept(h: Heap, h': Heap, base: nat, x: nat)
    requires x in h'.live && LiveOk(h, x, h'.live[x]) && base !in h.larges && base in h'.slabs && base !in h.slabs
    requires h'.slabs == h.slabs[base := h'.slabs[base]] && h'.larges == h.larges
    ensures LiveOk(h', x, h'.live[x])
  {
  }

  /** slab_alloc_large: a run of pages becomes a live block. */
  ghost function LargeAdded(h: Heap, base: nat, n: nat): Heap
    requires n > 0
  {
    Heap(h.slabs, h.larges[base := n], h.live[base + OFFSET := Block(n * PAGE_SIZE - OFFSET, base)],
         WithRun(h.owner, base, n), h.words[base / 8 := LARGE_MAGIC])
  }

  lemma LargeKeeps(h: Heap, base: nat, n: nat)
    requires Inv(h) && FreshRun(h.owner, base, n)
    ensures base !in h.slabs && base !in h.larges && base + OFFSET !in h.live
    ensures Inv(LargeAdded(h, base, n))
  {
    RunAdded(h.owner, base, n);
    RunsKept(h, base, n);
    RunsMarked(h, base, LARGE_MAGIC);
    OtherWord(h.words, base, LARGE_MAGIC, base);
    FreshClear(h, base, n);
    ChainKept(h, base / 8, LARGE_MAGIC);
    var h' := LargeAdded(h, base, n);
    forall x | x in h.live
      ensures x != base + OFFSET && LiveOk(h', x, h.live[x])
    {
      NotInside(h, base, n, x);
      assert LiveOk(h, x, h.live[x]);
    }
    forall b, x | b in h'.slabs
      ensures HasPlace(h', b, x)
    {
      assert HasPlace(h, b, x);
    }
  }

  /** The first word of a fresh run is no link. */
  lemma FreshClear(h: Heap, base: nat, n: nat)
    requires Inv(h) && FreshRun(h.owner, base, n)
    ensures forall b, y :: b in h.slabs && y in h.slabs[b].free ==> y / 8 != base / 8
  {
    RunAdded(h.owner, base, n);
    PageIsWord(base);
    forall b, y | b in h.slabs && y in h.slabs[b].free
      ensures y / 8 != base / 8
    {
      FreeInside(h, b, y);
      RunKept(h.owner, base, n, b, h.slabs[b].g.pages);
      RunsApart(WithRun(h.owner, base, n), base, n, b, h.slabs[b].g.pages);
      OtherCell(y, base);
    }
  }

  /** No live block lies in a fresh run. */
  lemma NotInside(h: Heap, base: nat, n: nat, x: nat)
    requires Inv(h) && FreshRun(h.owner, base, n) && x in h.live
    ensures !(base <= x < base + n * PAGE_SIZE)
  {
    LiveInside(h, x);
    var b := h.live[x].base;
    RunAdded(h.owner, base, n);
    RunKept(h.owner, base, n, b, RunPages(h, b));
    RunsApart(WithRun(h.owner, base, n), base, n, b, RunPages(h, b));
    LiveStarts(h, x);
  }

  /** A live block starts inside its run even if it is empty. */
  lemma LiveStarts(h: Heap, x: nat)
    requires Inv(h) && x in h.live
    ensures x < h.live[x].base + RunPages(h, h.live[x].base) * PAGE_SIZE
  {
    LiveInside(h, x);
    var b := h.live[x];
    assert LiveOk(h, x, b);
    if b.base in h.slabs {
      BlockInside(b.base, h.slabs[b.base].g, x);
    }
  }

  /** A free block of a slab is not live. */
  lemma FreeIsNotLive(h: Heap, base: nat, x: nat)
    requires Inv(h) && base in h.slabs && x in h.slabs[base].free
    ensures x !in h.live
  {
    assert SlabOk(base, h.slabs[base]) && Owned(h.owner, base, h.slabs[base].g.pages);
    BlockInside(base, h.slabs[base].g, x);
    if x in h.live {
      Elsewhere(h, base, x);
    }
  }

  lemma Elsewhere(h: Heap, base: nat, x: nat)
    requires Inv(h) && base in h.slabs && x in h.live
    requires base + OFFSET <= x < base + h.slabs[base].g.pages * PAGE_SIZE
    ensures h.live[x].base == base && x !in h.slabs[base].free
  {
    LiveInside(h, x);
    LiveStarts(h, x);
    var b := h.live[x].base;
    assert LiveOk(h, x, h.live[x]);
    if b != base {
      RunsApart(h.owner, base, h.slabs[base].g.pages, b, RunPages(h, b));
    }
  }

  /** The head of a slab's free list becomes live. */
  function Taken(h: Heap, base: nat): Heap
    requires base in h.slabs && h.slabs[base].free != [] && h.slabs[base].freeCount > 0
  {
    var s := h.slabs[base];
    h.(slabs := h.slabs[base := Slab(s.c, s.g, s.free[1..], s.freeCount - 1)],
       live := h.live[s.free[0] := Block(s.g.size, base)])
  }

  lemma TakenKeeps(h: Heap, base: nat)
    requires Inv(h) && base in h.slabs && h.slabs[base].free != []
    ensures h.slabs[base].freeCount > 0
    ensures h.slabs[base].free[0] !in h.live && Inv(Taken(h, base))
  {
    var s, x := h.slabs[base], h.slabs[base].free[0];
    assert SlabOk(base, s) && x in s.free;
    var h' := Taken(h, base);
    FreeIsNotLive(h, base, x);
    TailOk(base, s);
    TailChained(h.words, s.free);
    forall y | y in h'.live
      ensures LiveOk(h', y, h'.live[y])
    {
      if y != x {
        assert LiveOk(h, y, h.live[y]);
      }
    }
    forall b, y | b in h'.slabs
      ensures HasPlace(h', b, y)
    {
      assert HasPlace(h, b, y);
      assert b == base && y in s.free && y != x ==> y in s.free[1..];
    }
  }

  lemma TailChained(words: Words, free: seq<nat>)
    requires ChainedFree(words, free) && free != []
    ensures ChainedFree(words, free[1..]) && WordAt(words, free[0]) == HeadOf(free[1..])
  {
    assert LinkOk(words, free, 0);
    forall k | 0 <= k < |free[1..]|
      ensures LinkOk(words, free[1..], k)
    {
      assert LinkOk(words, free, k + 1);
    }
  }

  lemma TailOk(base: nat, s: Slab)
    requires SlabOk(base, s) && s.free != [] && s.freeCount > 0
    ensures SlabOk(base, Slab(s.c, s.g, s.free[1..], s.freeCount - 1)) && s.free[0] !in s.free[1..]
  {
    forall x | x in s.free[1..]
      ensures x in s.free && x != s.free[0]
    {
    }
  }

  /** A live block goes back to the front of its slab's free list. */
  function Given(h: Heap, x: nat, base: nat): Heap
    requires base in h.slabs
  {
    var s := h.slabs[base];
    h.(slabs := h.slabs[base := Slab(s.c, s.g, [x] + s.free, s.freeCount + 1)], live := h.live - {x},
       words := h.words[x / 8 := HeadOf(s.free)])
  }

  /** The first word of a live block is neither a link nor the first word of a run. */
  lemma BlockWord(h: Heap, x: nat)
    requires Inv(h) && x in h.live && h.live[x].base in h.slabs
    ensures x % 8 == 0
    ensures forall b, y :: b in h.slabs && y in h.slabs[b].free ==> y / 8 != x / 8
    ensures forall b :: b in h.slabs || b in h.larges ==> b / 8 != x / 8
  {
    var base := h.live[x].base;
    assert LiveOk(h, x, h.live[x]) && SlabOk(base, h.slabs[base]) && Owned(h.owner, base, h.slabs[base].g.pages);
    BlockAligned(base, h.slabs[base].g, x);
    forall b, y | b in h.slabs && y in h.slabs[b].free
      ensures y / 8 != x / 8
    {
      LinkClear(h, x, b, y);
      FreeInside(h, b, y);
      OtherCell(x, y);
    }
    forall b | b in h.slabs || b in h.larges
      ensures b / 8 != x / 8
    {
      HeadersClear(h, x, b);
      assert b in h.slabs ==> Owned(h.owner, b, h.slabs[b].g.pages);
      PageIsWord(b);
      OtherCell(x, b);
    }
  }

  lemma PushChained(words: Words, free: seq<nat>, x: nat)
    requires ChainedFree(words[x / 8 := HeadOf(free)], free)
    ensures ChainedFree(words[x / 8 := HeadOf(free)], [x] + free)
  {
    var words', list := words[x / 8 := HeadOf(free)], [x] + free;
    forall k | 0 <= k < |list|
      ensures LinkOk(words', list, k)
    {
      if k > 0 {
        assert LinkOk(words', free, k - 1);
      }
    }
  }

  lemma GivenKeeps(h: Heap, x: nat)
    requires Inv(h) && x in h.live && h.live[x].base in h.slabs
    ensures Inv(Given(h, x, h.live[x].base))
  {
    var base := h.live[x].base;
    var s, h' := h.slabs[base], Given(h, x, base);
    assert SlabOk(base, s) && LiveOk(h, x, h.live[x]);
    assert SlabOk(base, h'.slabs[base]);
    GivenChained(h, x);
    forall y | y in h'.live
      ensures LiveOk(h', y, h'.live[y])
    {
      assert LiveOk(h, y, h.live[y]);
    }
    forall b, y | b in h'.slabs
      ensures HasPlace(h', b, y)
    {
      GivenPlace(h, x, b, y);
    }
  }

  lemma GivenPlace(h: Heap, x: nat, b: nat, y: nat)
    requires Inv(h) && x in h.live && h.live[x].base in h.slabs && b in h.slabs
    ensures HasPlace(Given(h, x, h.live[x].base), b, y)
  {
    assert HasPlace(h, b, y);
    if InSlab(b, h.slabs[b].g, y) && y == x && b != h.live[x].base {
      assert SlabOk(b, h.slabs[b]);
      BlockInside(b, h.slabs[b].g, x);
      Elsewhere(h, b, x);
    }
  }

  /**
  Freeing a pointer that matches a slab keeps the heap in order exactly if it is a
  live block: one that is free already, or none at all, breaks the list.
  */
  lemma GivenIff(h: Heap, x: nat, base: nat)
    requires Inv(h) && base in h.slabs && Matches(base, h.slabs[base].g, x)
    ensures Inv(Given(h, x, base)) <==> x in h.live && h.live[x].base == base
  {
    if x in h.live && h.live[x].base == base {
      GivenKeeps(h, x);
    } else if Inv(Given(h, x, base)) {
      var free := h.slabs[base].free;
      var list := Given(h, x, base).slabs[base].free;
      assert SlabOk(base, Given(h, x, base).slabs[base]) && list[0] == x && x in list;
      assert forall k :: 0 <= k < |free| ==> list[k + 1] == free[k];
      assert HasPlace(h, base, x) && x !in free;
      Elsewhere(h, base, x);
    }
  }

  lemma GivenChained(h: Heap, x: nat)
    requires Inv(h) && x in h.live && h.live[x].base in h.slabs
    ensures Marked(Given(h, x, h.live[x].base)) && Chained(Given(h, x, h.live[x].base))
  {
    var s := h.slabs[h.live[x].base];
    BlockWord(h, x);
    ChainKept(h, x / 8, HeadOf(s.free));
    PushChained(h.words, s.free, x);
  }

  ghost function WithoutRun(owner: map<int, nat>, base: nat): map<int, nat> {
    map p | p in owner && owner[p] != base :: owner[p]
  }

  /** A large block gives its pages back; its header is marked as free. */
  ghost function Returned(h: Heap, x: nat, base: nat): Heap {
    Heap(h.slabs, h.larges - {base}, h.live - {x}, WithoutRun(h.owner, base), h.words[base / 8 := 0])
  }

  lemma ReturnedKeeps(h: Heap, x: nat)
    requires Inv(h) && x in h.live && h.live[x].base in h.larges
    ensures Inv(Returned(h, x, h.live[x].base))
  {
    var base := h.live[x].base;
    var h' := Returned(h, x, base);
    assert LiveOk(h, x, h.live[x]) && Owned(h.owner, base, h.larges[base]);
    RunsMarked(h, base, 0);
    HeaderWord(h, base);
    ChainKept(h, base / 8, 0);
    forall b | b in h'.slabs
      ensures Owned(h'.owner, b, h'.slabs[b].g.pages)
    {
      OthersOwned(h.owner, base, b, h.slabs[b].g.pages);
    }
    forall b | b in h'.larges
      ensures Owned(h'.owner, b, h'.larges[b])
    {
      OthersOwned(h.owner, base, b, h.larges[b]);
    }
    forall y | y in h'.live
      ensures LiveOk(h', y, h'.live[y])
    {
      assert LiveOk(h, y, h.live[y]);
    }
    forall b, y | b in h'.slabs
      ensures HasPlace(h', b, y)
    {
      ReturnedPlace(h, x, b, y);
    }
  }

  lemma ReturnedPlace(h: Heap, x: nat, b: nat, y: nat)
    requires Inv(h) && x in h.live && h.live[x].base in h.larges && b in h.slabs
    ensures HasPlace(Returned(h, x, h.live[x].base), b, y)
  {
    assert HasPlace(h, b, y);
    if InSlab(b, h.slabs[b].g, y) && y == x {
      assert SlabOk(b, h.slabs[b]);
      BlockInside(b, h.slabs[b].g, x);
      Elsewhere(h, b, x);
    }
  }

  lemma HeaderWord(h: Heap, base: nat)
    requires Inv(h) && (base in h.slabs || base in h.larges)
    ensures forall b, y :: b in h.slabs && y in h.slabs[b].free ==> y / 8 != base / 8
  {
    forall b, y | b in h.slabs && y in h.slabs[b].free
      ensures y / 8 != base / 8
    {
      LinkIsNoHeader(h, b, y, base);
      OtherCell(y, base);
    }
  }

  lemma OthersOwned(owner: map<int, nat>, base: nat, b: nat, m: nat)
    requires Owned(owner, b, m) && b != base
    ensures Owned(WithoutRun(owner, base), b, m)
  {
    forall p | b / PAGE_SIZE <= p < b / PAGE_SIZE + m
      ensures OwnerIs(WithoutRun(owner, base), p, b)
    {
      assert OwnerIs(owner, p, b);
    }
  }

  /** A program stores into a block it was given. */
  function Stored(h: Heap, w: nat, value: nat): Heap {
    h.(words := h.words[w := value])
  }

  /** Whatever programs write into their blocks, the headers and the links stay. */
  lemma StoredKeeps(h: Heap, x: nat, w: nat, value: nat)
    requires Inv(h) && x in h.live && x <= 8 * w && 8 * w + 8 <= x + h.live[x].size
    ensures Inv(Stored(h, w, value))
  {
    forall b | b in h.slabs || b in h.larges
      ensures b / 8 != w
    {
      HeadersClear(h, x, b);
      assert b in h.slabs ==> Owned(h.owner, b, h.slabs[b].g.pages);
      PageIsWord(b);
    }
    forall b, y | b in h.slabs && y in h.slabs[b].free
      ensures y / 8 != w
    {
      LinkClear(h, x, b, y);
      FreeInside(h, b, y);
    }
    ChainKept(h, w, value);
    var h' := Stored(h, w, value);
    forall b, y | b in h'.slabs
      ensures HasPlace(h', b, y)
    {
      assert HasPlace(h, b, y);
    }
    forall y | y in h'.live
      ensures LiveOk(h', y, h'.live[y])
    {
      assert LiveOk(h, y, h.live[y]);
    }
  }

  // ----- runs

  datatype Step =
    | GrowOne(c: nat, base: nat)
    | TakeOne(base: nat)
    | AddLarge(size: u64, base: nat)
    | GiveOne(x: nat)
    | ReturnLarge(x: nat)
    | StoreOne(x: nat, w: nat, value: nat)

  function NewSlab(c: nat, base: nat): Slab
    requires c < CLASSES
  {
    Slab(c, GeometryOf(c), AllBlocks(base, GeometryOf(c), SlabCount(c)), SlabCount(c))
  }

  ghost predicate Enabled(h: Heap, step: Step) {
    match step
    case GrowOne(c, base) => c < CLASSES && FreshRun(h.owner, base, SlabPages(c))
    case TakeOne(base) => base in h.slabs && h.slabs[base].free != [] && h.slabs[base].freeCount > 0
    case AddLarge(size, base) => FreshRun(h.owner, base, LargePages(size))
    case GiveOne(x) => x in h.live && h.live[x].base in h.slabs
    case ReturnLarge(x) => x in h.live && h.live[x].base in h.larges
    case StoreOne(x, w, _) => x in h.live && x <= 8 * w && 8 * w + 8 <= x + h.live[x].size
  }

  ghost function Apply(h: Heap, step: Step): Heap
    requires Enabled(h, step)
  {
    match step
    case GrowOne(c, base) => Grown(h, base, NewSlab(c, base))
    case TakeOne(base) => Taken(h, base)
    case AddLarge(size, base) => LargeAdded(h, base, LargePages(size))
    case GiveOne(x) => Given(h, x, h.live[x].base)
    case ReturnLarge(x) => Returned(h, x, h.live[x].base)
    case StoreOne(_, w, value) => Stored(h, w, value)
  }

  lemma StepKeeps(h: Heap, step: Step)
    requires Inv(h) && Enabled(h, step)
    ensures Inv(Apply(h, step))
  {
    match step
    case GrowOne(c, base) =>
      NewSlabOk(base, c);
      GrowKeeps(h, base, NewSlab(c, base));
    case TakeOne(base) => TakenKeeps(h, base);
    case AddLarge(size, base) => LargeKeeps(h, base, LargePages(size));
    case GiveOne(x) => GivenKeeps(h, x);
    case ReturnLarge(x) => ReturnedKeeps(h, x);
    case StoreOne(x, w, value) => StoredKeeps(h, x, w, value);
  }

  /** slab_init, with the rest of memory in any state. */
  function EmptyHeap(words: Words): Heap {
    Heap(map[], map[], map[], map[], words)
  }

  ghost predicate Follows(h: Heap, step: Step, h': Heap) {
    Enabled(h, step) && h' == Apply(h, step)
  }

  ghost predicate IsRun(hs: seq<Heap>, steps: seq<Step>) {
    && |hs| == |steps| + 1 && hs[0] == EmptyHeap(hs[0].words)
    && forall i :: 0 <= i < |steps| ==> Follows(hs[i], steps[i], hs[i + 1])
  }

  lemma {:induction false} RunInv(hs: seq<Heap>, steps: seq<Step>, n: nat)
    requires IsRun(hs, steps) && n < |hs|
    ensures Inv(hs[n])
  {
    if n > 0 {
      RunInv(hs, steps, n - 1);
      assert Follows(hs[n - 1], steps[n - 1], hs[n - 1 + 1]);
      StepKeeps(hs[n - 1], steps[n - 1]);
    }
  }

  /**
  At every point of every run, live blocks overlap neither each other nor any
  header nor the link in any free block, all headers and links are intact, and
  every block of a slab is free or live.
  */
  lemma RunBlocksApart(hs: seq<Heap>, steps: seq<Step>, n: nat, x: nat)
    requires IsRun(hs, steps) && n < |hs| && x in hs[n].live
    ensures forall y :: y in hs[n].live && y != x ==> x + hs[n].live[x].size <= y || y + hs[n].live[y].size <= x
    ensures forall b :: b in hs[n].slabs || b in hs[n].larges ==> b + OFFSET <= x || x + hs[n].live[x].size <= b
    ensures forall b, y :: b in hs[n].slabs && y in hs[n].slabs[b].free ==> y + 8 <= x || x + hs[n].live[x].size <= y
    ensures Marked(hs[n]) && Chained(hs[n]) && Conserved(hs[n])
  {
    RunInv(hs, steps, n);
    forall b, y | b in hs[n].slabs && y in hs[n].slabs[b].free
      ensures y + 8 <= x || x + hs[n].live[x].size <= y
    {
      LinkClear(hs[n], x, b, y);
    }
    forall y | y in hs[n].live && y != x
      ensures x + hs[n].live[x].size <= y || y + hs[n].live[y].size <= x
    {
      LiveDisjoint(hs[n], x, y);
    }
    forall b | b in hs[n].slabs || b in hs[n].larges
      ensures b + OFFSET <= x || x + hs[n].live[x].size <= b
    {
      HeadersClear(hs[n], x, b);
    }
  }

  /** What a call of slab_alloc or slab_free does, as steps of a run. */
  ghost predicate Leads(h: Heap, steps: seq<Step>, h': Heap)
    decreases |steps|
  {
    if steps == [] then h' == h else Enabled(h, steps[0]) && Leads(Apply(h, steps[0]), steps[1..], h')
  }

  lemma LeadsOne(h: Heap, step: Step, h': Heap)
    requires Enabled(h, step) && h' == Apply(h, step)
    ensures Leads(h, [step], h')
  {
    assert [step][1..] == [] && Leads(h', [], h');
  }

  lemma LeadsTwo(h: Heap, step: Step, t: Heap, next: Step, h': Heap)
    requires Enabled(h, step) && t == Apply(h, step) && Enabled(t, next) && h' == Apply(t, next)
    ensures Leads(h, [step, next], h')
  {
    LeadsOne(t, next, h');
    assert [step, next][1..] == [next];
  }

  // ----- the caches

  /** Every cache lists exactly the slabs of its class. */
  ghost predicate Listed(caches: seq<seq<nat>>, slabs: map<nat, Slab>) {
    && |caches| == CLASSES
    && (forall c :: 0 <= c < CLASSES ==> CacheOk(caches[c], slabs, c))
    && (forall b :: b in slabs ==> slabs[b].c < CLASSES && b in caches[slabs[b].c])
  }

  ghost predicate CacheOk(list: seq<nat>, slabs: map<nat, Slab>, c: nat) {
    forall b :: b in list ==> b in slabs && slabs[b].c == c && slabs[b].g.size == SizeOf(c)
  }

  lemma ListedGrow(caches: seq<seq<nat>>, slabs: map<nat, Slab>, base: nat, s: Slab)
    requires Listed(caches, slabs) && base !in slabs && s.c < CLASSES && s.g.size == SizeOf(s.c)
    ensures Listed(caches[s.c := [base] + caches[s.c]], slabs[base := s])
  {
    var caches', slabs' := caches[s.c := [base] + caches[s.c]], slabs[base := s];
    forall c | 0 <= c < CLASSES
      ensures CacheOk(caches'[c], slabs', c)
    {
      assert CacheOk(caches[c], slabs, c);
    }
    forall b | b in slabs'
      ensures slabs'[b].c < CLASSES && b in caches'[slabs'[b].c]
    {
    }
  }

  /** A slab may change as long as its class stays. */
  lemma ListedUpdate(caches: seq<seq<nat>>, slabs: map<nat, Slab>, base: nat, s: Slab)
    requires Listed(caches, slabs) && base in slabs && s.c == slabs[base].c && s.g == slabs[base].g
    ensures Listed(caches, slabs[base := s])
  {
    forall c | 0 <= c < CLASSES
      ensures CacheOk(caches[c], slabs[base := s], c)
    {
      assert CacheOk(caches[c], slabs, c);
    }
  }

  /** A pointer that slab_free takes neither for a large block nor for a block of any slab. */
  ghost predicate Stray(h: Heap, ptr: nat) {
    ptr >= OFFSET && !LooksLarge(h.words, ptr) && forall b :: b in h.slabs ==> !Matches(b, h.slabs[b].g, ptr)
  }

  /** A live block is none. */
  lemma LiveIsNotStray(h: Heap, x: nat)
    requires Inv(h) && x in h.live
    ensures !Stray(h, x)
  {
    TestIsExact(h, x);
    LiveInside(h, x);
    if h.live[x].base in h.slabs {
      MatchesHome(h, h.live[x].base, x);
    }
  }

  /** A live block passes the test for the slab that it lies in and for no other. */
  lemma MatchesHome(h: Heap, b: nat, ptr: nat)
    requires Inv(h) && ptr in h.live && h.live[ptr].base in h.slabs && b in h.slabs
    ensures Matches(b, h.slabs[b].g, ptr) <==> b == h.live[ptr].base
  {
    var home := h.live[ptr].base;
    assert LiveOk(h, ptr, h.live[ptr]) && SlabOk(home, h.slabs[home]) && SlabOk(b, h.slabs[b]);
    BlockMatches(home, h.slabs[home].g, ptr);
    if Matches(b, h.slabs[b].g, ptr) {
      Elsewhere(h, b, ptr);
    }
  }

  /** What is stored in the header of a slab; `head` is the first block of the free list. */
  datatype Header = Header(c: nat, g: Geometry, head: nat, freeCount: nat)

  function HeaderOf(s: Slab): Header {
    Header(s.c, s.g, HeadOf(s.free), s.freeCount)
  }

  /** The headers are those of the slabs. */
  ghost predicate Records(headers: map<nat, Header>, slabs: map<nat, Slab>) {
    forall b :: RecordAt(headers, slabs, b)
  }

  ghost predicate RecordAt(headers: map<nat, Header>, slabs: map<nat, Slab>, b: nat) {
    (b in headers <==> b in slabs) && (b in slabs ==> headers[b] == HeaderOf(slabs[b]))
  }

  lemma RecordsUpdate(headers: map<nat, Header>, slabs: map<nat, Slab>, base: nat, s: Slab)
    requires Records(headers, slabs)
    ensures Records(headers[base := HeaderOf(s)], slabs[base := s])
  {
    var headers', slabs' := headers[base := HeaderOf(s)], slabs[base := s];
    forall b
      ensures RecordAt(headers', slabs', b)
    {
      assert RecordAt(headers, slabs, b);
    }
  }

  /** A free list is empty exactly if its head is 0. */
  lemma HeadIsZero(h: Heap, base: nat)
    requires Inv(h) && base in h.slabs
    ensures HeadOf(h.slabs[base].free) == 0 <==> h.slabs[base].free == []
  {
    if h.slabs[base].free != [] {
      FreeInside(h, base, h.slabs[base].free[0]);
    }
  }

  /** All that the heap keeps true. */
  ghost predicate Sound(h: Heap, caches: seq<seq<nat>>, headers: map<nat, Header>) {
    forall b :: SoundAt(h, caches, headers, b)
  }

  ghost predicate SoundAt(h: Heap, caches: seq<seq<nat>>, headers: map<nat, Header>, b: nat) {
    Inv(h) && Listed(caches, h.slabs) && RecordAt(headers, h.slabs, b)
  }

  lemma SoundIs(h: Heap, caches: seq<seq<nat>>, headers: map<nat, Header>)
    requires Sound(h, caches, headers)
    ensures Inv(h) && Listed(caches, h.slabs) && Records(headers, h.slabs)
  {
    assert SoundAt(h, caches, headers, 0);
    forall b
      ensures RecordAt(headers, h.slabs, b)
    {
      assert SoundAt(h, caches, headers, b);
    }
  }

  lemma IsSound(h: Heap, caches: seq<seq<nat>>, headers: map<nat, Header>)
    requires Inv(h) && Listed(caches, h.slabs) && Records(headers, h.slabs)
    ensures Sound(h, caches, headers)
  {
    forall b
      ensures SoundAt(h, caches, headers, b)
    {
      assert RecordAt(headers, h.slabs, b);
    }
  }

  lemma EmptySound(words: Words, caches: seq<seq<nat>>)
    requires |caches| == CLASSES && forall c :: 0 <= c < CLASSES ==> caches[c] == []
    ensures Sound(EmptyHeap(words), caches, map[])
  {
  }

  lemma GrowSound(h: Heap, caches: seq<seq<nat>>, headers: map<nat, Header>, c: nat, base: nat)
    requires Sound(h, caches, headers) && c < CLASSES && FreshRun(h.owner, base, SlabPages(c))
    ensures |caches| == CLASSES
    ensures Sound(Grown(h, base, NewSlab(c, base)), caches[c := [base] + caches[c]],
                  headers[base := HeaderOf(NewSlab(c, base))])
  {
    var s := NewSlab(c, base);
    SoundIs(h, caches, headers);
    NewSlabOk(base, c);
    GrowKeeps(h, base, s);
    ListedGrow(caches, h.slabs, base, s);
    RecordsUpdate(headers, h.slabs, base, s);
    IsSound(Grown(h, base, s), caches[c := [base] + caches[c]], headers[base := HeaderOf(s)]);
  }

  lemma TakeSound(h: Heap, caches: seq<seq<nat>>, headers: map<nat, Header>, base: nat)
    requires Sound(h, caches, headers) && base in h.slabs && h.slabs[base].free != []
    ensures h.slabs[base].freeCount > 0 && h.slabs[base].free[0] !in h.live && h.slabs[base].free[0] != 0
    ensures base in headers && headers[base] == HeaderOf(h.slabs[base])
    ensures WordAt(h.words, h.slabs[base].free[0]) == HeadOf(h.slabs[base].free[1..])
    ensures Sound(Taken(h, base), caches, headers[base := HeaderOf(Taken(h, base).slabs[base])])
  {
    SoundIs(h, caches, headers);
    assert RecordAt(headers, h.slabs, base);
    TakenKeeps(h, base);
    TailChained(h.words, h.slabs[base].free);
    HeadIsZero(h, base);
    var s := Taken(h, base).slabs[base];
    ListedUpdate(caches, h.slabs, base, s);
    RecordsUpdate(headers, h.slabs, base, s);
    IsSound(Taken(h, base), caches, headers[base := HeaderOf(s)]);
  }

  lemma GiveSound(h: Heap, caches: seq<seq<nat>>, headers: map<nat, Header>, x: nat, base: nat)
    requires Sound(h, caches, headers) && x in h.live && h.live[x].base == base && base in h.slabs
    ensures base in headers && headers[base] == HeaderOf(h.slabs[base])
    ensures Sound(Given(h, x, base), caches, headers[base := HeaderOf(Given(h, x, base).slabs[base])])
  {
    SoundIs(h, caches, headers);
    assert RecordAt(headers, h.slabs, base);
    GivenKeeps(h, x);
    var s := Given(h, x, base).slabs[base];
    ListedUpdate(caches, h.slabs, base, s);
    RecordsUpdate(headers, h.slabs, base, s);
    IsSound(Given(h, x, base), caches, headers[base := HeaderOf(s)]);
  }

  lemma LargeSound(h: Heap, caches: seq<seq<nat>>, headers: map<nat, Header>, base: nat, n: nat)
    requires Sound(h, caches, headers) && FreshRun(h.owner, base, n)
    ensures base + OFFSET !in h.live && Sound(LargeAdded(h, base, n), caches, headers)
  {
    SoundIs(h, caches, headers);
    LargeKeeps(h, base, n);
    IsSound(LargeAdded(h, base, n), caches, headers);
  }

  lemma ReturnSound(h: Heap, caches: seq<seq<nat>>, headers: map<nat, Header>, x: nat)
    requires Sound(h, caches, headers) && x in h.live && h.live[x].base in h.larges
    ensures Sound(Returned(h, x, h.live[x].base), caches, headers)
  {
    SoundIs(h, caches, headers);
    ReturnedKeeps(h, x);
    IsSound(Returned(h, x, h.live[x].base), caches, headers);
  }

  class SlabHeap {
    var caches: seq<seq<nat>>
    var headers: map<nat, Header>
    var larges: map<nat, nat>
    var words: Words
    ghost var slabs: map<nat, Slab>
    ghost var live: map<nat, Block>
    ghost var owner: map<int, nat>

    ghost function View(): Heap
      reads this
    {
      Heap(slabs, larges, live, owner, words)
    }

    ghost predicate Valid()
      reads this
    {
      Sound(View(), caches, headers)
    }

    /** slab_init */
    constructor (words: Words)
      ensures Valid() && View() == EmptyHeap(words)
    {
      caches := seq(CLASSES, _ => []);
      headers, larges, this.words := map[], map[], words;
      slabs, live, owner := map[], map[], map[];
      new;
      EmptySound(words, caches);
    }

    /** The free-list loop of slab_grow. */
    method BuildFree(base: nat, g: Geometry) returns (head: nat)
      modifies this`words
      ensures words == LinkAll(old(words), base, g, g.count) && head == HeadOf(AllBlocks(base, g, g.count))
    {
      head := 0;
      var i := 0;
      while i < g.count
        invariant 0 <= i <= g.count && words == LinkAll(old(words), base, g, i) && head == HeadOf(AllBlocks(base, g, i))
      {
        var node := BlockAt(base, g, i);
        words := words[node / 8 := head];
        head := node;
        i := i + 1;
      }
    }

    /** slab_grow, given the pages. */
    method Grow(c: nat, base: nat)
      requires Valid() && c < CLASSES && FreshRun(owner, base, SlabPages(c))
      modifies this
      ensures Valid() && View() == Grown(old(View()), base, NewSlab(c, base))
      ensures base in slabs && slabs[base].g == GeometryOf(c) && slabs[base].free != []
    {
      ghost var s := NewSlab(c, base);
      var g := GeometryOf(c);
      NewSlabOk(base, c);
      GrowSound(View(), caches, headers, c, base);
      words := words[base / 8 := SLAB_MAGIC];
      var head := BuildFree(base, g);
      headers := headers[base := Header(c, g, head, g.count)];
      caches := caches[c := [base] + caches[c]];
      slabs, owner := slabs[base := s], WithRun(owner, base, g.pages);
    }

    /** The search of slab_alloc for the first slab with a free block. */
    method FindFree(list: seq<nat>, ghost c: nat) returns (base: Option<nat>)
      requires Valid() && CacheOk(list, slabs, c)
      ensures base.Some? ==> exists k :: FirstFree(list, slabs, k) && list[k] == base.value
      ensures base.None? ==> forall b :: b in list ==> b in slabs && slabs[b].free == []
    {
      SoundIs(View(), caches, headers);
      var k := 0;
      while k < |list|
        invariant 0 <= k <= |list| && forall j :: 0 <= j < k ==> list[j] in slabs && slabs[list[j]].free == []
      {
        assert RecordAt(headers, slabs, list[k]);
        HeadIsZero(View(), list[k]);
        if headers[list[k]].head != 0 {
          assert FirstFree(list, slabs, k);
          return Some(list[k]);
        }
        k := k + 1;
      }
      return None;
    }

    /** Unlink the head of the free list. */
    method TakeFrom(base: nat) returns (ptr: nat)
      requires Valid() && base in slabs && slabs[base].free != []
      modifies this
      ensures old(slabs)[base].freeCount > 0
      ensures Valid() && View() == Taken(old(View()), base)
      ensures ptr == old(slabs)[base].free[0] && ptr !in old(live) && ptr != 0
    {
      TakeSound(View(), caches, headers, base);
      ghost var h := Taken(View(), base);
      var r := headers[base];
      ptr := r.head;
      headers := headers[base := Header(r.c, r.g, WordAt(words, ptr), r.freeCount - 1)];
      slabs, live := h.slabs, h.live;
    }

    /**
    slab_alloc; `pages` is the run that the page allocator hands out if it is
    asked for one.  The block is large enough unless 64 more than its size wraps.
    */
    method Alloc(size: u64, pages: Option<nat>) returns (ptr: nat, ghost steps: seq<Step>)
      requires Valid()
      requires pages.Some? ==> FreshRun(owner, pages.value, PagesFor(size))
      modifies this
      ensures Valid() && Leads(old(View()), steps, View())
      ensures ptr == 0 <==> size == 0 || (pages.None? && !HasFree(old(slabs), ClassFrom(size, 0)))
      ensures ptr == 0 ==> View() == old(View())
      ensures ptr != 0 ==> ptr !in old(live) && ptr in live && live - {ptr} == old(live)
      ensures ptr != 0 ==> (size <= live[ptr].size <==> size <= U64 - OFFSET)
      ensures ptr != 0 && ClassFrom(size, 0).Some? ==> live[ptr].size == SizeOf(ClassFrom(size, 0).value)
    {
      ghost var was := View();
      steps := [];
      if size == 0 {
        return 0, steps;
      }
      var c := CacheFor(size);
      if c.None? {
        ptr := AllocLarge(size, pages);
        if pages.Some? {
          steps := [AddLarge(size, pages.value)];
          LeadsOne(was, AddLarge(size, pages.value), View());
        }
      } else {
        SmallFits(size);
        ptr, steps := AllocSmall(c.value, pages);
      }
    }

    /** slab_alloc from the caches. */
    method AllocSmall(c: nat, pages: Option<nat>) returns (ptr: nat, ghost steps: seq<Step>)
      requires Valid() && c < CLASSES && (pages.Some? ==> FreshRun(owner, pages.value, SlabPages(c)))
      modifies this
      ensures Valid() && Leads(old(View()), steps, View())
      ensures ptr == 0 <==> pages.None? && !HasFree(old(slabs), Some(c))
      ensures ptr == 0 ==> View() == old(View())
      ensures ptr != 0 ==> ptr !in old(live) && ptr in live && live[ptr].size == SizeOf(c) && live - {ptr} == old(live)
    {
      SoundIs(View(), caches, headers);
      assert CacheOk(caches[c], slabs, c);
      ghost var was := View();
      steps := [];
      var base := FindFree(caches[c], c);
      HasFreeIs(caches, slabs, c, base);
      if base.Some? {
        ptr := TakeFrom(base.value);
        steps := [TakeOne(base.value)];
        LeadsOne(was, TakeOne(base.value), View());
      } else {
        if pages.None? {
          return 0, steps;
        }
        Grow(c, pages.value);
        ghost var grown := View();
        ptr := TakeFrom(pages.value);
        steps := [GrowOne(c, pages.value), TakeOne(pages.value)];
        LeadsTwo(was, GrowOne(c, pages.value), grown, TakeOne(pages.value), View());
      }
      AddedOnly(was.live, ptr, live[ptr]);
    }

    /** slab_alloc_large */
    method AllocLarge(size: u64, pages: Option<nat>) returns (ptr: nat)
      requires Valid() && (pages.Some? ==> FreshRun(owner, pages.value, LargePages(size)))
      modifies this`larges, this`live, this`owner, this`words
      ensures Valid()
      ensures ptr == 0 <==> pages.None?
      ensures View() == if pages.None? then old(View()) else LargeAdded(old(View()), pages.value, LargePages(size))
      ensures ptr != 0 ==> ptr !in old(live) && ptr in live && live - {ptr} == old(live)
      ensures ptr != 0 ==> (size <= live[ptr].size <==> size <= U64 - OFFSET)
    {
      if pages.None? {
        return 0;
      }
      var base, n := pages.value, LargePages(size);
      LargeRoomIff(size);
      LargeSound(View(), caches, headers, base, n);
      ptr := base + OFFSET;
      larges, words := larges[base := n], words[base / 8 := LARGE_MAGIC];
      live, owner := live[ptr := Block(n * PAGE_SIZE - OFFSET, base)], WithRun(owner, base, n);
      AddedOnly(old(live), ptr, live[ptr]);
    }

    /** The inner search of slab_free, in one cache. */
    method FindIn(list: seq<nat>, ptr: nat) returns (base: Option<nat>)
      requires Valid() && forall b :: b in list ==> b in slabs
      ensures base.Some? ==> base.value in list && Matches(base.value, slabs[base.value].g, ptr)
      ensures base.None? ==> forall b :: b in list ==> !Matches(b, slabs[b].g, ptr)
    {
      SoundIs(View(), caches, headers);
      var k := 0;
      while k < |list|
        invariant 0 <= k <= |list| && forall j :: 0 <= j < k ==> !Matches(list[j], slabs[list[j]].g, ptr)
      {
        assert RecordAt(headers, slabs, list[k]) && list[k] in slabs;
        if WordAt(words, list[k]) == SLAB_MAGIC && Matches(list[k], headers[list[k]].g, ptr) {
          return Some(list[k]);
        }
        k := k + 1;
      }
      return None;
    }

    /** The search of slab_free finds a slab that a pointer matches if there is one. */
    method FindHome(ptr: nat) returns (base: Option<nat>)
      requires Valid()
      ensures base.Some? ==> base.value in slabs && Matches(base.value, slabs[base.value].g, ptr)
      ensures base.None? ==> forall b :: b in slabs ==> !Matches(b, slabs[b].g, ptr)
    {
      SoundIs(View(), caches, headers);
      base := None;
      var c := 0;
      while c < CLASSES && base.None?
        invariant 0 <= c <= CLASSES
        invariant base.None? ==> forall b :: b in slabs && slabs[b].c < c ==> !Matches(b, slabs[b].g, ptr)
        invariant base.Some? ==> base.value in slabs && Matches(base.value, slabs[base.value].g, ptr)
        decreases CLASSES - c, base.None?
      {
        assert CacheOk(caches[c], slabs, c);
        base := FindIn(caches[c], ptr);
        if base.None? {
          c := c + 1;
        }
      }
    }

    /** slab_free on a block that is live, on nothing, or on a pointer that matches nothing, which is left alone. */
    method Free(ptr: nat)
      requires Valid() && (ptr == 0 || ptr in live || Stray(View(), ptr))
      modifies this
      ensures Valid() && live == old(live) - {ptr}
      ensures ptr !in old(live) ==> View() == old(View())
      ensures ptr in old(live) && old(live)[ptr].base in old(larges) ==>
                View() == Returned(old(View()), ptr, old(live)[ptr].base) && slabs == old(slabs)
      ensures ptr in old(live) && old(live)[ptr].base in old(slabs) ==>
                View() == Given(old(View()), ptr, old(live)[ptr].base)
    {
      SoundIs(View(), caches, headers);
      NothingAtZero(View());
      if ptr == 0 {
        assert live - {ptr} == live;
        return;
      }
      if ptr in live {
        LiveIsNotStray(View(), ptr);
        TestIsExact(View(), ptr);
        LiveInside(View(), ptr);
      } else {
        assert live - {ptr} == live;
      }
      if LooksLarge(words, ptr) {
        FreeLarge(ptr);
        return;
      }
      GiveBack(ptr);
    }

    method FreeLarge(ptr: nat)
      requires Valid() && ptr in live && live[ptr].base in larges && ptr == live[ptr].base + OFFSET
      modifies this`larges, this`live, this`owner, this`words
      ensures Valid() && View() == Returned(old(View()), ptr, old(live)[ptr].base)
    {
      ReturnSound(View(), caches, headers, ptr);
      larges, words := larges - {ptr - OFFSET}, words[(ptr - OFFSET) / 8 := 0];
      live, owner := live - {ptr}, WithoutRun(owner, ptr - OFFSET);
    }

    method GiveBack(ptr: nat)
      requires Valid() && (ptr in live ==> live[ptr].base in slabs) && (ptr !in live ==> Stray(View(), ptr))
      modifies this
      ensures Valid()
      ensures View() == if ptr in old(live) then Given(old(View()), ptr, old(live)[ptr].base) else old(View())
    {
      var base := FindHome(ptr);
      if ptr in live {
        SoundIs(View(), caches, headers);
        MatchesHome(View(), live[ptr].base, ptr);
      }
      if base.Some? {
        if ptr in live {
          MatchesHome(View(), base.value, ptr);
        }
        PutFree(base.value, ptr);
      }
    }

    method PutFree(base: nat, ptr: nat)
      requires Valid() && ptr in live && base in slabs && live[ptr].base == base
      modifies this`headers, this`words, this`slabs, this`live
      ensures Valid() && View() == Given(old(View()), ptr, base)
    {
      GiveSound(View(), caches, headers, ptr, base);
      ghost var h := Given(View(), ptr, base);
      var r := headers[base];
      words := words[ptr / 8 := r.head];
      headers := headers[base := Header(r.c, r.g, ptr, r.freeCount + 1)];
      slabs, live := h.slabs, h.live;
    }
  }

  /** The slab that slab_alloc takes from. */
  ghost predicate FirstFree(list: seq<nat>, slabs: map<nat, Slab>, k: int) {
    && 0 <= k < |list| && list[k] in slabs && slabs[list[k]].free != []
    && forall j :: 0 <= j < k ==> list[j] in slabs && slabs[list[j]].free == []
  }

  /** Some slab of the class has a free block. */
  ghost predicate HasFree(slabs: map<nat, Slab>, c: Option<nat>) {
    exists b :: b in slabs && c == Some(slabs[b].c) && slabs[b].free != []
  }

  lemma HasFreeIs(caches: seq<seq<nat>>, slabs: map<nat, Slab>, c: nat, found: Option<nat>)
    requires Listed(caches, slabs) && c < CLASSES
    requires found.Some? ==> exists k :: FirstFree(caches[c], slabs, k) && caches[c][k] == found.value
    requires found.None? ==> forall b :: b in caches[c] ==> b in slabs && slabs[b].free == []
    ensures found.Some? <==> HasFree(slabs, Some(c))
    ensures found.Some? ==>
              found.value in slabs && slabs[found.value].free != [] && slabs[found.value].g.size == SizeOf(c)
  {
    assert CacheOk(caches[c], slabs, c);
  }

  lemma SmallFits(size: nat)
    requires ClassFrom(size, 0).Some?
    ensures size <= SizeOf(ClassFrom(size, 0).value) && size <= U64 - OFFSET
  {
    Sizes();
  }

  lemma AddedOnly(live: map<nat, Block>, ptr: nat, b: Block)
    requires ptr !in live
    ensures live[ptr := b] - {ptr} == live
  {
  }

  lemma NothingAtZero(h: Heap)
    requires Inv(h)
    ensures 0 !in h.live
  {
    if 0 in h.live {
      LiveInside(h, 0);
    }
  }
}
