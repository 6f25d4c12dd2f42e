/**
Fork (kernel/server.c): a child's address space is filled region by region, by
sharing, by copy-on-write sharing or by copying, while the region table is
replayed; when anything fails, the half-built child is torn down
(kernel/sched.c).
*/
module Fork {
  import R = Regions
  import Isolation
  import opened AddressSpaces
  import opened Common

  const PROT_WRITE: bv32 := 2
  const PROT_EXEC: bv32 := 4
  const MAP_PRIVATE: bv32 := 1
  const MAP_ANONYMOUS: bv32 := 2

  predicate Writable(t: R.Attr) {
    t.prot & PROT_WRITE != 0
  }

  predicate Executable(t: R.Attr) {
    t.prot & PROT_EXEC != 0
  }

  predicate SharedFile(t: R.Attr) {
    t.objectType.File? && !Writable(t)
  }

  predicate SharedCow(t: R.Attr) {
    t.objectType.Anon? && Writable(t) && t.flags & MAP_PRIVATE != 0 && t.flags & MAP_ANONYMOUS != 0
  }

  /** The region's frames are given to the child themselves, not copies of them. */
  predicate Shares(t: R.Attr) {
    SharedFile(t) || SharedCow(t)
  }

  /** Whether a page of the child starts out writable. */
  predicate ChildWritable(t: R.Attr) {
    Writable(t) && !SharedCow(t)
  }

  // ----- regions made of whole pages

  ghost predicate Paged(rs: seq<R.Region>) {
    forall i :: 0 <= i < |rs| ==> rs[i].base % PAGE_SIZE == 0 && rs[i].len % PAGE_SIZE == 0
  }

  function Lo(r: R.Region): nat {
    r.base / PAGE_SIZE
  }

  function Hi(r: R.Region): nat {
    (r.End() + (PAGE_SIZE - 1)) / PAGE_SIZE
  }

  lemma PageHeld(r: R.Region, p: int)
    requires r.base % PAGE_SIZE == 0 && r.len % PAGE_SIZE == 0
    ensures r.Holds(p * PAGE_SIZE) <==> Lo(r) <= p < Hi(r)
  {
  }

  /** The table records whole pages, none of them the last of the 64-bit address space. */
  ghost predicate WholePages(rs: seq<R.Region>) {
    forall a :: R.At(rs, a).Some? ==>
                  R.At(rs, PageStart(a)).Some? && PageStart(a) + 2 * PAGE_SIZE <= U64
  }

  function PageStart(a: int): int {
    a / PAGE_SIZE * PAGE_SIZE
  }

  lemma WholeRegion(r: R.Region, a: int)
    requires r.base % PAGE_SIZE == 0 && r.len % PAGE_SIZE == 0 && r.End() < U64 && r.Holds(a)
    ensures r.Holds(PageStart(a)) && PageStart(a) + 2 * PAGE_SIZE <= U64
  {
    var p, lo, hi := a / PAGE_SIZE, r.base / PAGE_SIZE, r.End() / PAGE_SIZE;
    assert r.base == lo * PAGE_SIZE && r.End() == hi * PAGE_SIZE;
    assert lo <= p < hi;
    assert hi + 1 <= U64 / PAGE_SIZE;
  }

  lemma PagedIsWhole(rs: seq<R.Region>)
    requires R.Table(rs) && Paged(rs)
    ensures WholePages(rs)
  {
    forall a | R.At(rs, a).Some?
      ensures R.At(rs, PageStart(a)).Some? && PageStart(a) + 2 * PAGE_SIZE <= U64
    {
      var i :| R.HeldAt(rs, i, a);
      WholeRegion(rs[i], a);
      assert R.HeldAt(rs, i, PageStart(a));
    }
  }

  // ----- one region

  /** How slot `k` looks after the pages `[lo, hi)` of a region were given to the child. */
  ghost predicate GivenAt(s: State, t: State, child: Sid, parent: Sid, lo: int, hi: int, attr: R.Attr, k: Slot)
    requires Backed(s) && Backed(t)
  {
    if InRange(k, child, lo, hi) then
      && (parent, k.1) in s.ptes && Shows(t, k, ChildWritable(attr), Executable(attr), Sees(s, (parent, k.1)))
      && (if Shares(attr) then t.ptes[k].frame == s.ptes[(parent, k.1)].frame else OwnFrame(s, t, k))
    else if SharedCow(attr) && InRange(k, parent, lo, hi) then
      k in s.ptes && Shows(t, k, false, Executable(attr), Sees(s, k)) && t.ptes[k].frame == s.ptes[k].frame
    else
      SameAt(s, t, k)
  }

  ghost predicate Given(s: State, t: State, child: Sid, parent: Sid, lo: int, hi: int, attr: R.Attr)
    requires Backed(s) && Backed(t)
  {
    forall k :: GivenAt(s, t, child, parent, lo, hi, attr, k)
  }

  lemma CopiedIsGiven(s: State, t: State, child: Sid, parent: Sid, lo: int, hi: int, attr: R.Attr)
    requires Backed(s) && Backed(t) && !SharedCow(attr)
    requires Filled(s, t, child, parent, lo, hi, ChildWritable(attr), Executable(attr), !Shares(attr))
    ensures Given(s, t, child, parent, lo, hi, attr)
  {
    forall k
      ensures GivenAt(s, t, child, parent, lo, hi, attr, k)
    {
      assert FilledAt(s, t, child, parent, lo, hi, ChildWritable(attr), Executable(attr), !Shares(attr), k);
    }
  }

  lemma CowIsGiven(s: State, t: State, child: Sid, parent: Sid, lo: int, hi: int, attr: R.Attr)
    requires Backed(s) && Backed(t) && SharedCow(attr)
    requires CowShared(s, t, child, parent, lo, hi, Executable(attr))
    ensures Given(s, t, child, parent, lo, hi, attr)
  {
    forall k
      ensures GivenAt(s, t, child, parent, lo, hi, attr, k)
    {
      assert CowAt(s, t, child, parent, lo, hi, Executable(attr), k);
    }
  }

  lemma SameIsProtected(s: State, x: Sid, lo: int, hi: int)
    requires Backed(s)
    ensures WriteProtected(s, s, x, lo, hi)
  {
  }

  /** Giving region `r` keeps writable frames unshared. */
  ghost predicate SafeToGive(s: State, parent: Sid, r: R.Region) {
    SharedFile(r.attr) ==> NoneWritable(s, parent, Lo(r), Hi(r))
  }

  /**
  The choice between vm_share_user_range, vm_share_cow_user_range and
  vm_clone_user_range.  Pages of a file region are shared as they are, so a
  writable one among them ends up shared and writable.
  */
  method GiveRegion(m: Machine, child: Sid, parent: Sid, r: R.Region, junk: Page, grants: nat) returns (ok: bool)
    requires Accounted(m.View()) && child != parent && |junk| == PAGE_SIZE && 0 < r.len
    requires RangeFree(m.View(), child, Lo(r), Hi(r))
    modifies m
    ensures Accounted(m.View())
    ensures Exclusive(old(m.View())) ==> (Exclusive(m.View()) <==> !ok || SafeToGive(old(m.View()), parent, r))
    ensures ok ==> Given(old(m.View()), m.View(), child, parent, Lo(r), Hi(r), r.attr)
    ensures ok ==> m.Available() == old(m.Available()) - if Shares(r.attr) then 0 else Hi(r) - Lo(r)
    ensures !ok ==> WriteProtected(old(m.View()), m.View(), parent, Lo(r), Hi(r))
    ensures !ok ==> RangeFree(m.View(), child, Lo(r), Hi(r))
    ensures ok <==>
            && AllMapped(old(m.View()), parent, Lo(r), Hi(r)) && grants >= Hi(r) - Lo(r)
            && (Shares(r.attr) || old(m.Available()) >= Hi(r) - Lo(r))
  {
    if SharedFile(r.attr) {
      ok := GiveFile(m, child, parent, r, grants);
    } else if SharedCow(r.attr) {
      ok := GiveCow(m, child, parent, r, grants);
    } else {
      ok := GiveCopy(m, child, parent, r, junk, grants);
    }
  }

  method GiveFile(m: Machine, child: Sid, parent: Sid, r: R.Region, grants: nat) returns (ok: bool)
    requires Accounted(m.View()) && child != parent && 0 < r.len && SharedFile(r.attr)
    requires RangeFree(m.View(), child, Lo(r), Hi(r))
    modifies m
    ensures Accounted(m.View()) && m.Available() == old(m.Available())
    ensures Exclusive(old(m.View())) ==> (Exclusive(m.View()) <==> !ok || SafeToGive(old(m.View()), parent, r))
    ensures ok ==> Given(old(m.View()), m.View(), child, parent, Lo(r), Hi(r), r.attr)
    ensures !ok ==> WriteProtected(old(m.View()), m.View(), parent, Lo(r), Hi(r))
    ensures !ok ==> RangeFree(m.View(), child, Lo(r), Hi(r))
    ensures ok <==> AllMapped(old(m.View()), parent, Lo(r), Hi(r)) && grants >= Hi(r) - Lo(r)
  {
    ghost var was := m.View();
    ok := m.SharePages(child, parent, Lo(r), Hi(r), Writable(r.attr), Executable(r.attr), grants);
    if ok {
      if Exclusive(was) {
        SharingExclusive(was, m.View(), child, parent, Lo(r), Hi(r), false, Executable(r.attr));
      }
      CopiedIsGiven(was, m.View(), child, parent, Lo(r), Hi(r), r.attr);
    } else {
      SameIsProtected(was, parent, Lo(r), Hi(r));
    }
  }

  method GiveCow(m: Machine, child: Sid, parent: Sid, r: R.Region, grants: nat) returns (ok: bool)
    requires Accounted(m.View()) && child != parent && 0 < r.len && SharedCow(r.attr)
    requires RangeFree(m.View(), child, Lo(r), Hi(r))
    modifies m
    ensures Accounted(m.View()) && (Exclusive(old(m.View())) ==> Exclusive(m.View()))
    ensures ok ==> Given(old(m.View()), m.View(), child, parent, Lo(r), Hi(r), r.attr)
    ensures ok ==> m.Available() == old(m.Available())
    ensures !ok ==> WriteProtected(old(m.View()), m.View(), parent, Lo(r), Hi(r))
    ensures !ok ==> RangeFree(m.View(), child, Lo(r), Hi(r))
    ensures ok <==> AllMapped(old(m.View()), parent, Lo(r), Hi(r)) && grants >= Hi(r) - Lo(r)
  {
    ghost var was := m.View();
    ok := m.ShareCowPages(child, parent, Lo(r), Hi(r), Executable(r.attr), grants);
    if ok {
      CowIsGiven(was, m.View(), child, parent, Lo(r), Hi(r), r.attr);
    }
  }

  method GiveCopy(m: Machine, child: Sid, parent: Sid, r: R.Region, junk: Page, grants: nat) returns (ok: bool)
    requires Accounted(m.View()) && child != parent && |junk| == PAGE_SIZE && 0 < r.len && !Shares(r.attr)
    requires RangeFree(m.View(), child, Lo(r), Hi(r))
    modifies m
    ensures Accounted(m.View()) && (Exclusive(old(m.View())) ==> Exclusive(m.View()))
    ensures ok ==> Given(old(m.View()), m.View(), child, parent, Lo(r), Hi(r), r.attr)
    ensures ok ==> m.Available() == old(m.Available()) - (Hi(r) - Lo(r))
    ensures !ok ==> WriteProtected(old(m.View()), m.View(), parent, Lo(r), Hi(r))
    ensures !ok ==> RangeFree(m.View(), child, Lo(r), Hi(r))
    ensures ok <==>
            && AllMapped(old(m.View()), parent, Lo(r), Hi(r)) && grants >= Hi(r) - Lo(r)
            && old(m.Available()) >= Hi(r) - Lo(r)
  {
    ghost var was := m.View();
    ok := m.ClonePages(child, parent, Lo(r), Hi(r), Writable(r.attr), Executable(r.attr), junk, grants);
    if ok {
      CopiedIsGiven(was, m.View(), child, parent, Lo(r), Hi(r), r.attr);
    } else {
      SameIsProtected(was, parent, Lo(r), Hi(r));
    }
  }

  // ----- all regions

  /** How slot `k` looks after the regions of `table` were given to the child, which had nothing mapped before. */
  ghost predicate ForkedAt(s: State, t: State, child: Sid, parent: Sid, table: seq<R.Region>, k: Slot)
    requires Backed(s) && Backed(t)
  {
    var attr := R.At(table, k.1 * PAGE_SIZE);
    if k.0 == child then
      if attr.None? then k !in t.ptes
      else
        && (parent, k.1) in s.ptes
        && Shows(t, k, ChildWritable(attr.value), Executable(attr.value), Sees(s, (parent, k.1)))
        && (Shares(attr.value) ==> t.ptes[k].frame == s.ptes[(parent, k.1)].frame)
    else if k.0 == parent && attr.Some? && SharedCow(attr.value) then
      k in s.ptes && Shows(t, k, false, Executable(attr.value), Sees(s, k)) && t.ptes[k].frame == s.ptes[k].frame
    else
      SameAt(s, t, k)
  }

  ghost predicate Forked(s: State, t: State, child: Sid, parent: Sid, table: seq<R.Region>)
    requires Backed(s) && Backed(t)
  {
    forall k :: ForkedAt(s, t, child, parent, table, k)
  }

  lemma ForkStepAt(s: State, t: State, u: State, child: Sid, parent: Sid, table: seq<R.Region>, r: R.Region,
                   table': seq<R.Region>, k: Slot)
    requires Backed(s) && Backed(t) && Backed(u) && child != parent
    requires r.base % PAGE_SIZE == 0 && r.len % PAGE_SIZE == 0
    requires R.Free(table, r.base, r.End()) && R.SetOn(table, table', r.base, r.End(), Some(r.attr))
    requires ForkedAt(s, t, child, parent, table, k) && ForkedAt(s, t, child, parent, table, (parent, k.1))
    requires GivenAt(t, u, child, parent, Lo(r), Hi(r), r.attr, k)
    ensures ForkedAt(s, u, child, parent, table', k)
  {
    PageHeld(r, k.1);
    assert R.At(table', k.1 * PAGE_SIZE)
        == if r.Holds(k.1 * PAGE_SIZE) then Some(r.attr) else R.At(table, k.1 * PAGE_SIZE);
  }

  lemma ForkStep(s: State, t: State, u: State, child: Sid, parent: Sid, table: seq<R.Region>, r: R.Region,
                 table': seq<R.Region>)
    requires Backed(s) && Backed(t) && Backed(u) && child != parent
    requires r.base % PAGE_SIZE == 0 && r.len % PAGE_SIZE == 0
    requires R.Free(table, r.base, r.End()) && R.SetOn(table, table', r.base, r.End(), Some(r.attr))
    requires Forked(s, t, child, parent, table) && Given(t, u, child, parent, Lo(r), Hi(r), r.attr)
    ensures Forked(s, u, child, parent, table')
  {
    forall k
      ensures ForkedAt(s, u, child, parent, table', k)
    {
      assert ForkedAt(s, t, child, parent, table, k) && ForkedAt(s, t, child, parent, table, (parent, k.1));
      assert GivenAt(t, u, child, parent, Lo(r), Hi(r), r.attr, k);
      ForkStepAt(s, t, u, child, parent, table, r, table', k);
    }
  }

  /** A region that is not given yet is unmapped in the child and unchanged in the parent. */
  lemma NotYetGiven(s: State, t: State, child: Sid, parent: Sid, table: seq<R.Region>, r: R.Region)
    requires Backed(s) && Backed(t) && child != parent && Forked(s, t, child, parent, table)
    requires r.base % PAGE_SIZE == 0 && r.len % PAGE_SIZE == 0 && R.Free(table, r.base, r.End())
    ensures RangeFree(t, child, Lo(r), Hi(r))
    ensures forall k :: InRange(k, parent, Lo(r), Hi(r)) ==> SameAt(s, t, k)
  {
    forall k: Slot | Lo(r) <= k.1 < Hi(r)
      ensures ForkedAt(s, t, child, parent, table, k) && R.At(table, k.1 * PAGE_SIZE).None?
    {
      PageHeld(r, k.1);
    }
  }

  // ----- tearing a child down

  /** Slot `k` maps the same frame as before, with no more rights to write, and shows the same page. */
  ghost predicate KeptAt(s: State, t: State, k: Slot)
    requires Backed(s) && Backed(t)
  {
    && (k in t.ptes <==> k in s.ptes)
    && (k in s.ptes ==> t.ptes[k].frame == s.ptes[k].frame && (t.ptes[k].writable ==> s.ptes[k].writable))
    && Sees(t, k) == Sees(s, k)
  }

  /**
  While recorded pages of `x` are being unmapped: those no longer recorded are gone,
  everything else is as before.
  */
  ghost predicate TornAt(s: State, t: State, x: Sid, was: seq<R.Region>, now: seq<R.Region>, k: Slot)
    requires Backed(s) && Backed(t)
  {
    if k.0 == x && R.At(was, k.1 * PAGE_SIZE).Some?
    then k in t.ptes ==> R.At(now, k.1 * PAGE_SIZE).Some?
    else SameAt(s, t, k)
  }

  ghost predicate Torn(s: State, t: State, x: Sid, was: seq<R.Region>, now: seq<R.Region>)
    requires Backed(s) && Backed(t)
  {
    forall k :: TornAt(s, t, x, was, now, k)
  }

  ghost predicate Fewer(was: seq<R.Region>, now: seq<R.Region>) {
    forall a :: R.At(now, a).Some? ==> R.At(was, a).Some?
  }

  /** Every address of `r` is recorded in `rs`. */
  ghost predicate Recorded(rs: seq<R.Region>, r: R.Region) {
    forall a :: r.Holds(a) ==> R.At(rs, a).Some?
  }

  /** An address of `r` in a page that its range is rounded out to. */
  function Touched(r: R.Region, p: int): (a: int)
    requires 0 < r.len && Lo(r) <= p < Hi(r)
    ensures r.Holds(a) && PageStart(a) == p * PAGE_SIZE
  {
    assert p * PAGE_SIZE < r.End() by {
      assert p + 1 <= Hi(r);
    }
    if r.base < p * PAGE_SIZE then p * PAGE_SIZE
    else
      assert r.base / PAGE_SIZE == p;
      r.base
  }

  /** Rounding a recorded range out to pages touches recorded pages only. */
  lemma RoundedPages(was: seq<R.Region>, now: seq<R.Region>, r: R.Region, p: int)
    requires WholePages(was) && Fewer(was, now) && Recorded(now, r)
    requires 0 < r.len && Lo(r) <= p < Hi(r)
    ensures R.At(was, p * PAGE_SIZE).Some?
  {
    var a := Touched(r, p);
    assert R.At(now, a).Some? && R.At(was, a).Some?;
  }

  lemma RangeFits(was: seq<R.Region>, now: seq<R.Region>, r: R.Region)
    requires WholePages(was) && Fewer(was, now) && Recorded(now, r) && 0 < r.len
    ensures r.End() + (PAGE_SIZE - 1) < U64
  {
    var a := r.End() - 1;
    assert r.Holds(a) && R.At(now, a).Some? && R.At(was, a).Some?;
    assert a < PageStart(a) + PAGE_SIZE;
  }

  lemma TearStep(s: State, t: State, u: State, x: Sid, was: seq<R.Region>, now: seq<R.Region>, r: R.Region,
                 now': seq<R.Region>)
    requires Backed(s) && Backed(t) && Backed(u) && 0 < r.len
    requires WholePages(was) && Fewer(was, now) && Torn(s, t, x, was, now)
    requires Recorded(now, r)
    requires RangeFree(u, x, Lo(r), Hi(r)) && SameOutside(t, u, x, Lo(r), Hi(r))
    requires R.SetOn(now, now', r.base, r.End(), None)
    ensures Torn(s, u, x, was, now') && Fewer(was, now')
  {
    forall k
      ensures TornAt(s, u, x, was, now', k)
    {
      assert TornAt(s, t, x, was, now, k);
      if InRange(k, x, Lo(r), Hi(r)) {
        RoundedPages(was, now, r, k.1);
      } else {
        if k.0 == x {
          TearPage(now, now', r, k.1);
        }
        assert SameAt(t, u, k);
      }
    }
    StillFewer(was, now, r, now');
  }

  lemma StillFewer(was: seq<R.Region>, now: seq<R.Region>, r: R.Region, now': seq<R.Region>)
    requires Fewer(was, now) && R.SetOn(now, now', r.base, r.End(), None)
    ensures Fewer(was, now')
  {
    forall a | R.At(now', a).Some?
      ensures R.At(was, a).Some?
    {
      assert R.At(now, a).Some?;
    }
  }

  lemma TearPage(now: seq<R.Region>, now': seq<R.Region>, r: R.Region, p: int)
    requires !(Lo(r) <= p < Hi(r)) && R.SetOn(now, now', r.base, r.End(), None)
    ensures R.At(now', p * PAGE_SIZE) == R.At(now, p * PAGE_SIZE)
  {
    assert !r.Holds(p * PAGE_SIZE);
  }

  lemma HeldIsRecorded(rs: seq<R.Region>, i: nat)
    requires R.Table(rs) && i < |rs|
    ensures Recorded(rs, rs[i])
  {
    forall a | rs[i].Holds(a)
      ensures R.At(rs, a).Some?
    {
      assert R.HeldAt(rs, i, a);
    }
  }

  /** The loop of task_teardown over the regions of an owned space. */
  method Teardown(m: Machine, x: Sid, table: R.RegionTable)
    requires Accounted(m.View()) && table.Valid() && WholePages(table.regions)
    modifies m, table
    ensures Accounted(m.View()) && table.Valid() && table.regions == []
    ensures Torn(old(m.View()), m.View(), x, old(table.regions), [])
  {
    while |table.regions| != 0
      invariant Accounted(m.View()) && table.Valid()
      invariant Fewer(old(table.regions), table.regions)
      invariant Torn(old(m.View()), m.View(), x, old(table.regions), table.regions)
      decreases |table.regions|
    {
      ghost var now, before := table.regions, m.View();
      var r := table.regions[0];
      HeldIsRecorded(now, 0);
      RangeFits(old(table.regions), now, r);
      var _ := m.UnmapRange(x, r.base, r.len);
      var ok, _ := table.Remove(r.base, r.len, 0);
      assert now[0].base == r.base && ok && table.regions == R.SwapRemove(now, 0);
      TearStep(old(m.View()), before, m.View(), x, old(table.regions), now, r, table.regions);
    }
  }

  ghost predicate NoneMapped(ptes: map<Slot, Pte>, x: Sid) {
    forall k :: k in ptes ==> k.0 != x
  }

  /** arch_vm_space_destroy: the page tables go, the frames behind them are not touched. */
  function Destroyed(s: State, x: Sid): State {
    s.(ptes := map k | k in s.ptes && k.0 != x :: s.ptes[k])
  }

  /** Destroying a space keeps the frame accounting exactly when nothing is mapped in it any more. */
  lemma DestroyCounted(s: State, x: Sid)
    requires Accounted(s)
    ensures Counted(Destroyed(s, x)) <==> NoneMapped(s.ptes, x)
  {
    var s' := Destroyed(s, x);
    if k :| k in s.ptes && k.0 == x {
      var f: Frame := s.ptes[k].frame;
      assert Users(s'.ptes, f) <= Users(s.ptes, f) - {k};
      SubsetSize(Users(s'.ptes, f), Users(s.ptes, f) - {k});
      assert s'.refs[f] != |Users(s'.ptes, f)|;
    } else {
      assert s'.ptes == s.ptes;
    }
  }

  method DestroySpace(m: Machine, x: Sid)
    modifies m
    ensures m.View() == Destroyed(old(m.View()), x)
  {
    m.ptes := map k | k in m.ptes && k.0 != x :: m.ptes[k];
  }

  // ----- fork

  datatype Outcome = Done | NoRange | NoRecord

  /** Everything outside the child is kept, whatever happened to the child. */
  ghost predicate KeptOutside(s: State, t: State, child: Sid)
    requires Backed(s) && Backed(t)
  {
    forall k: Slot :: k.0 != child ==> KeptAt(s, t, k)
  }

  /** Every page mapped in the child is recorded in its table. */
  ghost predicate MappedIsRecorded(s: State, child: Sid, table: seq<R.Region>) {
    forall k: Slot :: k.0 == child && k in s.ptes ==> R.At(table, k.1 * PAGE_SIZE).Some?
  }

  lemma ForkedKeeps(s: State, t: State, child: Sid, parent: Sid, table: seq<R.Region>, table': seq<R.Region>)
    requires Backed(s) && Backed(t) && Forked(s, t, child, parent, table) && R.SameMap(table, table')
    ensures KeptOutside(s, t, child) && MappedIsRecorded(t, child, table')
  {
    forall k: Slot
      ensures k.0 != child ==> KeptAt(s, t, k)
      ensures k.0 == child && k in t.ptes ==> R.At(table', k.1 * PAGE_SIZE).Some?
    {
      assert ForkedAt(s, t, child, parent, table, k);
    }
  }

  lemma NoRangeKeeps(s: State, t: State, u: State, child: Sid, parent: Sid, lo: int, hi: int, table: seq<R.Region>)
    requires Backed(s) && Backed(t) && Backed(u) && child != parent
    requires KeptOutside(s, t, child) && MappedIsRecorded(t, child, table)
    requires WriteProtected(t, u, parent, lo, hi)
    ensures KeptOutside(s, u, child) && MappedIsRecorded(u, child, table)
  {
    forall k: Slot
      ensures k.0 != child ==> KeptAt(s, u, k)
      ensures k.0 == child && k in u.ptes ==> R.At(table, k.1 * PAGE_SIZE).Some?
    {
      assert ProtectedAt(t, u, parent, lo, hi, k);
    }
  }

  lemma WholePrefix(rs: seq<R.Region>, i: nat, rs': seq<R.Region>)
    requires R.Table(rs) && Paged(rs) && i <= |rs| && R.Table(rs[..i]) && R.SameMap(rs[..i], rs')
    ensures WholePages(rs')
  {
    PagedIsWhole(rs[..i]);
    forall a | R.At(rs', a).Some?
      ensures R.At(rs', PageStart(a)).Some? && PageStart(a) + 2 * PAGE_SIZE <= U64
    {
      assert R.At(rs[..i], a).Some?;
    }
  }

  lemma NothingYet(s: State, child: Sid, parent: Sid)
    requires Backed(s) && NoneMapped(s.ptes, child)
    ensures Forked(s, s, child, parent, [])
  {
    forall k
      ensures ForkedAt(s, s, child, parent, [], k)
    {
    }
  }

  /** No page of a file region that is shared as it is can be written. */
  ghost predicate FilePagesReadOnly(s: State, parent: Sid, table: seq<R.Region>) {
    forall i :: 0 <= i < |table| ==> SafeToGive(s, parent, table[i])
  }

  /** While that is so, writable frames stay unshared. */
  ghost predicate StaysExclusive(s: State, t: State, parent: Sid, table: seq<R.Region>)
    requires Backed(s) && Backed(t)
  {
    Exclusive(s) && FilePagesReadOnly(s, parent, table) ==> Exclusive(t)
  }

  /** What holds when a fork begins: the parent's table is well-formed and the child's space is empty. */
  ghost predicate Forkable(s: State, child: Sid, parent: Sid, table: seq<R.Region>) {
    Accounted(s) && child != parent && NoneMapped(s.ptes, child) && R.Table(table) && Paged(table)
  }

  // ----- when a fork succeeds

  /** The frames that copying takes for the first `i` regions. */
  ghost function FramesNeeded(table: seq<R.Region>, i: nat): int
    requires i <= |table|
  {
    if i == 0 then 0
    else FramesNeeded(table, i - 1) + if Shares(table[i - 1].attr) then 0 else Hi(table[i - 1]) - Lo(table[i - 1])
  }

  /**
  Region `i` can be given: its pages are mapped in the parent, there is room for
  them in the page tables, and there are frames for all copies so far.
  */
  ghost predicate CanGive(s: State, available: nat, parent: Sid, table: seq<R.Region>, grants: seq<nat>, i: nat)
    requires i < |table| == |grants|
  {
    && AllMapped(s, parent, Lo(table[i]), Hi(table[i])) && grants[i] >= Hi(table[i]) - Lo(table[i])
    && (Shares(table[i].attr) || FramesNeeded(table, i + 1) <= available)
  }

  /** The child's table can grow to hold the first `i + 1` regions, joined as they are added. */
  ghost predicate CanRecord(table: seq<R.Region>, reach: nat, i: nat)
    requires i < |table|
  {
    R.Heads(table, i + 1) <= reach
  }

  ghost predicate AllGo(s: State, available: nat, parent: Sid, table: seq<R.Region>, grants: seq<nat>, reach: nat,
                        i: nat)
    requires i <= |table| == |grants|
  {
    forall j: nat :: j < i ==> CanGive(s, available, parent, table, grants, j) && CanRecord(table, reach, j)
  }

  /** What stops a fork, and where. */
  ghost predicate StopsAt(s: State, available: nat, parent: Sid, table: seq<R.Region>, grants: seq<nat>, reach: nat,
                          outcome: Outcome, at: nat)
    requires |grants| == |table|
  {
    && at <= |table|
    && AllGo(s, available, parent, table, grants, reach, at)
    && (outcome.Done? <==> at == |table|)
    && (outcome.NoRange? <==> at < |table| && !CanGive(s, available, parent, table, grants, at))
    && (outcome.NoRecord? <==>
        at < |table| && CanGive(s, available, parent, table, grants, at) && !CanRecord(table, reach, at))
  }

  /** What decides about region `i` when `available` frames are left. */
  ghost predicate Decides(s: State, available: nat, parent: Sid, table: seq<R.Region>, grant: nat, reach: nat, i: nat,
                          outcome: Outcome)
    requires i < |table|
  {
    && (outcome.NoRange? <==>
        !(&& AllMapped(s, parent, Lo(table[i]), Hi(table[i])) && grant >= Hi(table[i]) - Lo(table[i])
          && (Shares(table[i].attr) || available >= Hi(table[i]) - Lo(table[i]))))
    && (!outcome.NoRange? ==> (outcome.Done? <==> CanRecord(table, reach, i)))
  }

  lemma DecidesNext(s: State, available: nat, left: nat, parent: Sid, table: seq<R.Region>, grants: seq<nat>,
                    reach: nat, i: nat, next: nat, outcome: Outcome)
    requires i < |table| == |grants| && next == i + 1 && left == available - FramesNeeded(table, i)
    requires AllGo(s, available, parent, table, grants, reach, i)
    requires Decides(s, left, parent, table, grants[i], reach, i, outcome)
    ensures outcome.Done? ==> AllGo(s, available, parent, table, grants, reach, next)
    ensures !outcome.Done? ==> StopsAt(s, available, parent, table, grants, reach, outcome, i)
  {
    assert CanGive(s, available, parent, table, grants, i) <==> !outcome.NoRange?;
  }

  /** After `i` regions: they are given, and recorded. */
  ghost predicate Giving(s: State, t: State, child: Sid, parent: Sid, from: seq<R.Region>, i: nat, to: seq<R.Region>)
    requires Backed(s) && Backed(t) && i <= |from|
  {
    Forked(s, t, child, parent, from[..i]) && R.Replayed(from, i, to)
  }

  ghost predicate Passed(s: State, t: State, available: nat, child: Sid, parent: Sid, table: seq<R.Region>,
                         grants: seq<nat>, to: seq<R.Region>, reach: nat, outcome: Outcome, i: nat, at: nat)
    requires i <= |table| == |grants|
  {
    forall k: Slot :: PassedAt(s, t, available, child, parent, table, grants, to, reach, outcome, i, at, k)
  }

  ghost predicate PassedAt(s: State, t: State, available: nat, child: Sid, parent: Sid, table: seq<R.Region>,
                           grants: seq<nat>, to: seq<R.Region>, reach: nat, outcome: Outcome, i: nat, at: nat, k: Slot)
    requires i <= |table| == |grants|
  {
    && Backed(s) && Accounted(t) && StaysExclusive(s, t, parent, table)
    && if outcome.Done? then
         && ForkedAt(s, t, child, parent, table[..i], k) && R.Replayed(table, i, to)
         && AllGo(s, available, parent, table, grants, reach, i)
       else
         && StopsAt(s, available, parent, table, grants, reach, outcome, at)
         && StoppedAt(s, t, child, parent, table, to, outcome, at)
  }

  lemma PassedGives(s: State, t: State, available: nat, child: Sid, parent: Sid, table: seq<R.Region>,
                    grants: seq<nat>, to: seq<R.Region>, reach: nat, outcome: Outcome, i: nat, at: nat)
    requires i <= |table| == |grants|
    requires Passed(s, t, available, child, parent, table, grants, to, reach, outcome, i, at)
    ensures Backed(s) && Accounted(t) && StaysExclusive(s, t, parent, table)
    ensures outcome.Done? ==>
              Giving(s, t, child, parent, table, i, to) && AllGo(s, available, parent, table, grants, reach, i)
    ensures !outcome.Done? ==>
              && StopsAt(s, available, parent, table, grants, reach, outcome, at)
              && StoppedAt(s, t, child, parent, table, to, outcome, at)
  {
    assert PassedAt(s, t, available, child, parent, table, grants, to, reach, outcome, i, at, (child, 0));
    if outcome.Done? {
      forall k
        ensures ForkedAt(s, t, child, parent, table[..i], k)
      {
        assert PassedAt(s, t, available, child, parent, table, grants, to, reach, outcome, i, at, k);
      }
    }
  }

  /** What a fork that stops at region `at` leaves behind, before it is undone. */
  ghost predicate StoppedAt(s: State, t: State, child: Sid, parent: Sid, table: seq<R.Region>, to: seq<R.Region>,
                            outcome: Outcome, at: nat)
    requires Backed(s) && Backed(t)
  {
    && at < |table| && R.SameMap(table[..at], to)
    && (outcome.NoRange? ==> KeptOutside(s, t, child) && MappedIsRecorded(t, child, to))
    && (outcome.NoRecord? ==>
          Forked(s, t, child, parent, table[..at + 1]) && LastGiven(s, t, child, parent, table[at]))
  }

  lemma BeforeFirst(s: State, available: nat, child: Sid, parent: Sid, table: seq<R.Region>, grants: seq<nat>,
                    reach: nat)
    requires Accounted(s) && NoneMapped(s.ptes, child) && |grants| == |table|
    ensures Passed(s, s, available, child, parent, table, grants, [], reach, Done, 0, 0)
  {
    NothingYet(s, child, parent);
    R.NothingReplayed(table);
    assert table[..0] == [];
    forall k: Slot
      ensures PassedAt(s, s, available, child, parent, table, grants, [], reach, Done, 0, 0, k)
    {
      assert ForkedAt(s, s, child, parent, [], k);
    }
  }

  lemma PassNext(s: State, t: State, u: State, available: nat, left: nat, child: Sid, parent: Sid, table: seq<R.Region>,
                 grants: seq<nat>, to: seq<R.Region>, to': seq<R.Region>, reach: nat, outcome: Outcome,
                 i: nat, next: nat, at: nat)
    requires Backed(s) && Accounted(u) && i < |table| == |grants| && next == i + 1
    requires left == available - FramesNeeded(table, i) && StaysExclusive(s, u, parent, table)
    requires Passed(s, t, available, child, parent, table, grants, to, reach, Done, i, at)
    requires Decides(s, left, parent, table, grants[i], reach, i, outcome)
    requires outcome.Done? ==> Giving(s, u, child, parent, table, next, to')
    requires !outcome.Done? ==> StoppedAt(s, u, child, parent, table, to', outcome, i)
    ensures Passed(s, u, available, child, parent, table, grants, to', reach, outcome, next, i)
  {
    PassedGives(s, t, available, child, parent, table, grants, to, reach, Done, i, at);
    DecidesNext(s, available, left, parent, table, grants, reach, i, next, outcome);
    forall k: Slot
      ensures PassedAt(s, u, available, child, parent, table, grants, to', reach, outcome, next, i, k)
    {
      assert outcome.Done? ==> ForkedAt(s, u, child, parent, table[..next], k);
    }
  }

  lemma AfterLast(s: State, t: State, available: nat, child: Sid, parent: Sid, table: seq<R.Region>, grants: seq<nat>,
                  to: seq<R.Region>, reach: nat, i: nat, at: nat)
    requires i == |table| == |grants|
    requires Passed(s, t, available, child, parent, table, grants, to, reach, Done, i, at)
    ensures Backed(s) && Accounted(t) && StaysExclusive(s, t, parent, table)
    ensures StopsAt(s, available, parent, table, grants, reach, Done, i)
    ensures Forked(s, t, child, parent, table) && R.SameMap(table, to)
  {
    PassedGives(s, t, available, child, parent, table, grants, to, reach, Done, i, at);
    assert table[..i] == table;
  }

  /** The frames behind the child's pages of region `r`. */
  ghost predicate LastAt(s: State, t: State, child: Sid, parent: Sid, r: R.Region, k: Slot) {
    InRange(k, child, Lo(r), Hi(r)) ==>
      && k in t.ptes && (parent, k.1) in s.ptes
      && (if Shares(r.attr) then t.ptes[k].frame == s.ptes[(parent, k.1)].frame else OwnFrame(s, t, k))
  }

  ghost predicate LastGiven(s: State, t: State, child: Sid, parent: Sid, r: R.Region) {
    forall k :: LastAt(s, t, child, parent, r, k)
  }

  /** Frames in use before the fork are in use while it runs. */
  lemma StillInUse(s: State, t: State, child: Sid)
    requires Accounted(s) && Backed(t) && KeptOutside(s, t, child) && NoneMapped(s.ptes, child)
    ensures s.refs.Keys <= t.refs.Keys
  {
    forall f | f in s.refs
      ensures f in t.refs
    {
      HasUser(s, f);
      var k :| k in Users(s.ptes, f);
      assert KeptAt(s, t, k);
    }
  }

  lemma LastIs(s: State, t: State, u: State, child: Sid, parent: Sid, r: R.Region)
    requires Accounted(s) && Backed(t) && Backed(u) && child != parent && NoneMapped(s.ptes, child)
    requires KeptOutside(s, t, child) && Given(t, u, child, parent, Lo(r), Hi(r), r.attr)
    ensures LastGiven(s, u, child, parent, r)
  {
    StillInUse(s, t, child);
    forall k
      ensures LastAt(s, u, child, parent, r, k)
    {
      assert GivenAt(t, u, child, parent, Lo(r), Hi(r), r.attr, k) && KeptAt(s, t, (parent, k.1));
    }
  }

  lemma SameMapped(s: State, t: State, parent: Sid, lo: int, hi: int)
    requires Backed(s) && Backed(t) && forall k :: InRange(k, parent, lo, hi) ==> SameAt(s, t, k)
    ensures AllMapped(t, parent, lo, hi) <==> AllMapped(s, parent, lo, hi)
  {
    forall p | lo <= p < hi
      ensures (parent, p) in t.ptes <==> (parent, p) in s.ptes
    {
      assert InRange((parent, p), parent, lo, hi) && SameAt(s, t, (parent, p));
    }
  }

  /** One pass of the loop of server_task_fork_current_stopped. */
  method GiveNext(m: Machine, child: Sid, parent: Sid, r: R.Region, to: R.RegionTable, junk: Page, grants: nat,
                  tableGrants: nat, ghost was: State, ghost from: seq<R.Region>, ghost i: nat, ghost next: nat)
    returns (outcome: Outcome, left: nat)
    requires Forkable(was, child, parent, from) && Accounted(m.View()) && to.Valid() && |junk| == PAGE_SIZE
    requires i < |from| && next == i + 1 && r == from[i] && Giving(was, m.View(), child, parent, from, i, to.regions)
    requires StaysExclusive(was, m.View(), parent, from)
    modifies m, to
    ensures Accounted(m.View()) && to.Valid() && StaysExclusive(was, m.View(), parent, from)
    ensures Decides(was, old(m.Available()), parent, from, grants, R.Reach(old(to.capacity), tableGrants), i, outcome)
    ensures outcome.Done? ==>
              && Giving(was, m.View(), child, parent, from, next, to.regions)
              && R.Reach(to.capacity, left) == R.Reach(old(to.capacity), tableGrants)
              && m.Available() == old(m.Available()) - if Shares(r.attr) then 0 else Hi(r) - Lo(r)
    ensures !outcome.Done? ==> StoppedAt(was, m.View(), child, parent, from, to.regions, outcome, i)
  {
    ghost var before, done := m.View(), from[..i];
    R.NextEntry(from, i);
    NotYetGiven(was, before, child, parent, done, r);
    SameMapped(was, before, parent, Lo(r), Hi(r));
    ReadyToShare(was, before, parent, from, i);
    ForkedKeeps(was, before, child, parent, done, to.regions);
    left := tableGrants;
    var ok := GiveRegion(m, child, parent, r, junk, grants);
    if !ok {
      NoRangeKeeps(was, before, m.View(), child, parent, Lo(r), Hi(r), to.regions);
      return NoRange, left;
    }
    ForkStep(was, before, m.View(), child, parent, done, r, from[..next]);
    LastIs(was, before, m.View(), child, parent, r);
    ok, left := to.ReplayEntry(r, tableGrants, from, i, next);
    outcome := if ok then Done else NoRecord;
  }

  /** One pass, as the loop needs it. */
  method PassOne(m: Machine, child: Sid, parent: Sid, table: seq<R.Region>, to: R.RegionTable, junk: Page,
                 grants: seq<nat>, tableGrants: nat, i: nat, next: nat,
                 ghost was: State, ghost available: nat, ghost reach: nat, ghost at: nat)
    returns (outcome: Outcome, left: nat)
    requires Forkable(was, child, parent, table) && to.Valid() && |junk| == PAGE_SIZE
    requires i < |table| == |grants| && next == i + 1
    requires Passed(was, m.View(), available, child, parent, table, grants, to.regions, reach, Done, i, at)
    requires R.Reach(to.capacity, tableGrants) == reach && m.Available() == available - FramesNeeded(table, i)
    modifies m, to
    ensures to.Valid()
    ensures Passed(was, m.View(), available, child, parent, table, grants, to.regions, reach, outcome, next, i)
    ensures outcome.Done? ==>
              R.Reach(to.capacity, left) == reach && m.Available() == available - FramesNeeded(table, next)
  {
    ghost var t, available', to' := m.View(), m.Available(), to.regions;
    PassedGives(was, t, available, child, parent, table, grants, to', reach, Done, i, at);
    outcome, left := GiveNext(m, child, parent, table[i], to, junk, grants[i], tableGrants, was, table, i, next);
    PassNext(was, t, m.View(), available, available', child, parent, table, grants, to', to.regions, reach, outcome,
             i, next, at);
  }

  /** The loop of server_task_fork_current_stopped over the parent's regions; `at` is the first one that fails. */
  method GiveAll(m: Machine, child: Sid, parent: Sid, from: R.RegionTable, to: R.RegionTable, junk: Page,
                 grants: seq<nat>, tableGrants: nat)
    returns (outcome: Outcome, ghost at: nat)
    requires Forkable(m.View(), child, parent, from.regions)
    requires |junk| == PAGE_SIZE && |grants| == |from.regions| && from != to && to.Valid() && to.regions == []
    modifies m, to
    ensures Accounted(m.View()) && to.Valid() && StaysExclusive(old(m.View()), m.View(), parent, from.regions)
    ensures StopsAt(old(m.View()), old(m.Available()), parent, from.regions, grants,
                    R.Reach(old(to.capacity), tableGrants), outcome, at)
    ensures outcome.Done? ==>
              && Forked(old(m.View()), m.View(), child, parent, from.regions)
              && R.SameMap(from.regions, to.regions)
    ensures !outcome.Done? ==> StoppedAt(old(m.View()), m.View(), child, parent, from.regions, to.regions, outcome, at)
  {
    ghost var was, available, reach := m.View(), m.Available(), R.Reach(to.capacity, tableGrants);
    var table := from.regions;
    ghost var i;
    outcome, i, at := GiveEach(m, child, parent, table, to, junk, grants, tableGrants);
    if outcome.Done? {
      AfterLast(was, m.View(), available, child, parent, table, grants, to.regions, reach, i, at);
      at := i;
    } else {
      PassedGives(was, m.View(), available, child, parent, table, grants, to.regions, reach, outcome, i, at);
    }
  }

  /** The loop itself. */
  method GiveEach(m: Machine, child: Sid, parent: Sid, table: seq<R.Region>, to: R.RegionTable, junk: Page,
                  grants: seq<nat>, tableGrants: nat)
    returns (outcome: Outcome, ghost n: nat, ghost at: nat)
    requires Forkable(m.View(), child, parent, table)
    requires |junk| == PAGE_SIZE && |grants| == |table| && to.Valid() && to.regions == []
    modifies m, to
    ensures to.Valid() && n <= |table| && (outcome.Done? ==> n == |table|)
    ensures Passed(old(m.View()), m.View(), old(m.Available()), child, parent, table, grants, to.regions,
                   R.Reach(old(to.capacity), tableGrants), outcome, n, at)
  {
    ghost var was, available, reach := m.View(), m.Available(), R.Reach(to.capacity, tableGrants);
    var i, left := 0, tableGrants;
    at := 0;
    outcome := Done;
    BeforeFirst(was, available, child, parent, table, grants, reach);
    while i < |table| && outcome.Done?
      invariant 0 <= i <= |table| && to.Valid()
      invariant Passed(was, m.View(), available, child, parent, table, grants, to.regions, reach, outcome, i, at)
      invariant outcome.Done? ==>
                  R.Reach(to.capacity, left) == reach && m.Available() == available - FramesNeeded(table, i)
      decreases |table| - i
    {
      var next := i + 1;
      outcome, left := PassOne(m, child, parent, table, to, junk, grants, left, i, next, was, available, reach, at);
      at := i;
      i := next;
    }
    n := i;
  }

  lemma ReadyToShare(s: State, t: State, parent: Sid, table: seq<R.Region>, i: nat)
    requires Backed(s) && Backed(t) && i < |table|
    requires forall k :: InRange(k, parent, Lo(table[i]), Hi(table[i])) ==> SameAt(s, t, k)
    ensures FilePagesReadOnly(s, parent, table) ==> SafeToGive(t, parent, table[i])
  {
    if FilePagesReadOnly(s, parent, table) && SharedFile(table[i].attr) {
      assert SafeToGive(s, parent, table[i]);
      forall k | InRange(k, parent, Lo(table[i]), Hi(table[i])) && k in t.ptes
        ensures !t.ptes[k].writable
      {
        assert SameAt(s, t, k);
      }
    }
  }

  /** A fork keeps writable frames unshared only if no page of a file region was writable. */
  lemma SharedWritable(s: State, t: State, child: Sid, parent: Sid, table: seq<R.Region>, i: nat)
    requires Backed(s) && Inv(t) && child != parent && R.Table(table) && Paged(table)
    requires Forked(s, t, child, parent, table) && i < |table|
    ensures SafeToGive(s, parent, table[i])
  {
    var r := table[i];
    if SharedFile(r.attr) {
      forall k | InRange(k, parent, Lo(r), Hi(r)) && k in s.ptes
        ensures !s.ptes[k].writable
      {
        PageHeld(r, k.1);
        assert R.HeldAt(table, i, k.1 * PAGE_SIZE);
        R.AtIs(table, i, k.1 * PAGE_SIZE);
        assert ForkedAt(s, t, child, parent, table, k) && ForkedAt(s, t, child, parent, table, (child, k.1));
        SharedIsReadOnly(t, k, (child, k.1));
      }
    }
  }

  lemma ForkExclusiveIff(s: State, t: State, child: Sid, parent: Sid, table: seq<R.Region>)
    requires Backed(s) && Accounted(t) && child != parent && R.Table(table) && Paged(table)
    requires Forked(s, t, child, parent, table) && Exclusive(s) && StaysExclusive(s, t, parent, table)
    ensures Exclusive(t) <==> FilePagesReadOnly(s, parent, table)
  {
    if Exclusive(t) {
      forall i | 0 <= i < |table|
        ensures SafeToGive(s, parent, table[i])
      {
        SharedWritable(s, t, child, parent, table, i);
      }
    }
  }

  /** Slot `k` of the child is mapped but not recorded. */
  ghost predicate Unrecorded(s: State, child: Sid, table: seq<R.Region>, k: Slot) {
    k in s.ptes && k.0 == child && R.At(table, k.1 * PAGE_SIZE).None?
  }

  /** After teardown the child maps exactly what was mapped but not recorded. */
  lemma TornChild(s: State, t: State, u: State, child: Sid, table: seq<R.Region>)
    requires Backed(s) && Backed(t) && Backed(u)
    requires KeptOutside(s, t, child) && Torn(t, u, child, table, [])
    ensures KeptOutside(s, u, child)
    ensures forall k :: k in u.ptes && k.0 == child <==> Unrecorded(t, child, table, k)
  {
    forall k: Slot
      ensures k.0 != child ==> KeptAt(s, u, k)
      ensures k in u.ptes && k.0 == child <==> Unrecorded(t, child, table, k)
    {
      assert TornAt(t, u, child, table, [], k);
      assert R.At([], k.1 * PAGE_SIZE).None?;
    }
  }

  lemma KeptFrames(s: State, t: State, child: Sid)
    requires Backed(s) && Backed(t) && KeptOutside(s, t, child) && NoneMapped(s.ptes, child)
    requires NoneMapped(t.ptes, child)
    ensures SameFrames(s, t) && AllSame(s, t)
  {
    forall k
      ensures KeptAt(s, t, k)
    {
      assert k.0 != child ==> KeptAt(s, t, k);
    }
    assert t.ptes.Keys == s.ptes.Keys;
  }

  /** A fork that is undone completely leaves every count and every byte as they were. */
  lemma UndoneFork(s: State, t: State, child: Sid)
    requires Accounted(s) && Accounted(t) && KeptOutside(s, t, child)
    requires NoneMapped(s.ptes, child) && NoneMapped(t.ptes, child)
    ensures t.refs == s.refs && t.mem == s.mem && Destroyed(t, child) == t
  {
    KeptFrames(s, t, child);
    Determined(s, t);
    assert Destroyed(t, child).ptes == t.ptes;
  }

  /** The mappings of frame `f` in the child that its table does not record. */
  ghost function Lost(s: State, child: Sid, table: seq<R.Region>, f: Frame): set<Slot> {
    set k | k in s.ptes && Unrecorded(s, child, table, k) && s.ptes[k].frame == f
  }

  /** The counts after a child was discarded: mappings that still exist, and those that were lost. */
  ghost predicate CountsLost(s: State, t: State, child: Sid, table: seq<R.Region>) {
    forall f: Frame :: CountsLostAt(s, t, child, table, f)
  }

  ghost predicate CountsLostAt(s: State, t: State, child: Sid, table: seq<R.Region>, f: Frame) {
    && (f in t.refs <==> Users(t.ptes, f) != {} || Lost(s, child, table, f) != {})
    && (f in t.refs ==> t.refs[f] == |Users(t.ptes, f)| + |Lost(s, child, table, f)|)
  }

  lemma DiscardCounts(s: State, torn: State, child: Sid, table: seq<R.Region>)
    requires Backed(s) && Accounted(torn) && Torn(s, torn, child, table, [])
    ensures CountsLost(s, Destroyed(torn, child), child, table)
  {
    forall f: Frame
      ensures CountsLostAt(s, Destroyed(torn, child), child, table, f)
    {
      LostStay(s, torn, child, table, f);
      SplitUsers(torn, child, f, Lost(s, child, table, f));
    }
  }

  /** The mappings of a frame are those that survive the destruction of space `x` and those in it. */
  lemma SplitUsers(s: State, x: Sid, f: Frame, lost: set<Slot>)
    requires Accounted(s)
    requires forall k :: k in lost ==> k.0 == x
    requires forall k: Slot :: k.0 == x ==> (k in Users(s.ptes, f) <==> k in lost)
    ensures f in s.refs <==> Users(Destroyed(s, x).ptes, f) != {} || lost != {}
    ensures f in s.refs ==> s.refs[f] == |Users(Destroyed(s, x).ptes, f)| + |lost|
  {
    var kept := Users(Destroyed(s, x).ptes, f);
    assert Users(s.ptes, f) == kept + lost;
    assert kept !! lost;
    if f in s.refs {
      HasUser(s, f);
    }
  }

  lemma LostStay(s: State, torn: State, child: Sid, table: seq<R.Region>, f: Frame)
    requires Backed(s) && Backed(torn) && Torn(s, torn, child, table, [])
    ensures forall k: Slot :: k.0 == child ==> (k in Users(torn.ptes, f) <==> k in Lost(s, child, table, f))
  {
    forall k: Slot | k.0 == child
      ensures k in Users(torn.ptes, f) <==> k in Lost(s, child, table, f)
    {
      assert TornAt(s, torn, child, table, [], k);
      assert R.At([], k.1 * PAGE_SIZE).None?;
    }
  }

  /** task_discard_unstarted: teardown, then the space is destroyed. */
  method Discard(m: Machine, child: Sid, table: R.RegionTable, ghost was: State)
    requires Accounted(m.View()) && table.Valid() && WholePages(table.regions)
    requires Accounted(was) && KeptOutside(was, m.View(), child) && NoneMapped(was.ptes, child)
    modifies m, table
    ensures table.Valid() && table.regions == [] && Backed(m.View())
    ensures forall k :: KeptAt(was, m.View(), k)
    ensures MappedIsRecorded(old(m.View()), child, old(table.regions)) ==>
              Accounted(m.View()) && m.refs == was.refs && m.mem == was.mem
    ensures CountsLost(old(m.View()), m.View(), child, old(table.regions))
  {
    Teardown(m, child, table);
    ghost var torn := m.View();
    TornChild(was, old(m.View()), torn, child, old(table.regions));
    DestroySpace(m, child);
    DiscardCounts(old(m.View()), torn, child, old(table.regions));
    DestroyKeeps(was, torn, child);
    if MappedIsRecorded(old(m.View()), child, old(table.regions)) {
      assert forall k :: !Unrecorded(old(m.View()), child, old(table.regions), k);
      UndoneFork(was, torn, child);
    }
  }

  // ----- a fork that fails after giving a region

  /** The parent's mappings of frame `f` in region `r`. */
  ghost function PagesOf(s: State, parent: Sid, r: R.Region, f: Frame): set<Slot> {
    set k | k in s.ptes && InRange(k, parent, Lo(r), Hi(r)) && s.ptes[k].frame == f
  }

  /**
  What is lost when region `r` was given but could not be recorded.  Shared frames
  keep one reference too many for every page; copies stay in use for good although
  nothing maps them.
  */
  ghost predicate Leaked(s: State, t: State, parent: Sid, r: R.Region) {
    && (forall f: Frame :: LeakedAt(s, t, parent, r, f))
    && (!Shares(r.attr) ==> |t.refs.Keys - s.refs.Keys| == Hi(r) - Lo(r))
  }

  ghost predicate LeakedAt(s: State, t: State, parent: Sid, r: R.Region, f: Frame) {
    if f in s.refs then
      && f in t.refs && |Users(t.ptes, f)| == s.refs[f]
      && t.refs[f] == s.refs[f] + if Shares(r.attr) then |PagesOf(s, parent, r, f)| else 0
    else
      f in t.refs ==> !Shares(r.attr) && t.refs[f] == 1 && Users(t.ptes, f) == {}
  }

  /** The unrecorded pages are exactly those of the last region. */
  lemma LostPages(s: State, t: State, child: Sid, parent: Sid, table: seq<R.Region>, to: seq<R.Region>, at: nat,
                  k: Slot)
    requires Backed(s) && Backed(t) && R.Table(table) && Paged(table)
    requires StoppedAt(s, t, child, parent, table, to, NoRecord, at)
    ensures Unrecorded(t, child, to, k) <==> InRange(k, child, Lo(table[at]), Hi(table[at]))
    ensures Unrecorded(t, child, to, k) ==> LastAt(s, t, child, parent, table[at], k)
  {
    R.NextEntry(table, at);
    PageHeld(table[at], k.1);
    assert ForkedAt(s, t, child, parent, table[..at + 1], k);
    assert LastAt(s, t, child, parent, table[at], k);
    assert R.At(to, k.1 * PAGE_SIZE) == R.At(table[..at], k.1 * PAGE_SIZE);
  }

  lemma SameUsers(s: State, t: State, f: Frame)
    requires Backed(s) && Backed(t) && forall k :: KeptAt(s, t, k)
    ensures Users(t.ptes, f) == Users(s.ptes, f)
  {
    forall k
      ensures k in Users(t.ptes, f) <==> k in Users(s.ptes, f)
    {
      assert KeptAt(s, t, k);
    }
  }

  /** As many slots of one space as of another. */
  lemma {:induction false} Moved(a: set<Slot>, b: set<Slot>, x: Sid, y: Sid)
    requires forall k :: k in a ==> k.0 == x && (y, k.1) in b
    requires forall k :: k in b ==> k.0 == y && (x, k.1) in a
    ensures |a| == |b|
    decreases a
  {
    if a == {} {
      assert b == {};
    } else {
      var k :| k in a;
      Moved(a - {k}, b - {(y, k.1)}, x, y);
    }
  }

  lemma LostShared(s: State, t: State, child: Sid, parent: Sid, table: seq<R.Region>, to: seq<R.Region>, at: nat,
                   f: Frame)
    requires Backed(s) && Backed(t) && R.Table(table) && Paged(table)
    requires StoppedAt(s, t, child, parent, table, to, NoRecord, at) && Shares(table[at].attr)
    ensures |Lost(t, child, to, f)| == |PagesOf(s, parent, table[at], f)|
    ensures Lost(t, child, to, f) != {} ==> f in s.refs
  {
    var r := table[at];
    forall p: int
      ensures (child, p) in Lost(t, child, to, f) <==> (parent, p) in PagesOf(s, parent, r, f)
    {
      LostPages(s, t, child, parent, table, to, at, (child, p));
      assert LastAt(s, t, child, parent, r, (child, p));
    }
    forall k | k in Lost(t, child, to, f)
      ensures k.0 == child && (parent, k.1) in PagesOf(s, parent, r, f)
    {
      assert k == (child, k.1);
    }
    forall k | k in PagesOf(s, parent, r, f)
      ensures k.0 == parent && (child, k.1) in Lost(t, child, to, f)
    {
      assert k == (parent, k.1);
    }
    Moved(Lost(t, child, to, f), PagesOf(s, parent, r, f), child, parent);
    if k :| k in Lost(t, child, to, f) {
      assert (parent, k.1) in PagesOf(s, parent, r, f);
    }
  }

  lemma LostCopied(s: State, t: State, child: Sid, parent: Sid, table: seq<R.Region>, to: seq<R.Region>, at: nat,
                   f: Frame)
    requires Backed(s) && Accounted(t) && R.Table(table) && Paged(table)
    requires StoppedAt(s, t, child, parent, table, to, NoRecord, at) && !Shares(table[at].attr)
    ensures Lost(t, child, to, f) != {} ==> f !in s.refs && |Lost(t, child, to, f)| == 1
  {
    if k :| k in Lost(t, child, to, f) {
      LostPages(s, t, child, parent, table, to, at, k);
      SoleUser(t, k);
      assert Lost(t, child, to, f) == {k};
    }
  }

  ghost function FramesIn(ptes: map<Slot, Pte>, x: Sid, lo: int, hi: int): set<Frame> {
    set k | k in ptes && InRange(k, x, lo, hi) :: ptes[k].frame
  }

  lemma {:induction false} OwnFrames(s: State, t: State, x: Sid, lo: int, hi: int)
    requires Accounted(t) && lo <= hi && forall p :: lo <= p < hi ==> OwnFrame(s, t, (x, p))
    ensures |FramesIn(t.ptes, x, lo, hi)| == hi - lo
    decreases hi - lo
  {
    if lo < hi {
      OwnFrames(s, t, x, lo, hi - 1);
      var k := (x, hi - 1);
      assert OwnFrame(s, t, k);
      SoleUser(t, k);
      assert FramesIn(t.ptes, x, lo, hi) == FramesIn(t.ptes, x, lo, hi - 1) + {t.ptes[k].frame};
    } else {
      assert FramesIn(t.ptes, x, lo, hi) == {};
    }
  }

  lemma NewlyUsed(s: State, t: State, u: State, child: Sid, parent: Sid, table: seq<R.Region>, to: seq<R.Region>,
                  at: nat, f: Frame)
    requires Accounted(s) && Accounted(t) && Backed(u) && R.Table(table) && Paged(table)
    requires StoppedAt(s, t, child, parent, table, to, NoRecord, at) && !Shares(table[at].attr)
    requires CountsLostAt(t, u, child, to, f) && Users(u.ptes, f) == Users(s.ptes, f)
    ensures f in u.refs.Keys - s.refs.Keys <==> f in FramesIn(t.ptes, child, Lo(table[at]), Hi(table[at]))
  {
    LostCopied(s, t, child, parent, table, to, at, f);
    LostFrames(s, t, child, parent, table, to, at, f);
    if f in s.refs {
      HasUser(s, f);
    }
  }

  lemma NewFramesAre(s: State, t: State, u: State, child: Sid, parent: Sid, table: seq<R.Region>, to: seq<R.Region>,
                     at: nat)
    requires Accounted(s) && Accounted(t) && Backed(u) && R.Table(table) && Paged(table)
    requires StoppedAt(s, t, child, parent, table, to, NoRecord, at) && !Shares(table[at].attr)
    requires CountsLost(t, u, child, to) && forall k :: KeptAt(s, u, k)
    ensures forall f: Frame ::
              f in u.refs.Keys - s.refs.Keys <==> f in FramesIn(t.ptes, child, Lo(table[at]), Hi(table[at]))
  {
    forall f: Frame
      ensures f in u.refs.Keys - s.refs.Keys <==> f in FramesIn(t.ptes, child, Lo(table[at]), Hi(table[at]))
    {
      assert CountsLostAt(t, u, child, to, f);
      SameUsers(s, u, f);
      NewlyUsed(s, t, u, child, parent, table, to, at, f);
    }
  }

  lemma CopiesLeak(s: State, t: State, u: State, child: Sid, parent: Sid, r: R.Region)
    requires Accounted(t) && LastGiven(s, t, child, parent, r) && !Shares(r.attr)
    requires forall f: Frame :: f in u.refs.Keys - s.refs.Keys <==> f in FramesIn(t.ptes, child, Lo(r), Hi(r))
    ensures |u.refs.Keys - s.refs.Keys| == Hi(r) - Lo(r)
  {
    CopiesAreOwn(s, t, child, parent, r);
    OwnFrames(s, t, child, Lo(r), Hi(r));
    assert u.refs.Keys - s.refs.Keys == FramesIn(t.ptes, child, Lo(r), Hi(r));
  }

  lemma CopiesAreOwn(s: State, t: State, child: Sid, parent: Sid, r: R.Region)
    requires LastGiven(s, t, child, parent, r) && !Shares(r.attr)
    ensures forall p :: Lo(r) <= p < Hi(r) ==> OwnFrame(s, t, (child, p))
  {
    forall p | Lo(r) <= p < Hi(r)
      ensures OwnFrame(s, t, (child, p))
    {
      assert LastAt(s, t, child, parent, r, (child, p));
    }
  }

  lemma LostFrames(s: State, t: State, child: Sid, parent: Sid, table: seq<R.Region>, to: seq<R.Region>, at: nat,
                   f: Frame)
    requires Backed(s) && Backed(t) && R.Table(table) && Paged(table)
    requires StoppedAt(s, t, child, parent, table, to, NoRecord, at)
    ensures Lost(t, child, to, f) != {} <==> f in FramesIn(t.ptes, child, Lo(table[at]), Hi(table[at]))
  {
    forall k: Slot
      ensures Unrecorded(t, child, to, k) <==> InRange(k, child, Lo(table[at]), Hi(table[at]))
      ensures Unrecorded(t, child, to, k) ==> k in t.ptes
    {
      LostPages(s, t, child, parent, table, to, at, k);
    }
    if k :| k in Lost(t, child, to, f) {
      assert InRange(k, child, Lo(table[at]), Hi(table[at]));
    }
    if k :| k in t.ptes && InRange(k, child, Lo(table[at]), Hi(table[at])) && t.ptes[k].frame == f {
      assert k in Lost(t, child, to, f);
    }
  }

  lemma LeaksAt(s: State, t: State, u: State, child: Sid, parent: Sid, table: seq<R.Region>, to: seq<R.Region>, at: nat,
                f: Frame)
    requires Accounted(s) && Accounted(t) && R.Table(table) && Paged(table)
    requires StoppedAt(s, t, child, parent, table, to, NoRecord, at)
    requires CountsLostAt(t, u, child, to, f) && Users(u.ptes, f) == Users(s.ptes, f)
    ensures LeakedAt(s, u, parent, table[at], f)
  {
    if f in s.refs {
      HasUser(s, f);
    }
    if Shares(table[at].attr) {
      LostShared(s, t, child, parent, table, to, at, f);
    } else {
      LostCopied(s, t, child, parent, table, to, at, f);
    }
  }

  lemma Leaks(s: State, t: State, u: State, child: Sid, parent: Sid, table: seq<R.Region>, to: seq<R.Region>, at: nat)
    requires Accounted(s) && Accounted(t) && Backed(u) && R.Table(table) && Paged(table)
    requires StoppedAt(s, t, child, parent, table, to, NoRecord, at)
    requires CountsLost(t, u, child, to) && forall k :: KeptAt(s, u, k)
    ensures Leaked(s, u, parent, table[at])
  {
    forall f: Frame
      ensures LeakedAt(s, u, parent, table[at], f)
    {
      assert CountsLostAt(t, u, child, to, f);
      SameUsers(s, u, f);
      LeaksAt(s, t, u, child, parent, table, to, at, f);
    }
    if !Shares(table[at].attr) {
      NewFramesAre(s, t, u, child, parent, table, to, at);
      CopiesLeak(s, t, u, child, parent, table[at]);
    }
  }

  lemma ReadyToDiscard(s: State, t: State, child: Sid, parent: Sid, table: seq<R.Region>, to: seq<R.Region>,
                       outcome: Outcome, at: nat)
    requires Backed(s) && Backed(t) && R.Table(table) && Paged(table) && !outcome.Done?
    requires StoppedAt(s, t, child, parent, table, to, outcome, at)
    ensures KeptOutside(s, t, child) && WholePages(to)
  {
    R.NextEntry(table, at);
    WholePrefix(table, at, to);
    if outcome.NoRecord? {
      ForkedKeeps(s, t, child, parent, table[..at + 1], table[..at + 1]);
    }
  }

  /**
  server_task_fork_current_stopped, with task_discard_unstarted when it fails; `at` is the
  first region that fails.
  */
  method ForkSpace(m: Machine, child: Sid, parent: Sid, from: R.RegionTable, to: R.RegionTable, junk: Page,
                   grants: seq<nat>, tableGrants: nat)
    returns (outcome: Outcome, ghost at: nat)
    requires Forkable(m.View(), child, parent, from.regions)
    requires |junk| == PAGE_SIZE && |grants| == |from.regions| && from != to && to.Valid() && to.regions == []
    modifies m, to
    ensures to.Valid() && Backed(m.View())
    ensures StopsAt(old(m.View()), old(m.Available()), parent, from.regions, grants,
                    R.Reach(old(to.capacity), tableGrants), outcome, at)
    ensures outcome.Done? ==>
              && Accounted(m.View())
              && Forked(old(m.View()), m.View(), child, parent, from.regions)
              && R.SameMap(from.regions, to.regions)
    ensures outcome.Done? && Exclusive(old(m.View())) ==>
              (Exclusive(m.View()) <==> FilePagesReadOnly(old(m.View()), parent, from.regions))
    ensures !outcome.Done? ==> to.regions == [] && forall k :: KeptAt(old(m.View()), m.View(), k)
    ensures outcome.NoRange? ==> Accounted(m.View()) && m.refs == old(m.refs) && m.mem == old(m.mem)
    ensures outcome.NoRange? && Exclusive(old(m.View())) ==> Exclusive(m.View())
    ensures outcome.NoRecord? ==> Leaked(old(m.View()), m.View(), parent, from.regions[at])
  {
    ghost var was, table := m.View(), from.regions;
    outcome, at := GiveAll(m, child, parent, from, to, junk, grants, tableGrants);
    if outcome.Done? {
      if Exclusive(was) {
        ForkExclusiveIff(was, m.View(), child, parent, table);
      }
      return;
    }
    ghost var t, recorded := m.View(), to.regions;
    ReadyToDiscard(was, t, child, parent, table, recorded, outcome, at);
    Discard(m, child, to, was);
    if outcome.NoRecord? {
      Leaks(was, t, m.View(), child, parent, table, recorded, at);
    } else {
      KeptExclusive(was, m.View());
    }
  }

  lemma KeptExclusive(s: State, t: State)
    requires Backed(s) && Backed(t) && t.refs == s.refs && forall k :: KeptAt(s, t, k)
    ensures Exclusive(s) ==> Exclusive(t)
  {
    if Exclusive(s) {
      forall k | k in t.ptes && t.ptes[k].writable
        ensures t.refs[t.ptes[k].frame] == 1
      {
        assert KeptAt(s, t, k);
      }
    }
  }

  lemma DestroyKeeps(s: State, t: State, child: Sid)
    requires Backed(s) && Backed(t) && KeptOutside(s, t, child) && NoneMapped(s.ptes, child)
    ensures Backed(Destroyed(t, child))
    ensures forall k :: KeptAt(s, Destroyed(t, child), k)
  {
    forall k
      ensures KeptAt(s, Destroyed(t, child), k)
    {
      assert k.0 != child ==> KeptAt(s, t, k);
    }
  }

  // ----- the smallest such fork

  /** One page that programs may write, in a region of its own. */
  const ONE_PAGE := R.Region(16 * PAGE_SIZE, PAGE_SIZE, 0,
                             R.Attr(PROT_WRITE, MAP_PRIVATE | MAP_ANONYMOUS, 0, R.Anon, 0))

  lemma OnePageIs()
    ensures SharedCow(ONE_PAGE.attr) && Lo(ONE_PAGE) == 16 && Hi(ONE_PAGE) == 17
    ensures R.Table([ONE_PAGE]) && Paged([ONE_PAGE])
    ensures R.Heads([ONE_PAGE], 1) == 1 && R.Reach(0, 0) == 0
  {
    assert [ONE_PAGE][..0] == [];
    assert R.Heads([ONE_PAGE], 0) == 0;
  }

  lemma OnePageMapped(s: State, x: Sid)
    requires Inv(s) && s.ptes.Keys == {(x, 16)}
    ensures
      var f: Frame := s.ptes[(x, 16)].frame;
      && s.refs == map[f := 1] && Users(s.ptes, f) == {(x, 16)} && PagesOf(s, x, ONE_PAGE, f) == {(x, 16)}
  {
    var f: Frame := s.ptes[(x, 16)].frame;
    OnePageIs();
    assert Users(s.ptes, f) == {(x, 16)};
    forall g | g in s.refs
      ensures g == f
    {
      HasUser(s, g);
    }
    assert s.refs.Keys == {f};
  }

  /** The machine after start-up and one vm_alloc_user_range of a page. */
  method OnePageMachine(writable: bool, junk: Page) returns (m: Machine)
    requires |junk| == PAGE_SIZE
    ensures fresh(m) && Inv(m.View()) && m.ptes.Keys == {(1, 16)}
  {
    m := new Machine({7});
    ghost var was := m.View();
    var ok := m.AllocPages(1, 16, 17, writable, false, junk, 1);
    assert Shows(m.View(), (1, 16), writable, false, Some(ZeroPage()));
    forall k
      ensures k in m.ptes <==> k == (1, 16)
    {
      assert !InRange(k, 1, 16, 17) ==> SameAt(was, m.View(), k);
    }
  }

  method TableOf(r: R.Region) returns (table: R.RegionTable)
    requires 0 < r.len && r.End() < U64
    ensures fresh(table) && table.Valid() && table.regions == [r]
  {
    table := new R.RegionTable();
    assert R.Free([], r.base, r.End());
    var ok, _ := table.Add(r.base, r.len, r.attr, r.offset, 1);
    assert table.regions == [] + [r];
  }

  lemma OnePageForks(s: State, available: nat, outcome: Outcome, at: nat)
    requires Inv(s) && s.ptes.Keys == {(1, 16)}
    ensures Forkable(s, 2, 1, [ONE_PAGE])
    ensures StopsAt(s, available, 1, [ONE_PAGE], [1], 0, outcome, at) ==> outcome.NoRecord? && at == 0
  {
    OnePageIs();
    assert AllMapped(s, 1, 16, 17);
    assert CanGive(s, available, 1, [ONE_PAGE], [1], 0) && !CanRecord([ONE_PAGE], 0, 0);
  }

  /**
  A task with one page forks when there is no memory for the child's region table:
  the fork fails, the page has one mapping as before, and its count is 2.
  */
  method LeakingFork(junk: Page) returns (m: Machine, outcome: Outcome)
    requires |junk| == PAGE_SIZE
    ensures fresh(m) && outcome.NoRecord? && m.ptes.Keys == {(1, 16)} && m.refs == map[m.ptes[(1, 16)].frame := 2]
  {
    m := OnePageMachine(true, junk);
    var from := TableOf(ONE_PAGE);
    var to := new R.RegionTable();
    ghost var was, available := m.View(), m.Available();
    OnePageForks(was, available, Done, 0);
    assert R.Reach(0, 0) == 0;
    ghost var at;
    outcome, at := ForkSpace(m, 2, 1, from, to, junk, [1], 0);
    OnePageForks(was, available, outcome, at);
    LeakedOne(was, m.View());
  }

  lemma LeakedOne(s: State, t: State)
    requires Inv(s) && Backed(t) && s.ptes.Keys == {(1, 16)} && Leaked(s, t, 1, ONE_PAGE) && forall k :: KeptAt(s, t, k)
    ensures t.ptes.Keys == {(1, 16)} && t.refs == map[t.ptes[(1, 16)].frame := 2]
  {
    OnePageIs();
    OnePageMapped(s, 1);
    forall k
      ensures k in t.ptes <==> k in s.ptes
    {
      assert KeptAt(s, t, k);
    }
    assert t.ptes.Keys == s.ptes.Keys;
    assert KeptAt(s, t, (1, 16));
    forall f: Frame
      ensures f in t.refs <==> f in s.refs
      ensures f in t.refs ==> t.refs[f] == 2
    {
      assert LeakedAt(s, t, 1, ONE_PAGE, f);
    }
    assert t.refs.Keys == s.refs.Keys;
  }

  // ----- a fork that shares a writable page

  /** One page of a file that programs may only read, in a region of its own. */
  const FILE_PAGE := R.Region(16 * PAGE_SIZE, PAGE_SIZE, 0, R.Attr(1, MAP_PRIVATE, 0, R.File, 0))

  lemma FilePageIs()
    ensures SharedFile(FILE_PAGE.attr) && Lo(FILE_PAGE) == 16 && Hi(FILE_PAGE) == 17
    ensures R.Table([FILE_PAGE]) && Paged([FILE_PAGE]) && R.At([FILE_PAGE], 16 * PAGE_SIZE) == Some(FILE_PAGE.attr)
    ensures R.Heads([FILE_PAGE], 1) == 1 && R.Reach(0, 1) >= 1
  {
    assert [FILE_PAGE][..0] == [];
    assert R.Heads([FILE_PAGE], 0) == 0;
    R.AtIs([FILE_PAGE], 0, 16 * PAGE_SIZE);
  }

  lemma FilePageForks(s: State, available: nat, outcome: Outcome, at: nat)
    requires Accounted(s) && s.ptes.Keys == {(1, 16)}
    ensures Forkable(s, 2, 1, [FILE_PAGE])
    ensures StopsAt(s, available, 1, [FILE_PAGE], [1], R.Reach(0, 1), outcome, at) ==> outcome.Done?
    ensures s.ptes[(1, 16)].writable ==> !FilePagesReadOnly(s, 1, [FILE_PAGE])
  {
    FilePageIs();
    assert AllMapped(s, 1, 16, 17);
    assert CanGive(s, available, 1, [FILE_PAGE], [1], 0) && CanRecord([FILE_PAGE], R.Reach(0, 1), 0);
    if s.ptes[(1, 16)].writable {
      assert InRange((1, 16), 1, 16, 17);
      assert !SafeToGive(s, 1, [FILE_PAGE][0]);
    }
  }

  /** vm_protect_user_range on the page of the file and the one behind it, which is not mapped. */
  method HalfProtect(m: Machine) returns (ok: bool)
    requires Inv(m.View()) && m.ptes.Keys == {(1, 16)}
    modifies m
    ensures !ok && Inv(m.View()) && m.ptes.Keys == {(1, 16)} && m.ptes[(1, 16)].writable
  {
    ghost var was, done := m.View(), 0;
    ok, done := m.ProtectPages(1, 16, 18, true, false);
    assert (1, 16) in was.ptes && (1, 17) !in was.ptes;
    assert done != 16 && !(16 <= 17 < done);
    assert InRange((1, 16), 1, 16, done);
    OnePageMapped(was, 1);
    RightsExclusive(was, m.View(), 1, 16, done, true, false);
  }

  lemma FilePageShared(s: State, t: State)
    requires Backed(s) && Backed(t) && (1, 16) in s.ptes && Forked(s, t, 2, 1, [FILE_PAGE])
    ensures (1, 16) in t.ptes && (2, 16) in t.ptes && t.ptes[(1, 16)] == s.ptes[(1, 16)]
    ensures t.ptes[(1, 16)].frame == t.ptes[(2, 16)].frame
  {
    FilePageIs();
    assert ForkedAt(s, t, 2, 1, [FILE_PAGE], (1, 16));
    assert ForkedAt(s, t, 2, 1, [FILE_PAGE], (2, 16));
  }

  /**
  Making a page of a read-only file and the page behind it writable fails, since the
  latter is not mapped, but leaves the former writable.  A fork then shares it, and
  what the parent writes there the child sees.
  */
  method SharingFork(junk: Page) returns (m: Machine, ok: bool, outcome: Outcome)
    requires |junk| == PAGE_SIZE
    ensures fresh(m) && !ok && outcome.Done? && Accounted(m.View()) && !Exclusive(m.View())
    ensures (1, 16) in m.ptes && (2, 16) in m.ptes
    ensures m.ptes[(1, 16)].writable && m.ptes[(1, 16)].frame == m.ptes[(2, 16)].frame
  {
    m := OnePageMachine(false, junk);
    ok := HalfProtect(m);
    var from := TableOf(FILE_PAGE);
    var to := new R.RegionTable();
    ghost var was, available := m.View(), m.Available();
    FilePageForks(was, available, Done, 0);
    ghost var at;
    outcome, at := ForkSpace(m, 2, 1, from, to, junk, [1], 1);
    FilePageForks(was, available, outcome, at);
    FilePageShared(was, m.View());
  }

  // ----- what programs see

  /** Parent and child read the parent's bytes in every recorded region, and nobody else's bytes change. */
  lemma ForkedReads(s: State, t: State, child: Sid, parent: Sid, table: seq<R.Region>, a: int)
    requires Backed(s) && Backed(t) && child != parent && R.Table(table) && Paged(table)
    requires Forked(s, t, child, parent, table)
    ensures forall y :: y != child ==> ByteAt(t, y, a) == ByteAt(s, y, a)
    ensures R.At(table, a).Some? ==> ByteAt(t, child, a) == ByteAt(s, parent, a) && ByteAt(s, parent, a).Some?
    ensures R.At(table, PageStart(a)).None? ==> ByteAt(t, child, a).None?
  {
    var p := a / PAGE_SIZE;
    forall y | y != child
      ensures ByteAt(t, y, a) == ByteAt(s, y, a)
    {
      assert ForkedAt(s, t, child, parent, table, (y, p));
    }
    assert ForkedAt(s, t, child, parent, table, (child, p));
    PagedIsWhole(table);
  }

  /** The memory that a fork gives to the child: the recorded pages of the parent. */
  ghost function ForkedMemory(s: State, child: Sid, parent: Sid, table: seq<R.Region>): Isolation.Memory
    requires Backed(s)
  {
    map k: Slot | k in s.ptes && k.0 == parent && R.At(table, k.1 * PAGE_SIZE).Some? ::
      (child, k.1) := s.mem[s.ptes[k].frame]
  }

  lemma ForkGivesAt(s: State, t: State, child: Sid, parent: Sid, table: seq<R.Region>, p: int)
    requires Backed(s) && Backed(t) && child != parent && Forked(s, t, child, parent, table)
    ensures (child, p) in t.ptes <==> (parent, p) in s.ptes && R.At(table, p * PAGE_SIZE).Some?
    ensures (child, p) in t.ptes ==> t.mem[t.ptes[(child, p)].frame] == s.mem[s.ptes[(parent, p)].frame]
    ensures (parent, p) in t.ptes <==> (parent, p) in s.ptes
    ensures (parent, p) in t.ptes ==> t.mem[t.ptes[(parent, p)].frame] == s.mem[s.ptes[(parent, p)].frame]
  {
    assert ForkedAt(s, t, child, parent, table, (child, p));
    assert ForkedAt(s, t, child, parent, table, (parent, p));
    assert Sees(t, (parent, p)) == Sees(s, (parent, p));
  }

  lemma SameMaps<K, V>(a: map<K, V>, b: map<K, V>)
    requires forall k :: k in a <==> k in b
    requires forall k :: k in a ==> k in b && a[k] == b[k]
    ensures a == b
  {
    assert a.Keys == b.Keys;
  }

  lemma InSpaceAt(t: State, y: Sid, k: Slot)
    requires Backed(t)
    ensures
      var c := Isolation.InSpace(Isolation.MemoryOf(t), y);
      && (k in c <==> k in t.ptes && k.0 == y)
      && (k in c ==> c[k] == t.mem[t.ptes[k].frame])
  {
  }

  lemma ForkedMemoryAt(s: State, child: Sid, parent: Sid, table: seq<R.Region>, k: Slot)
    requires Backed(s)
    ensures
      var c := ForkedMemory(s, child, parent, table);
      && (k in c <==> k.0 == child && (parent, k.1) in s.ptes && R.At(table, k.1 * PAGE_SIZE).Some?)
      && (k in c ==> c[k] == s.mem[s.ptes[(parent, k.1)].frame])
  {
    assert k == (k.0, k.1);
    var l := (parent, k.1);
    if k.0 == child && l in s.ptes && R.At(table, k.1 * PAGE_SIZE).Some? {
      assert (child, l.1) in ForkedMemory(s, child, parent, table);
    }
  }

  lemma ChildGets(s: State, t: State, child: Sid, parent: Sid, table: seq<R.Region>)
    requires Backed(s) && Backed(t) && child != parent && Forked(s, t, child, parent, table)
    ensures Isolation.InSpace(Isolation.MemoryOf(t), child) == ForkedMemory(s, child, parent, table)
  {
    var c, start := Isolation.InSpace(Isolation.MemoryOf(t), child), ForkedMemory(s, child, parent, table);
    forall k: Slot
      ensures k in c <==> k in start
      ensures k in c ==> k in start && c[k] == start[k]
    {
      InSpaceAt(t, child, k);
      ForkedMemoryAt(s, child, parent, table, k);
      ForkGivesAt(s, t, child, parent, table, k.1);
      assert k.0 == child ==> k == (child, k.1);
    }
    SameMaps(c, start);
  }

  lemma ParentKeeps(s: State, t: State, child: Sid, parent: Sid, table: seq<R.Region>)
    requires Backed(s) && Backed(t) && child != parent && Forked(s, t, child, parent, table)
    ensures Isolation.InSpace(Isolation.MemoryOf(t), parent) == Isolation.InSpace(Isolation.MemoryOf(s), parent)
  {
    var p, was := Isolation.InSpace(Isolation.MemoryOf(t), parent), Isolation.InSpace(Isolation.MemoryOf(s), parent);
    forall k: Slot
      ensures k in p <==> k in was
      ensures k in p ==> k in was && p[k] == was[k]
    {
      InSpaceAt(t, parent, k);
      InSpaceAt(s, parent, k);
      ForkGivesAt(s, t, child, parent, table, k.1);
      assert k.0 == parent ==> k == (parent, k.1);
    }
    SameMaps(p, was);
  }

  /**
  Fork isolation.  In any run after a fork, however the steps of all spaces are
  interleaved, the child sees what its own steps make of the pages the parent had
  when it forked, and the parent sees what its own steps make of its pages.
  */
  lemma ForkIsolation(s: State, ss: seq<State>, steps: seq<Isolation.Step>, n: nat, child: Sid, parent: Sid,
                      table: seq<R.Region>, y: Sid)
    requires Backed(s) && child != parent && Isolation.IsRun(ss, steps) && n < |ss|
    requires Forked(s, ss[0], child, parent, table) && y in {child, parent}
    requires forall i :: 0 <= i < n ==> Isolation.Local(steps[i], y)
    ensures Inv(ss[n])
    ensures
      var start := if y == child then ForkedMemory(s, child, parent, table)
                   else Isolation.InSpace(Isolation.MemoryOf(s), parent);
      Isolation.InSpace(Isolation.MemoryOf(ss[n]), y) == Isolation.PrivateRun(start, Isolation.Own(steps[..n], y))
  {
    Isolation.RunIsolated(ss, steps, n, y);
    ChildGets(s, ss[0], child, parent, table);
    ParentKeeps(s, ss[0], child, parent, table);
  }

  /** The region search of task_handle_cow_fault. */
  method FindCowRegion(table: R.RegionTable, page: int) returns (attr: Option<R.Attr>)
    requires table.Valid()
    ensures attr.Some? <==> R.At(table.regions, page).Some? && SharedCow(R.At(table.regions, page).value)
    ensures attr.Some? ==> R.At(table.regions, page) == Some(attr.value)
  {
    var i := 0;
    while i < |table.regions|
      invariant 0 <= i <= |table.regions|
      invariant forall j :: 0 <= j < i && R.HeldAt(table.regions, j, page) ==> !SharedCow(table.regions[j].attr)
    {
      var r := table.regions[i];
      if r.Holds(page) && SharedCow(r.attr) {
        assert R.HeldAt(table.regions, i, page);
        R.AtIs(table.regions, i, page);
        return Some(r.attr);
      }
      i := i + 1;
    }
    return None;
  }

  /** task_handle_cow_fault: only a write to a private anonymous region that allows writing is served. */
  method HandleCowFault(m: Machine, x: Sid, table: R.RegionTable, addr: u64, writeFault: bool, junk: Page, room: bool)
    returns (ok: bool)
    requires Inv(m.View()) && table.Valid() && |junk| == PAGE_SIZE
    modifies m
    ensures Inv(m.View()) && AllSame(old(m.View()), m.View())
    ensures ok ==> CanWrite(m.ptes, x, addr)
    ensures !ok ==> m.View() == old(m.View())
    ensures ok <==>
            && writeFault && room && old(m.Available()) > 0 && (x, addr / PAGE_SIZE) in old(m.ptes)
            && R.At(table.regions, PageStart(addr)).Some? && SharedCow(R.At(table.regions, PageStart(addr)).value)
  {
    if !writeFault {
      return false;
    }
    var attr := FindCowRegion(table, PageStart(addr));
    if attr.None? {
      return false;
    }
    ghost var f;
    ok, f := m.CowPage((x, addr / PAGE_SIZE), Executable(attr.value), junk, room);
    if ok {
      CowKeeps(old(m.View()), (x, addr / PAGE_SIZE), f, Executable(attr.value));
    }
  }
}
