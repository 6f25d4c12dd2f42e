/**
User address spaces over reference-counted frames (kernel/vm.c).

`ptes[(x, p)]` is the user page-table entry of page `p` in space `x`; `refs`
holds the reference count of every user frame in use and `mem` its contents.
What a program sees is one private memory per space, `Sees`.  The theorems say
that sharing, copy-on-write and rollback are invisible in that view, and that
reference counts are exactly the numbers of mappings.

Memory: `grants` is the number of requests (for a frame, or for room in a page
table) that are satisfied during a call before one is refused.
*/
module AddressSpaces {
  import opened Common

  type Sid = int
  type Frame = nat
  type Page = seq<bv8>
  type Slot = (Sid, int)

  datatype Pte = Pte(frame: Frame, writable: bool, executable: bool)

  datatype State = State(ptes: map<Slot, Pte>, refs: map<Frame, nat>, mem: map<Frame, Page>)

  // ----- invariants

  /** All mappings of a frame. */
  ghost function Users(ptes: map<Slot, Pte>, f: Frame): set<Slot> {
    set k | k in ptes && ptes[k].frame == f
  }

  /** Frame accounting: the count of a frame is the number of mappings of it. */
  ghost predicate Counted(s: State) {
    forall f :: f in s.refs ==> s.refs[f] == |Users(s.ptes, f)|
  }

  ghost predicate Backed(s: State) {
    && s.mem.Keys == s.refs.Keys
    && (forall f :: f in s.mem ==> |s.mem[f]| == PAGE_SIZE)
    && (forall f :: f in s.refs ==> s.refs[f] >= 1)
    && (forall k :: k in s.ptes ==> s.ptes[k].frame in s.refs)
  }

  /** A frame that can be written through some mapping has no other mapping. */
  ghost predicate Exclusive(s: State)
    requires Backed(s)
  {
    forall k :: k in s.ptes && s.ptes[k].writable ==> s.refs[s.ptes[k].frame] == 1
  }

  ghost predicate Accounted(s: State) {
    Backed(s) && Counted(s)
  }

  ghost predicate Inv(s: State) {
    Accounted(s) && Exclusive(s)
  }

  /** The page a program in space `k.0` sees at page number `k.1`. */
  ghost function Sees(s: State, k: Slot): Option<Page>
    requires Backed(s)
  {
    if k in s.ptes then Some(s.mem[s.ptes[k].frame]) else None
  }

  /** Only slot `k` may look different. */
  ghost predicate OthersSame(s: State, s': State, k: Slot)
    requires Backed(s) && Backed(s')
  {
    forall l :: l != k ==> Sees(s', l) == Sees(s, l)
  }

  ghost predicate AllSame(s: State, s': State)
    requires Backed(s) && Backed(s')
  {
    forall l :: Sees(s', l) == Sees(s, l)
  }

  // ----- single-page transitions

  /** pmm_page_free: the last reference frees the frame. */
  function Release(s: State, f: Frame): State {
    if f !in s.refs then s
    else if s.refs[f] > 1 then s.(refs := s.refs[f := s.refs[f] - 1])
    else s.(refs := s.refs - {f}, mem := s.mem - {f})
  }

  /** Map a new frame with the given contents. */
  function MapFresh(s: State, k: Slot, e: Pte, page: Page): State {
    State(s.ptes[k := e], s.refs[e.frame := 1], s.mem[e.frame := page])
  }

  /** Map a frame that is already in use. */
  function MapShared(s: State, k: Slot, e: Pte): State
    requires e.frame in s.refs
  {
    s.(ptes := s.ptes[k := e], refs := s.refs[e.frame := s.refs[e.frame] + 1])
  }

  function Unmap(s: State, k: Slot): State {
    if k in s.ptes then Release(s.(ptes := s.ptes - {k}), s.ptes[k].frame) else s
  }

  lemma UsersAfterSet(ptes: map<Slot, Pte>, k: Slot, e: Pte, f: Frame)
    requires k !in ptes
    ensures Users(ptes[k := e], f) == if f == e.frame then Users(ptes, f) + {k} else Users(ptes, f)
    ensures k !in Users(ptes, f)
  {
  }

  lemma UsersAfterClear(ptes: map<Slot, Pte>, k: Slot, f: Frame)
    requires k in ptes
    ensures Users(ptes - {k}, f) == Users(ptes, f) - {k}
    ensures k in Users(ptes, f) <==> ptes[k].frame == f
  {
  }

  lemma TwoUsers(users: set<Slot>, k: Slot, l: Slot)
    requires k in users && l in users && k != l
    ensures |users| >= 2
  {
    assert |users - {k}| == |users| - 1 && l in users - {k};
  }

  /** A frame with one reference has one mapping. */
  lemma SoleUser(s: State, k: Slot)
    requires Backed(s) && Counted(s) && k in s.ptes && s.refs[s.ptes[k].frame] == 1
    ensures forall l :: l in s.ptes && s.ptes[l].frame == s.ptes[k].frame ==> l == k
  {
    forall l | l in s.ptes && s.ptes[l].frame == s.ptes[k].frame
      ensures l == k
    {
      if l != k {
        TwoUsers(Users(s.ptes, s.ptes[k].frame), k, l);
      }
    }
  }

  lemma MapFreshCounted(s: State, k: Slot, e: Pte, page: Page)
    requires Accounted(s) && k !in s.ptes && e.frame !in s.refs
    ensures Counted(MapFresh(s, k, e, page))
  {
    var s' := MapFresh(s, k, e, page);
    assert Users(s.ptes, e.frame) == {};
    forall f | f in s'.refs
      ensures s'.refs[f] == |Users(s'.ptes, f)|
    {
      UsersAfterSet(s.ptes, k, e, f);
    }
  }

  lemma MapFreshKeeps(s: State, k: Slot, e: Pte, page: Page)
    requires Accounted(s) && k !in s.ptes && e.frame !in s.refs && |page| == PAGE_SIZE
    ensures Accounted(MapFresh(s, k, e, page)) && (Exclusive(s) ==> Exclusive(MapFresh(s, k, e, page)))
    ensures OthersSame(s, MapFresh(s, k, e, page), k)
    ensures Sees(MapFresh(s, k, e, page), k) == Some(page)
  {
    MapFreshCounted(s, k, e, page);
    MapFreshBacked(s, k, e, page);
  }

  lemma MapFreshBacked(s: State, k: Slot, e: Pte, page: Page)
    requires Backed(s) && k !in s.ptes && e.frame !in s.refs && |page| == PAGE_SIZE
    ensures Backed(MapFresh(s, k, e, page)) && (Exclusive(s) ==> Exclusive(MapFresh(s, k, e, page)))
  {
  }

  ghost predicate ReadOnlyFrame(s: State, f: Frame) {
    forall l :: l in s.ptes && s.ptes[l].frame == f ==> !s.ptes[l].writable
  }

  lemma MapSharedCounted(s: State, k: Slot, e: Pte)
    requires Counted(s) && k !in s.ptes && e.frame in s.refs
    ensures Counted(MapShared(s, k, e))
  {
    var s' := MapShared(s, k, e);
    forall f | f in s'.refs
      ensures s'.refs[f] == |Users(s'.ptes, f)|
    {
      UsersAfterSet(s.ptes, k, e, f);
    }
  }

  lemma MapSharedKeeps(s: State, k: Slot, e: Pte)
    requires Inv(s) && k !in s.ptes && e.frame in s.refs && !e.writable && ReadOnlyFrame(s, e.frame)
    ensures Inv(MapShared(s, k, e))
    ensures OthersSame(s, MapShared(s, k, e), k)
    ensures Sees(MapShared(s, k, e), k) == Some(s.mem[e.frame])
  {
    MapSharedCounted(s, k, e);
  }

  lemma UnmapCounted(s: State, k: Slot)
    requires Counted(s) && k in s.ptes
    ensures Counted(Unmap(s, k))
  {
    var s', g := Unmap(s, k), s.ptes[k].frame;
    assert s'.ptes == s.ptes - {k};
    forall f | f in s'.refs
      ensures s'.refs[f] == |Users(s'.ptes, f)|
    {
      assert s'.refs[f] == if f == g then s.refs[f] - 1 else s.refs[f];
      UsersAfterClear(s.ptes, k, f);
    }
  }

  /** A frame that loses its last reference has no mapping left. */
  lemma UnmapBacked(s: State, k: Slot)
    requires Backed(s) && Counted(s) && k in s.ptes
    ensures Backed(Unmap(s, k))
  {
    if s.refs[s.ptes[k].frame] == 1 {
      SoleUser(s, k);
    }
  }

  lemma UnmapExclusive(s: State, k: Slot)
    requires Inv(s) && k in s.ptes && Backed(Unmap(s, k))
    ensures Exclusive(Unmap(s, k))
  {
    var s' := Unmap(s, k);
    forall l | l in s'.ptes && s'.ptes[l].writable
      ensures s'.refs[s'.ptes[l].frame] == 1
    {
      SoleUser(s, l);
    }
  }

  lemma UnmapKeeps(s: State, k: Slot)
    requires Accounted(s)
    ensures Accounted(Unmap(s, k)) && (Exclusive(s) ==> Exclusive(Unmap(s, k)))
    ensures OthersSame(s, Unmap(s, k), k)
    ensures Sees(Unmap(s, k), k) == None
    ensures Unmap(s, k).ptes == s.ptes - {k}
  {
    if k in s.ptes {
      UnmapCounted(s, k);
      UnmapBacked(s, k);
      if Exclusive(s) {
        UnmapExclusive(s, k);
      }
    } else {
      assert s.ptes - {k} == s.ptes;
    }
  }

  /** arch_vm_protect_user_page: both rights of one entry are set as given. */
  function SetRights(s: State, k: Slot, writable: bool, executable: bool): State
    requires k in s.ptes
  {
    s.(ptes := s.ptes[k := s.ptes[k].(writable := writable, executable := executable)])
  }

  /** Clearing the write bit (and setting the execute bit as given) of one entry. */
  function Protect(s: State, k: Slot, executable: bool): State
    requires k in s.ptes
  {
    SetRights(s, k, false, executable)
  }

  lemma SetRightsKeeps(s: State, k: Slot, writable: bool, executable: bool)
    requires Accounted(s) && k in s.ptes
    ensures Accounted(SetRights(s, k, writable, executable))
    ensures AllSame(s, SetRights(s, k, writable, executable))
  {
    var s' := SetRights(s, k, writable, executable);
    forall f | f in s'.refs
      ensures Users(s'.ptes, f) == Users(s.ptes, f)
    {
    }
  }

  /** Changing rights keeps writable frames unshared exactly if it does not make a shared frame writable. */
  lemma SetRightsIff(s: State, k: Slot, writable: bool, executable: bool)
    requires Inv(s) && k in s.ptes
    ensures Accounted(SetRights(s, k, writable, executable))
    ensures Exclusive(SetRights(s, k, writable, executable)) <==> !writable || s.refs[s.ptes[k].frame] == 1
  {
    SetRightsKeeps(s, k, writable, executable);
    assert SetRights(s, k, writable, executable).ptes[k] == Pte(s.ptes[k].frame, writable, executable);
  }

  lemma ProtectKeeps(s: State, k: Slot, executable: bool)
    requires Inv(s) && k in s.ptes
    ensures Inv(Protect(s, k, executable))
    ensures AllSame(s, Protect(s, k, executable))
    ensures ReadOnlyFrame(Protect(s, k, executable), s.ptes[k].frame)
  {
    var s' := Protect(s, k, executable);
    SetRightsKeeps(s, k, false, executable);
    forall l | l in s'.ptes && s'.ptes[l].frame == s.ptes[k].frame
      ensures !s'.ptes[l].writable
    {
      if s.ptes[l].writable {
        SoleUser(s, l);
      }
    }
  }

  /** Storing into the frame behind a writable entry. */
  function Store(s: State, k: Slot, page: Page): State
    requires k in s.ptes
  {
    s.(mem := s.mem[s.ptes[k].frame := page])
  }

  /**
  What goes wrong otherwise, from the empty state: a page is shared copy-on-write,
  one side is made writable again, and what is stored there shows on the other side.
  */
  lemma SharedStoreShows(page: Page)
    requires |page| == PAGE_SIZE
    ensures
      var mapped := MapFresh(State(map[], map[], map[]), (1, 0), Pte(7, true, false), ZeroPage());
      var shared := CowPair(mapped, (2, 0), (1, 0), false);
      var changed := SetRights(shared, (1, 0), true, false);
      var stored := Store(changed, (1, 0), page);
      && Inv(mapped) && Inv(shared) && Accounted(changed) && !Exclusive(changed)
      && changed.ptes[(1, 0)].writable && Sees(changed, (2, 0)) == Some(ZeroPage())
      && Backed(stored) && Sees(stored, (2, 0)) == Some(page)
  {
    var none := State(map[], map[], map[]);
    var mapped := MapFresh(none, (1, 0), Pte(7, true, false), ZeroPage());
    MapFreshKeeps(none, (1, 0), Pte(7, true, false), ZeroPage());
    StoreAfterSharing(mapped, page);
  }

  lemma StoreAfterSharing(mapped: State, page: Page)
    requires Inv(mapped) && (1, 0) in mapped.ptes && (2, 0) !in mapped.ptes && |page| == PAGE_SIZE
    ensures
      var shared := CowPair(mapped, (2, 0), (1, 0), false);
      var changed := SetRights(shared, (1, 0), true, false);
      var stored := Store(changed, (1, 0), page);
      && Inv(shared) && Accounted(changed) && !Exclusive(changed)
      && changed.ptes[(1, 0)].writable && Sees(changed, (2, 0)) == Sees(mapped, (1, 0))
      && Backed(stored) && Sees(stored, (2, 0)) == Some(page)
  {
    var shared := CowPair(mapped, (2, 0), (1, 0), false);
    CowPairEffect(mapped, (2, 0), (1, 0), false);
    assert shared.refs[shared.ptes[(1, 0)].frame] >= 2;
    SetRightsIff(shared, (1, 0), true, false);
    assert Sees(shared, (2, 0)) == Sees(mapped, (1, 0));
  }

  lemma StoreKeeps(s: State, k: Slot, page: Page)
    requires Inv(s) && k in s.ptes && s.ptes[k].writable && |page| == PAGE_SIZE
    ensures Inv(Store(s, k, page))
    ensures OthersSame(s, Store(s, k, page), k)
    ensures Sees(Store(s, k, page), k) == Some(page)
  {
    SoleUser(s, k);
  }

  /** vm_cow_user_page: a private writable copy takes the place of a mapping. */
  function Cow(s: State, k: Slot, copy: Frame, executable: bool): State
    requires Backed(s) && k in s.ptes
  {
    MapFresh(Unmap(s, k), k, Pte(copy, true, executable), s.mem[s.ptes[k].frame])
  }

  lemma CowKeeps(s: State, k: Slot, copy: Frame, executable: bool)
    requires Inv(s) && k in s.ptes && copy !in s.refs
    ensures Inv(Cow(s, k, copy, executable))
    ensures AllSame(s, Cow(s, k, copy, executable))
  {
    UnmapKeeps(s, k);
    MapFreshKeeps(Unmap(s, k), k, Pte(copy, true, executable), s.mem[s.ptes[k].frame]);
  }

  ghost predicate SameFrames(s: State, s': State) {
    && s'.ptes.Keys == s.ptes.Keys
    && forall k :: k in s.ptes ==> s'.ptes[k].frame == s.ptes[k].frame
  }

  /** Counts and contents are determined by which slot maps which frame and what is seen through it. */
  lemma Determined(s: State, s': State)
    requires Accounted(s) && Accounted(s') && SameFrames(s, s') && AllSame(s, s')
    ensures s'.refs == s.refs && s'.mem == s.mem
  {
    forall f
      ensures Users(s'.ptes, f) == Users(s.ptes, f)
    {
    }
    forall f | f in s.refs
      ensures f in s'.refs && s'.refs[f] == s.refs[f] && s'.mem[f] == s.mem[f]
    {
      HasUser(s, f);
      var k :| k in Users(s.ptes, f);
      assert Sees(s', k) == Sees(s, k);
    }
    forall f | f in s'.refs
      ensures f in s.refs
    {
      HasUser(s', f);
      var k :| k in Users(s'.ptes, f);
    }
    assert s'.refs.Keys == s.refs.Keys;
  }

  lemma HasUser(s: State, f: Frame)
    requires Backed(s) && Counted(s) && f in s.refs
    ensures exists k :: k in Users(s.ptes, f)
  {
    assert |Users(s.ptes, f)| >= 1;
    assert Users(s.ptes, f) != {};
  }

  // ----- address ranges

  /** align_up in 64-bit arithmetic, as a page number. */
  function EndPage(end: u64): nat {
    (end + (PAGE_SIZE - 1)) % U64 / PAGE_SIZE
  }

  /** The range checks shared by all range operations. */
  predicate BadRange(vaddr: u64, len: u64) {
    || len == 0
    || (vaddr + len) % U64 < vaddr
    || EndPage((vaddr + len) % U64) <= vaddr / PAGE_SIZE
  }

  lemma GoodRangeMeaning(vaddr: u64, len: u64)
    ensures !BadRange(vaddr, len) <==> 0 < len && vaddr + len + (PAGE_SIZE - 1) < U64
    ensures !BadRange(vaddr, len) ==>
              && EndPage((vaddr + len) % U64) == (vaddr + len + (PAGE_SIZE - 1)) / PAGE_SIZE
              && vaddr / PAGE_SIZE < EndPage((vaddr + len) % U64)
  {
    if vaddr + len < U64 {
      assert (vaddr + len) % U64 == vaddr + len;
      if vaddr + len + (PAGE_SIZE - 1) >= U64 {
        assert (vaddr + len + (PAGE_SIZE - 1)) % U64 == vaddr + len + (PAGE_SIZE - 1) - U64;
      }
    } else {
      assert (vaddr + len) % U64 == vaddr + len - U64;
    }
  }

  predicate InRange(k: Slot, x: Sid, lo: int, hi: int) {
    k.0 == x && lo <= k.1 < hi
  }

  ghost predicate RangeFree(s: State, x: Sid, lo: int, hi: int) {
    forall k :: InRange(k, x, lo, hi) ==> k !in s.ptes
  }

  /** Slot `k` has the same entry and shows the same page. */
  ghost predicate SameAt(s: State, s': State, k: Slot)
    requires Backed(s) && Backed(s')
  {
    && (k in s'.ptes <==> k in s.ptes)
    && (k in s.ptes ==> s'.ptes[k] == s.ptes[k])
    && Sees(s', k) == Sees(s, k)
  }

  /** Outside the range, entries and what is seen through them are as before. */
  ghost predicate SameOutside(s: State, s': State, x: Sid, lo: int, hi: int)
    requires Backed(s) && Backed(s')
  {
    forall k :: !InRange(k, x, lo, hi) ==> SameAt(s, s', k)
  }

  function ZeroPage(): Page {
    seq(PAGE_SIZE, _ => 0)
  }

  /** Slot `k` is mapped with the given rights and shows `page`. */
  ghost predicate Shows(s: State, k: Slot, writable: bool, executable: bool, page: Option<Page>)
    requires Backed(s)
  {
    && k in s.ptes
    && s.ptes[k].writable == writable && s.ptes[k].executable == executable
    && Sees(s, k) == page
  }

  ghost predicate Zeroed(s: State, x: Sid, lo: int, hi: int, writable: bool, executable: bool)
    requires Backed(s)
  {
    forall p :: lo <= p < hi ==> Shows(s, (x, p), writable, executable, Some(ZeroPage()))
  }

  /** Undoing a range that was free before restores the state exactly. */
  lemma RollbackRestores(s: State, s': State, x: Sid, lo: int, hi: int)
    requires Accounted(s) && Accounted(s') && RangeFree(s, x, lo, hi) && RangeFree(s', x, lo, hi)
    requires SameOutside(s, s', x, lo, hi)
    ensures s' == s
  {
    forall k
      ensures SameAt(s, s', k)
    {
    }
    assert s'.ptes.Keys == s.ptes.Keys;
    assert s'.ptes == s.ptes;
    Determined(s, s');
  }

  lemma SameOutsideTrans(s: State, t: State, u: State, x: Sid, lo: int, mid: int, hi: int)
    requires Backed(s) && Backed(t) && Backed(u) && lo <= mid <= hi
    requires SameOutside(s, t, x, lo, mid) && SameOutside(t, u, x, mid, hi)
    ensures SameOutside(s, u, x, lo, hi)
  {
    forall k | !InRange(k, x, lo, hi)
      ensures SameAt(s, u, k)
    {
      assert SameAt(s, t, k) && SameAt(t, u, k);
    }
  }

  lemma UnmapStep(s: State, x: Sid, p: int)
    requires Accounted(s)
    ensures Accounted(Unmap(s, (x, p))) && (Exclusive(s) ==> Exclusive(Unmap(s, (x, p))))
    ensures RangeFree(Unmap(s, (x, p)), x, p, p + 1)
    ensures SameOutside(s, Unmap(s, (x, p)), x, p, p + 1)
  {
    UnmapKeeps(s, (x, p));
  }

  lemma MapFreshStep(s: State, x: Sid, p: int, e: Pte, page: Page)
    requires Accounted(s) && (x, p) !in s.ptes && e.frame !in s.refs && |page| == PAGE_SIZE
    ensures Accounted(MapFresh(s, (x, p), e, page)) && (Exclusive(s) ==> Exclusive(MapFresh(s, (x, p), e, page)))
    ensures SameOutside(s, MapFresh(s, (x, p), e, page), x, p, p + 1)
    ensures Shows(MapFresh(s, (x, p), e, page), (x, p), e.writable, e.executable, Some(page))
  {
    MapFreshKeeps(s, (x, p), e, page);
  }

  class Machine {
    var ptes: map<Slot, Pte>
    var refs: map<Frame, nat>
    var mem: map<Frame, Page>
    const pool: set<Frame>

    /** At start-up nothing is mapped and every frame is available. */
    constructor (pool: set<Frame>)
      ensures Inv(View()) && ptes == map[] && Available() == |pool|
    {
      ptes, refs, mem, this.pool := map[], map[], map[], pool;
      new;
      assert pool - refs.Keys == pool;
    }

    ghost function View(): State
      reads this
    {
      State(ptes, refs, mem)
    }

    /** The number of frames that are not in use. */
    ghost function Available(): nat
      reads this
    {
      |pool - refs.Keys|
    }

    /** vm_rpc_alloc_frame; a new frame holds whatever was in it before. */
    method AllocFrame(junk: Page) returns (f: Option<Frame>)
      requires |junk| == PAGE_SIZE
      modifies this`refs, this`mem
      ensures f.None? <==> old(Available()) == 0
      ensures f.None? ==> View() == old(View())
      ensures f.Some? ==>
                && f.value !in old(refs) && Available() == old(Available()) - 1
                && View() == State(old(ptes), old(refs)[f.value := 1], old(mem)[f.value := junk])
    {
      var available := pool - refs.Keys;
      if available == {} {
        return None;
      }
      var g :| g in available;
      refs, mem := refs[g := 1], mem[g := junk];
      assert pool - refs.Keys == available - {g};
      return Some(g);
    }

    /** vm_rpc_free_frame */
    method FreeFrame(f: Frame)
      modifies this
      ensures View() == Release(old(View()), f)
    {
      if f !in refs {
        return;
      }
      if refs[f] > 1 {
        refs := refs[f := refs[f] - 1];
      } else {
        refs, mem := refs - {f}, mem - {f};
      }
    }

    method UnmapPage(k: Slot)
      modifies this
      ensures View() == Unmap(old(View()), k)
    {
      if k in ptes {
        var f := ptes[k].frame;
        ptes := ptes - {k};
        FreeFrame(f);
      }
    }

    /** The loop of vm_unmap_user_range: pages that are not mapped are skipped. */
    method UnmapPages(x: Sid, lo: int, hi: int)
      requires Accounted(View()) && lo <= hi
      modifies this
      ensures Accounted(View()) && (Exclusive(old(View())) ==> Exclusive(View()))
      ensures RangeFree(View(), x, lo, hi)
      ensures SameOutside(old(View()), View(), x, lo, hi)
    {
      var p := lo;
      while p < hi
        invariant lo <= p <= hi && Accounted(View())
        invariant Exclusive(old(View())) ==> Exclusive(View())
        invariant RangeFree(View(), x, lo, p)
        invariant SameOutside(old(View()), View(), x, lo, p)
      {
        ghost var before := View();
        UnmapStep(before, x, p);
        UnmapPage((x, p));
        SameOutsideTrans(old(View()), before, View(), x, lo, p, p + 1);
        KeepFree(before, View(), x, lo, p);
        p := p + 1;
      }
    }

    /** vm_unmap_user_range */
    method UnmapRange(x: Sid, vaddr: u64, len: u64) returns (ok: bool)
      requires Accounted(View())
      modifies this
      ensures Accounted(View()) && (Exclusive(old(View())) ==> Exclusive(View()))
      ensures ok <==> 0 < len && vaddr + len + (PAGE_SIZE - 1) < U64
      ensures !ok ==> View() == old(View())
      ensures ok ==>
                var lo, hi := vaddr / PAGE_SIZE, (vaddr + len + (PAGE_SIZE - 1)) / PAGE_SIZE;
                RangeFree(View(), x, lo, hi) && SameOutside(old(View()), View(), x, lo, hi)
    {
      GoodRangeMeaning(vaddr, len);
      if BadRange(vaddr, len) {
        return false;
      }
      UnmapPages(x, vaddr / PAGE_SIZE, EndPage((vaddr + len) % U64));
      return true;
    }

    /** vm_rpc_free_frame on a frame just allocated. */
    method DropFrame(f: Frame, ghost was: State, ghost page: Page)
      requires was.mem.Keys == was.refs.Keys && f !in was.refs
      requires View() == State(was.ptes, was.refs[f := 1], was.mem[f := page])
      modifies this
      ensures View() == was
    {
      FreeFrame(f);
      assert refs == was.refs;
      assert mem == was.mem;
    }

    /** Allocate a frame and give it its contents. */
    method AllocFilled(page: Page, junk: Page) returns (f: Option<Frame>)
      requires |junk| == PAGE_SIZE
      modifies this`refs, this`mem
      ensures f.None? <==> old(Available()) == 0
      ensures f.None? ==> refs == old(refs) && mem == old(mem)
      ensures f.Some? ==> f.value !in old(refs) && Available() == old(Available()) - 1
      ensures f.Some? ==> refs == old(refs)[f.value := 1] && mem == old(mem)[f.value := page]
    {
      f := AllocFrame(junk);
      if f.Some? {
        mem := mem[f.value := page];
        assert mem == old(mem)[f.value := page];
      }
    }

    /** Frame allocation, fill and vm_map_user_page for one page; the frame is freed if mapping fails. */
    method AllocPage(k: Slot, writable: bool, executable: bool, page: Page, junk: Page, room: bool)
      returns (ok: bool, ghost f: Frame)
      requires mem.Keys == refs.Keys && |junk| == PAGE_SIZE
      modifies this
      ensures ok <==> room && old(Available()) > 0
      ensures ok ==> Available() == old(Available()) - 1 && f !in old(refs)
      ensures View() == if ok then MapFresh(old(View()), k, Pte(f, writable, executable), page) else old(View())
    {
      ghost var was := View();
      var frame := AllocFilled(page, junk);
      f := 0;
      if frame.None? {
        return false, f;
      }
      f := frame.value;
      if !room {
        DropFrame(frame.value, was, page);
        return false, f;
      }
      ptes := ptes[k := Pte(frame.value, writable, executable)];
      return true, f;
    }

    /** The loop of vm_alloc_user_range, with its rollback. */
    method AllocPages(x: Sid, lo: int, hi: int, writable: bool, executable: bool, junk: Page, grants: nat)
      returns (ok: bool)
      requires Inv(View()) && lo <= hi && RangeFree(View(), x, lo, hi) && |junk| == PAGE_SIZE
      modifies this
      ensures Inv(View())
      ensures ok ==> SameOutside(old(View()), View(), x, lo, hi)
      ensures ok ==> Zeroed(View(), x, lo, hi, writable, executable)
      ensures !ok ==> View() == old(View())
      ensures ok <==> grants >= hi - lo && old(Available()) >= hi - lo
    {
      var p, left := lo, grants;
      while p < hi
        invariant lo <= p <= hi && Inv(View())
        invariant left == grants - (p - lo) && Available() == old(Available()) - (p - lo)
        invariant SameOutside(old(View()), View(), x, lo, p)
        invariant Zeroed(View(), x, lo, p, writable, executable)
      {
        ghost var before := View();
        assert InRange((x, p), x, lo, hi) && SameAt(old(View()), before, (x, p));
        ghost var f;
        ok, f := AllocPage((x, p), writable, executable, ZeroPage(), junk, left > 0);
        if !ok {
          UnmapPages(x, lo, p);
          SameOutsideBoth(old(View()), before, View(), x, lo, p);
          RollbackRestores(old(View()), View(), x, lo, p);
          return;
        }
        MapFreshStep(before, x, p, Pte(f, writable, executable), ZeroPage());
        SameOutsideTrans(old(View()), before, View(), x, lo, p, p + 1);
        KeepZeroed(before, View(), x, lo, p, writable, executable);
        left := left - 1;
        p := p + 1;
      }
      return true;
    }

    /** One page of vm_clone_user_range: allocate and map, then copy, or undo if the source is not mapped. */
    method ClonePage(dst: Slot, src: Slot, writable: bool, executable: bool, junk: Page, room: bool)
      returns (ok: bool, ghost f: Frame)
      requires Backed(View()) && dst !in ptes && |junk| == PAGE_SIZE
      modifies this
      ensures ok <==> room && old(Available()) > 0 && src in old(ptes)
      ensures ok ==> Available() == old(Available()) - 1 && f !in old(refs)
      ensures View() == if ok then MapFresh(old(View()), dst, Pte(f, writable, executable),
                                            old(mem)[old(ptes)[src].frame])
                        else old(View())
    {
      ghost var was := View();
      ok, f := AllocPage(dst, writable, executable, junk, junk, room);
      if !ok {
        return;
      }
      if src !in ptes || src == dst {
        UndoMap(dst, was, junk);
        return false, f;
      }
      ghost var page := was.mem[was.ptes[src].frame];
      mem := mem[ptes[dst].frame := mem[ptes[src].frame]];
      assert mem == was.mem[f := junk][f := page] == was.mem[f := page];
    }

    /** arch_vm_unmap_page and vm_rpc_free_frame on a page just mapped. */
    method UndoMap(k: Slot, ghost was: State, ghost page: Page)
      requires Backed(was) && k in ptes && k !in was.ptes && ptes[k].frame !in was.refs
      requires View() == MapFresh(was, k, ptes[k], page)
      modifies this
      ensures View() == was
    {
      var f := ptes[k].frame;
      ptes := ptes - {k};
      assert ptes == was.ptes;
      DropFrame(f, was, page);
    }

    /** Give up after mapping pages `[lo, p)`, which were free: unmap them. */
    method Abandon(x: Sid, lo: int, p: int, ghost was: State)
      requires Accounted(was) && Accounted(View()) && lo <= p
      requires RangeFree(was, x, lo, p) && SameOutside(was, View(), x, lo, p)
      modifies this
      ensures View() == was
    {
      ghost var before := View();
      UnmapPages(x, lo, p);
      SameOutsideBoth(was, before, View(), x, lo, p);
      RollbackRestores(was, View(), x, lo, p);
    }

    /** One pass of vm_clone_user_range. */
    method CloneNext(dst: Sid, src: Sid, lo: int, p: int, next: int, hi: int, writable: bool, executable: bool,
                     junk: Page, room: bool, ghost was: State)
      returns (ok: bool)
      requires Accounted(was) && dst != src && lo <= p < hi && next == p + 1 && |junk| == PAGE_SIZE
      requires RangeFree(was, dst, lo, hi) && Filling(was, View(), dst, src, lo, p, writable, executable, true)
      modifies this
      ensures ok <==> room && old(Available()) > 0 && (src, p) in was.ptes
      ensures ok ==> Filling(was, View(), dst, src, lo, next, writable, executable, true)
      ensures ok ==> Available() == old(Available()) - 1
      ensures !ok ==> View() == was
    {
      ghost var before := View();
      FillingIs(was, before, dst, src, lo, p, writable, executable, true);
      NextPage(was, before, dst, src, lo, p, hi, writable, executable, true);
      FramesKept(was, before, dst, lo, p);
      ghost var f;
      ok, f := ClonePage((dst, p), (src, p), writable, executable, junk, room);
      if ok {
        CloneStep(was, before, View(), dst, src, lo, p, next, Pte(f, writable, executable));
      } else {
        Abandon(dst, lo, p, was);
      }
    }

    /** The loop of vm_clone_user_range, with its rollback. */
    method ClonePages(dst: Sid, src: Sid, lo: int, hi: int, writable: bool, executable: bool, junk: Page, grants: nat)
      returns (ok: bool)
      requires Accounted(View()) && lo <= hi && dst != src && RangeFree(View(), dst, lo, hi) && |junk| == PAGE_SIZE
      modifies this
      ensures Accounted(View()) && (Exclusive(old(View())) ==> Exclusive(View()))
      ensures ok ==> Filled(old(View()), View(), dst, src, lo, hi, writable, executable, true)
      ensures ok ==> Available() == old(Available()) - (hi - lo)
      ensures !ok ==> View() == old(View())
      ensures ok <==> AllMapped(old(View()), src, lo, hi) && grants >= hi - lo && old(Available()) >= hi - lo
    {
      ghost var was := View();
      var p, left := lo, grants;
      FillingNothing(was, dst, src, lo, writable, executable, true);
      while p < hi
        invariant lo <= p <= hi && left == grants - (p - lo) && Available() == old(Available()) - (p - lo)
        invariant Filling(was, View(), dst, src, lo, p, writable, executable, true)
      {
        var next := p + 1;
        ok := CloneNext(dst, src, lo, p, next, hi, writable, executable, junk, left > 0, was);
        if !ok {
          return;
        }
        p, left := next, left - 1;
      }
      FillingIs(was, View(), dst, src, lo, hi, writable, executable, true);
      CopiesExclusive(was, View(), dst, src, lo, hi, writable, executable);
      return true;
    }

    /** pmm_page_retain_addr and arch_vm_map_page for one page; the reference is dropped if mapping fails. */
    method SharePage(dst: Slot, src: Slot, writable: bool, executable: bool, room: bool) returns (ok: bool)
      requires Backed(View()) && src in ptes
      modifies this
      ensures ok <==> room
      ensures !ok ==> View() == old(View())
      ensures ok ==> View() == MapShared(old(View()), dst, Pte(old(ptes)[src].frame, writable, executable))
    {
      var f := ptes[src].frame;
      refs := refs[f := refs[f] + 1];
      if !room {
        FreeFrame(f);
        assert refs == old(refs);
        return false;
      }
      ptes := ptes[dst := Pte(f, writable, executable)];
      return true;
    }

    /** One pass of vm_share_user_range. */
    method ShareNext(dst: Sid, src: Sid, lo: int, p: int, next: int, hi: int, writable: bool, executable: bool,
                     room: bool, ghost was: State)
      returns (ok: bool)
      requires Accounted(was) && dst != src && lo <= p < hi && next == p + 1
      requires RangeFree(was, dst, lo, hi) && Filling(was, View(), dst, src, lo, p, writable, executable, false)
      modifies this
      ensures ok <==> room && (src, p) in was.ptes
      ensures ok ==> Filling(was, View(), dst, src, lo, next, writable, executable, false)
      ensures ok ==> refs.Keys == old(refs.Keys)
      ensures !ok ==> View() == was
    {
      ghost var before := View();
      FillingIs(was, before, dst, src, lo, p, writable, executable, false);
      NextPage(was, before, dst, src, lo, p, hi, writable, executable, false);
      ok := false;
      if (src, p) in ptes {
        ok := SharePage((dst, p), (src, p), writable, executable, room);
      }
      if ok {
        ShareStep(was, before, View(), dst, src, lo, p, next, writable, executable);
      } else {
        Abandon(dst, lo, p, was);
      }
    }

    /** The loop of vm_share_user_range, with its rollback. */
    method SharePages(dst: Sid, src: Sid, lo: int, hi: int, writable: bool, executable: bool, grants: nat)
      returns (ok: bool)
      requires Accounted(View()) && lo <= hi && dst != src && RangeFree(View(), dst, lo, hi)
      modifies this
      ensures Accounted(View())
      ensures ok ==> Filled(old(View()), View(), dst, src, lo, hi, writable, executable, false)
      ensures ok ==> Available() == old(Available())
      ensures !ok ==> View() == old(View())
      ensures ok <==> AllMapped(old(View()), src, lo, hi) && grants >= hi - lo
    {
      ghost var was := View();
      var p, left := lo, grants;
      FillingNothing(was, dst, src, lo, writable, executable, false);
      while p < hi
        invariant lo <= p <= hi && left == grants - (p - lo) && refs.Keys == old(refs.Keys)
        invariant Filling(was, View(), dst, src, lo, p, writable, executable, false)
      {
        var next := p + 1;
        ok := ShareNext(dst, src, lo, p, next, hi, writable, executable, left > 0, was);
        if !ok {
          return;
        }
        p, left := next, left - 1;
      }
      FillingIs(was, View(), dst, src, lo, hi, writable, executable, false);
      return true;
    }

    /** One page of vm_share_cow_user_range: both entries become read-only; the source stays so if mapping fails. */
    method ShareCowPage(dst: Slot, src: Slot, executable: bool, room: bool) returns (ok: bool)
      requires Backed(View()) && src in ptes && dst != src
      modifies this
      ensures ok <==> room
      ensures !ok ==> View() == Protect(old(View()), src, executable)
      ensures ok ==> View() == CowPair(old(View()), dst, src, executable)
    {
      var f := ptes[src].frame;
      refs := refs[f := refs[f] + 1];
      ptes := ptes[src := ptes[src].(writable := false, executable := executable)];
      if !room {
        FreeFrame(f);
        assert refs == old(refs);
        return false;
      }
      ptes := ptes[dst := Pte(f, false, executable)];
      return true;
    }

    /** Give up a copy-on-write share at page `p`: unmap what was mapped so far. */
    method AbandonCow(dst: Sid, src: Sid, lo: int, p: int, hi: int, executable: bool, ghost s: State, ghost t: State)
      requires Accounted(s) && Accounted(t) && lo <= p < hi && dst != src && RangeFree(s, dst, lo, hi)
      requires CowShared(s, t, dst, src, lo, p, executable)
      requires View() == t || ((src, p) in t.ptes && View() == Protect(t, (src, p), executable))
      modifies this
      ensures Undone(s, View(), dst, src, lo, hi)
    {
      CowPartial(s, t, View(), dst, src, lo, p, executable);
      ghost var partial := View();
      UnmapPages(dst, lo, p);
      CowRolledBack(s, partial, View(), dst, src, lo, p, hi);
    }

    /** One pass of vm_share_cow_user_range. */
    method ShareCowNext(dst: Sid, src: Sid, lo: int, p: int, next: int, hi: int, executable: bool, room: bool,
                        ghost was: State)
      returns (ok: bool)
      requires Accounted(was) && dst != src && lo <= p < hi && next == p + 1
      requires RangeFree(was, dst, lo, hi) && CowSharing(was, View(), dst, src, lo, p, executable)
      modifies this
      ensures ok <==> room && (src, p) in was.ptes
      ensures ok ==> CowSharing(was, View(), dst, src, lo, next, executable) && refs.Keys == old(refs.Keys)
      ensures !ok ==> Undone(was, View(), dst, src, lo, hi)
    {
      ghost var before := View();
      CowSharingIs(was, before, dst, src, lo, p, executable);
      CowNext(was, before, dst, src, lo, p, hi, executable);
      ok := false;
      if (src, p) in ptes {
        ok := ShareCowPage((dst, p), (src, p), executable, room);
      }
      if ok {
        CowStep(was, before, View(), dst, src, lo, p, next, executable);
      } else {
        AbandonCow(dst, src, lo, p, hi, executable, was, before);
      }
    }

    /** The loop of vm_share_cow_user_range, with its rollback. */
    method ShareCowPages(dst: Sid, src: Sid, lo: int, hi: int, executable: bool, grants: nat) returns (ok: bool)
      requires Accounted(View()) && lo <= hi && dst != src && RangeFree(View(), dst, lo, hi)
      modifies this
      ensures Accounted(View()) && (Exclusive(old(View())) ==> Exclusive(View()))
      ensures ok ==> CowShared(old(View()), View(), dst, src, lo, hi, executable) && Available() == old(Available())
      ensures ok <==> AllMapped(old(View()), src, lo, hi) && grants >= hi - lo
      ensures !ok ==> WriteProtected(old(View()), View(), src, lo, hi)
      ensures !ok ==> refs == old(refs) && mem == old(mem) && RangeFree(View(), dst, lo, hi)
    {
      ghost var was := View();
      var p, left := lo, grants;
      CowSharingNothing(was, dst, src, lo, executable);
      while p < hi
        invariant lo <= p <= hi && left == grants - (p - lo) && refs.Keys == old(refs.Keys)
        invariant CowSharing(was, View(), dst, src, lo, p, executable)
      {
        var next := p + 1;
        ok := ShareCowNext(dst, src, lo, p, next, hi, executable, left > 0, was);
        if !ok {
          UndoneIs(was, View(), dst, src, lo, hi);
          return;
        }
        p, left := next, left - 1;
      }
      CowSharingIs(was, View(), dst, src, lo, hi, executable);
      CowExclusive(was, View(), dst, src, lo, hi, executable);
      return true;
    }

    /**
    The loop of vm_protect_user_range: it stops at the first page that is not mapped, and
    what is done stays done.
    */
    method ProtectPages(x: Sid, lo: int, hi: int, writable: bool, executable: bool) returns (ok: bool, ghost done: int)
      requires lo <= hi
      modifies this`ptes
      ensures RightsSet(old(ptes), ptes, x, lo, done, writable, executable)
      ensures lo <= done <= hi && AllMapped(old(View()), x, lo, done)
      ensures ok <==> done == hi
      ensures !ok ==> (x, done) !in old(ptes)
    {
      ghost var was := View();
      var p := lo;
      done := lo;
      while p < hi
        invariant lo <= p <= hi && done == p
        invariant RightsSet(was.ptes, ptes, x, lo, p, writable, executable) && AllMapped(was, x, lo, p)
      {
        var k, next := (x, p), p + 1;
        if k !in ptes {
          return false, done;
        }
        RightsStep(was.ptes, ptes, x, lo, p, next, writable, executable);
        ptes := ptes[k := ptes[k].(writable := writable, executable := executable)];
        p, done := next, next;
      }
      return true, done;
    }

    /** vm_cow_user_page: copy the page into a new frame, map it writable, drop the old reference. */
    method CowPage(k: Slot, executable: bool, junk: Page, room: bool) returns (ok: bool, ghost f: Frame)
      requires Inv(View()) && |junk| == PAGE_SIZE
      modifies this
      ensures ok <==> k in old(ptes) && room && old(Available()) > 0
      ensures ok ==> f !in old(refs)
      ensures View() == if ok then Cow(old(View()), k, f, executable) else old(View())
    {
      ghost var was := View();
      f := 0;
      if k !in ptes {
        return false, f;
      }
      var oldFrame := ptes[k].frame;
      ok, f := AllocPage(k, true, executable, mem[oldFrame], junk, room);
      if !ok {
        return;
      }
      CowOrder(was, k, f, executable);
      FreeFrame(oldFrame);
    }

    /** vm_read_user, page by page. */
    method ReadUser(x: Sid, vaddr: u64, len: u64) returns (ok: bool, bytes: seq<bv8>)
      requires Inv(View())
      ensures ok <==> vaddr + len < U64 && forall a :: vaddr <= a < vaddr + len ==> ByteAt(View(), x, a).Some?
      ensures ok ==> |bytes| == len
      ensures ok ==> forall a :: vaddr <= a < vaddr + len ==> ByteAt(View(), x, a) == Some(bytes[a - vaddr])
    {
      bytes := [];
      if vaddr + len >= U64 {
        return false, bytes;
      }
      while |bytes| < len
        invariant |bytes| <= len
        invariant forall a :: vaddr <= a < vaddr + |bytes| ==> ByteAt(View(), x, a) == Some(bytes[a - vaddr])
        decreases len - |bytes|
      {
        var current := vaddr + |bytes|;
        var k, offset := (x, current / PAGE_SIZE), current % PAGE_SIZE;
        var remaining := PAGE_SIZE - offset;
        var chunk := if len - |bytes| < remaining then len - |bytes| else remaining;
        if k !in ptes {
          assert ByteAt(View(), x, current).None?;
          return false, bytes;
        }
        PageBytes(View(), x, current, chunk);
        bytes := bytes + mem[ptes[k].frame][offset..offset + chunk];
      }
      ok := true;
    }

    /** One chunk of vm_write_user, within a page. */
    method WriteChunk(x: Sid, current: nat, data: seq<bv8>)
      requires Inv(View()) && CanWrite(ptes, x, current) && current % PAGE_SIZE + |data| <= PAGE_SIZE
      modifies this`mem
      ensures Inv(View()) && BytesWritten(old(View()), View(), x, current, data)
      ensures forall a :: current <= a < current + |data| ==> CanWrite(ptes, x, a)
    {
      var f, offset := ptes[(x, current / PAGE_SIZE)].frame, current % PAGE_SIZE;
      StoredBytes(View(), x, current, |data|, data);
      mem := mem[f := mem[f][..offset] + data + mem[f][offset + |data|..]];
    }

    method WriteNext(x: Sid, vaddr: u64, src: seq<bv8>, n: nat, chunk: nat, ghost was: State)
      requires Inv(was) && Inv(View()) && n + chunk <= |src| && CanWrite(ptes, x, vaddr + n)
      requires (vaddr + n) % PAGE_SIZE + chunk <= PAGE_SIZE && BytesWritten(was, View(), x, vaddr, src[..n])
      modifies this`mem
      ensures Inv(View()) && BytesWritten(was, View(), x, vaddr, src[..n + chunk])
      ensures forall a :: vaddr + n <= a < vaddr + n + chunk ==> CanWrite(ptes, x, a)
    {
      ghost var before, done := View(), src[..n];
      var data := src[n..n + chunk];
      assert src[..n + chunk] == done + data;
      WriteChunk(x, vaddr + n, data);
      WrittenTrans(was, before, View(), x, vaddr, done, data, vaddr + n);
    }

    /** vm_write_user, page by page; bytes written before a page that cannot be written stay written. */
    method WriteUser(x: Sid, vaddr: u64, src: seq<bv8>) returns (ok: bool, ghost done: nat)
      requires Inv(View())
      modifies this`mem
      ensures Inv(View()) && done <= |src|
      ensures ok ==> done == |src|
      ensures !ok ==> if vaddr + |src| >= U64 then done == 0 else done < |src| && !CanWrite(ptes, x, vaddr + done)
      ensures forall a :: vaddr <= a < vaddr + done ==> CanWrite(ptes, x, a)
      ensures ok <==> vaddr + |src| < U64 && forall a :: vaddr <= a < vaddr + |src| ==> CanWrite(ptes, x, a)
      ensures BytesWritten(old(View()), View(), x, vaddr, src[..done])
    {
      done := 0;
      ghost var was := View();
      if vaddr + |src| >= U64 {
        return false, done;
      }
      var n := 0;
      NothingWritten(was, x, vaddr);
      assert src[..0] == [];
      while n < |src|
        invariant n <= |src| && done == n && Inv(View())
        invariant forall a :: vaddr <= a < vaddr + n ==> CanWrite(ptes, x, a)
        invariant BytesWritten(was, View(), x, vaddr, src[..n])
        decreases |src| - n
      {
        var current := vaddr + n;
        var k := (x, current / PAGE_SIZE);
        var remaining := PAGE_SIZE - current % PAGE_SIZE;
        var chunk := if |src| - n < remaining then |src| - n else remaining;
        if k !in ptes || !ptes[k].writable {
          assert !CanWrite(ptes, x, current);
          return false, done;
        }
        WriteNext(x, vaddr, src, n, chunk, was);
        n := n + chunk;
        done := n;
      }
      ok := true;
    }
  }

  /** `now` is `was` with the rights of the mapped pages `[lo, hi)` of `x` set as given. */
  ghost predicate RightsSet(was: map<Slot, Pte>, now: map<Slot, Pte>, x: Sid, lo: int, hi: int,
                            writable: bool, executable: bool)
  {
    && now.Keys == was.Keys
    && forall k :: k in was ==>
                     now[k] == if InRange(k, x, lo, hi) then Pte(was[k].frame, writable, executable) else was[k]
  }

  lemma RightsStep(was: map<Slot, Pte>, now: map<Slot, Pte>, x: Sid, lo: int, p: int, q: int,
                   writable: bool, executable: bool)
    requires lo <= p && q == p + 1 && (x, p) in now && RightsSet(was, now, x, lo, p, writable, executable)
    ensures RightsSet(was, now[(x, p) := Pte(now[(x, p)].frame, writable, executable)], x, lo, q, writable, executable)
  {
    var now' := now[(x, p) := Pte(now[(x, p)].frame, writable, executable)];
    assert now'.Keys == now.Keys;
    forall k | k in was
      ensures now'[k] == if InRange(k, x, lo, q) then Pte(was[k].frame, writable, executable) else was[k]
    {
      assert k != (x, p) ==> (InRange(k, x, lo, q) <==> InRange(k, x, lo, p));
    }
  }

  /**
  vm_protect_user_range is invisible, and it keeps writable frames unshared
  exactly if it makes no shared page writable.
  */
  lemma RightsExclusive(s: State, t: State, x: Sid, lo: int, hi: int, writable: bool, executable: bool)
    requires Inv(s) && t.refs == s.refs && t.mem == s.mem
    requires RightsSet(s.ptes, t.ptes, x, lo, hi, writable, executable)
    ensures Accounted(t) && AllSame(s, t)
    ensures Exclusive(t) <==>
            (writable ==> forall k :: k in s.ptes && InRange(k, x, lo, hi) ==> s.refs[s.ptes[k].frame] == 1)
  {
    forall k | k in s.ptes
      ensures k in t.ptes && t.ptes[k].frame == s.ptes[k].frame
      ensures t.ptes[k].writable == if InRange(k, x, lo, hi) then writable else s.ptes[k].writable
    {
    }
    forall f
      ensures Users(t.ptes, f) == Users(s.ptes, f)
    {
    }
  }

  /** `t` is `s` with `data` written at address `vaddr` of space `x`, and no other byte of any space changed. */
  ghost predicate BytesWritten(s: State, t: State, x: Sid, vaddr: int, data: seq<bv8>)
    requires Backed(s) && Backed(t)
  {
    forall y, a :: ByteWrittenAt(s, t, x, vaddr, data, y, a)
  }

  ghost predicate ByteWrittenAt(s: State, t: State, x: Sid, vaddr: int, data: seq<bv8>, y: Sid, a: int)
    requires Backed(s) && Backed(t)
  {
    ByteAt(t, y, a) == if y == x && vaddr <= a < vaddr + |data| then Some(data[a - vaddr]) else ByteAt(s, y, a)
  }

  lemma NothingWritten(s: State, x: Sid, vaddr: int)
    requires Backed(s)
    ensures BytesWritten(s, s, x, vaddr, [])
  {
  }

  lemma WrittenTrans(s: State, t: State, u: State, x: Sid, vaddr: int, first: seq<bv8>, second: seq<bv8>, next: int)
    requires Backed(s) && Backed(t) && Backed(u) && next == vaddr + |first|
    requires BytesWritten(s, t, x, vaddr, first) && BytesWritten(t, u, x, next, second)
    ensures BytesWritten(s, u, x, vaddr, first + second)
  {
    var both := first + second;
    forall y, a
      ensures ByteWrittenAt(s, u, x, vaddr, both, y, a)
    {
      assert ByteWrittenAt(s, t, x, vaddr, first, y, a) && ByteWrittenAt(t, u, x, next, second, y, a);
    }
  }

  ghost function ByteAt(s: State, x: Sid, a: int): Option<bv8>
    requires Backed(s)
  {
    if (x, a / PAGE_SIZE) in s.ptes then Some(s.mem[s.ptes[(x, a / PAGE_SIZE)].frame][a % PAGE_SIZE]) else None
  }

  predicate CanWrite(ptes: map<Slot, Pte>, x: Sid, a: int) {
    (x, a / PAGE_SIZE) in ptes && ptes[(x, a / PAGE_SIZE)].writable
  }

  /** Addresses that stay within a page share its number. */
  lemma SamePage(a: int, i: int)
    requires 0 <= a && 0 <= i && a % PAGE_SIZE + i < PAGE_SIZE
    ensures (a + i) / PAGE_SIZE == a / PAGE_SIZE && (a + i) % PAGE_SIZE == a % PAGE_SIZE + i
  {
  }

  lemma PageBytes(s: State, x: Sid, current: nat, chunk: nat)
    requires Backed(s) && (x, current / PAGE_SIZE) in s.ptes && current % PAGE_SIZE + chunk <= PAGE_SIZE
    ensures
      var page, offset := s.mem[s.ptes[(x, current / PAGE_SIZE)].frame], current % PAGE_SIZE;
      forall a :: current <= a < current + chunk ==>
        ByteAt(s, x, a) == Some(page[offset..offset + chunk][a - current])
  {
    forall a | current <= a < current + chunk
      ensures
        var page, offset := s.mem[s.ptes[(x, current / PAGE_SIZE)].frame], current % PAGE_SIZE;
        ByteAt(s, x, a) == Some(page[offset..offset + chunk][a - current])
    {
      SamePage(current, a - current);
    }
  }

  /** The page at address `current` with `data` written over it. */
  function Overwritten(s: State, x: Sid, current: nat, data: seq<bv8>): Page
    requires (x, current / PAGE_SIZE) in s.ptes && s.ptes[(x, current / PAGE_SIZE)].frame in s.mem
    requires |s.mem[s.ptes[(x, current / PAGE_SIZE)].frame]| == PAGE_SIZE
    requires current % PAGE_SIZE + |data| <= PAGE_SIZE
  {
    var page, offset := s.mem[s.ptes[(x, current / PAGE_SIZE)].frame], current % PAGE_SIZE;
    page[..offset] + data + page[offset + |data|..]
  }

  lemma StoredBytes(s: State, x: Sid, current: nat, chunk: nat, data: seq<bv8>)
    requires Inv(s) && CanWrite(s.ptes, x, current)
    requires chunk == |data| && current % PAGE_SIZE + chunk <= PAGE_SIZE
    ensures
      var s' := Store(s, (x, current / PAGE_SIZE), Overwritten(s, x, current, data));
      && Inv(s')
      && BytesWritten(s, s', x, current, data)
      && (forall a :: current <= a < current + chunk ==> CanWrite(s.ptes, x, a))
  {
    var k, page := (x, current / PAGE_SIZE), Overwritten(s, x, current, data);
    var s' := Store(s, k, page);
    StoreKeeps(s, k, page);
    forall a | current <= a < current + chunk
      ensures CanWrite(s.ptes, x, a)
    {
      SamePage(current, a - current);
    }
    forall y, a
      ensures ByteWrittenAt(s, s', x, current, data, y, a)
    {
      if y == x && current <= a < current + chunk {
        SamePage(current, a - current);
      } else if (y, a / PAGE_SIZE) != k {
        assert Sees(s', (y, a / PAGE_SIZE)) == Sees(s, (y, a / PAGE_SIZE));
      }
    }
  }

  /** Mapping the copy first and dropping the old reference last gives the same state as the other order. */
  lemma CowOrder(s: State, k: Slot, f: Frame, executable: bool)
    requires Inv(s) && k in s.ptes && f !in s.refs
    ensures Release(MapFresh(s, k, Pte(f, true, executable), s.mem[s.ptes[k].frame]), s.ptes[k].frame)
         == Cow(s, k, f, executable)
  {
    var g: Frame := s.ptes[k].frame;
    var e := Pte(f, true, executable);
    var first, cleared := MapFresh(s, k, e, s.mem[g]), s.(ptes := s.ptes - {k});
    assert first.ptes == cleared.ptes[k := e];
    if s.refs[g] > 1 {
      assert first.refs[g := s.refs[g] - 1] == s.refs[g := s.refs[g] - 1][f := 1];
    } else {
      assert first.refs - {g} == (s.refs - {g})[f := 1];
      assert first.mem - {g} == (s.mem - {g})[f := s.mem[g]];
    }
  }

  /** How slot `k` looks once pages `[lo, p)` of `src` are shared copy-on-write with `dst`. */
  ghost predicate CowAt(s: State, t: State, dst: Sid, src: Sid, lo: int, p: int, executable: bool, k: Slot)
    requires Backed(s) && Backed(t)
  {
    if InRange(k, dst, lo, p) then
      && (src, k.1) in s.ptes && Shows(t, k, false, executable, Sees(s, (src, k.1)))
      && t.ptes[k].frame == s.ptes[(src, k.1)].frame
    else if InRange(k, src, lo, p) then
      k in s.ptes && Shows(t, k, false, executable, Sees(s, k)) && t.ptes[k].frame == s.ptes[k].frame
    else SameAt(s, t, k)
  }

  ghost predicate CowShared(s: State, t: State, dst: Sid, src: Sid, lo: int, p: int, executable: bool)
    requires Backed(s) && Backed(t)
  {
    forall k :: CowAt(s, t, dst, src, lo, p, executable, k)
  }

  /** The same with the accounting, as the loop of vm_share_cow_user_range keeps it. */
  ghost predicate CowSharing(s: State, t: State, dst: Sid, src: Sid, lo: int, p: int, executable: bool) {
    forall k :: CowSharingAt(s, t, dst, src, lo, p, executable, k)
  }

  ghost predicate CowSharingAt(s: State, t: State, dst: Sid, src: Sid, lo: int, p: int, executable: bool, k: Slot) {
    Backed(s) && Accounted(t) && CowAt(s, t, dst, src, lo, p, executable, k)
  }

  lemma CowSharingIs(s: State, t: State, dst: Sid, src: Sid, lo: int, p: int, executable: bool)
    requires CowSharing(s, t, dst, src, lo, p, executable) && dst != src
    ensures Backed(s) && Accounted(t) && CowShared(s, t, dst, src, lo, p, executable) && AllMapped(s, src, lo, p)
  {
    assert CowSharingAt(s, t, dst, src, lo, p, executable, (dst, lo));
    forall k
      ensures CowAt(s, t, dst, src, lo, p, executable, k)
    {
      assert CowSharingAt(s, t, dst, src, lo, p, executable, k);
    }
    forall q | lo <= q < p
      ensures (src, q) in s.ptes
    {
      assert CowAt(s, t, dst, src, lo, p, executable, (src, q));
    }
  }

  lemma CowSharingNothing(s: State, dst: Sid, src: Sid, lo: int, executable: bool)
    requires Accounted(s)
    ensures CowSharing(s, s, dst, src, lo, lo, executable)
  {
  }

  /** A copy-on-write share that failed: nothing is mapped, but pages of the source may have become read-only. */
  ghost predicate Undone(s: State, t: State, dst: Sid, src: Sid, lo: int, hi: int) {
    forall k :: UndoneAt(s, t, dst, src, lo, hi, k)
  }

  ghost predicate UndoneAt(s: State, t: State, dst: Sid, src: Sid, lo: int, hi: int, k: Slot) {
    && Backed(s) && Accounted(t) && t.refs == s.refs && t.mem == s.mem
    && ProtectedAt(s, t, src, lo, hi, k) && (InRange(k, dst, lo, hi) ==> k !in t.ptes)
  }

  lemma UndoneIs(s: State, t: State, dst: Sid, src: Sid, lo: int, hi: int)
    requires Undone(s, t, dst, src, lo, hi)
    ensures Backed(s) && Accounted(t) && t.refs == s.refs && t.mem == s.mem
    ensures WriteProtected(s, t, src, lo, hi) && RangeFree(t, dst, lo, hi)
    ensures Exclusive(s) ==> Exclusive(t)
  {
    assert UndoneAt(s, t, dst, src, lo, hi, (dst, lo));
    forall k
      ensures ProtectedAt(s, t, src, lo, hi, k)
      ensures InRange(k, dst, lo, hi) ==> k !in t.ptes
    {
      assert UndoneAt(s, t, dst, src, lo, hi, k);
    }
  }

  /** Slot `k` still maps the same frame and shows the same page; only rights may differ, and only in the range. */
  ghost predicate ProtectedAt(s: State, t: State, x: Sid, lo: int, hi: int, k: Slot)
    requires Backed(s) && Backed(t)
  {
    && (k in t.ptes <==> k in s.ptes)
    && (k in s.ptes ==> t.ptes[k].frame == s.ptes[k].frame && (t.ptes[k].writable ==> s.ptes[k].writable))
    && Sees(t, k) == Sees(s, k)
    && (!InRange(k, x, lo, hi) ==> SameAt(s, t, k))
  }

  ghost predicate WriteProtected(s: State, t: State, x: Sid, lo: int, hi: int)
    requires Backed(s) && Backed(t)
  {
    forall k :: ProtectedAt(s, t, x, lo, hi, k)
  }

  /** The next page is not shared yet. */
  lemma CowNext(s: State, t: State, dst: Sid, src: Sid, lo: int, p: int, hi: int, executable: bool)
    requires Backed(s) && Backed(t) && dst != src && lo <= p < hi
    requires CowShared(s, t, dst, src, lo, p, executable) && RangeFree(s, dst, lo, hi)
    ensures (dst, p) !in t.ptes && ((src, p) in t.ptes <==> (src, p) in s.ptes)
  {
    assert CowAt(s, t, dst, src, lo, p, executable, (dst, p));
    assert CowAt(s, t, dst, src, lo, p, executable, (src, p));
    assert InRange((dst, p), dst, lo, hi);
  }

  lemma CowStepAt(s: State, t: State, t': State, dst: Sid, src: Sid, lo: int, p: int, executable: bool, k: Slot)
    requires Backed(s) && Backed(t) && Backed(t') && dst != src && lo <= p
    requires CowAt(s, t, dst, src, lo, p, executable, k) && CowAt(s, t, dst, src, lo, p, executable, (src, p))
    requires (src, p) in t.ptes
    requires k != (dst, p) && k != (src, p) ==> SameAt(t, t', k)
    requires Shows(t', (dst, p), false, executable, Sees(t, (src, p)))
    requires Shows(t', (src, p), false, executable, Sees(t, (src, p)))
    requires t'.ptes[(src, p)].frame == t'.ptes[(dst, p)].frame == t.ptes[(src, p)].frame
    ensures CowAt(s, t', dst, src, lo, p + 1, executable, k)
  {
  }

  function CowPair(t: State, dst: Slot, src: Slot, executable: bool): State
    requires src in t.ptes && t.ptes[src].frame in t.refs
  {
    MapShared(Protect(t, src, executable), dst, Pte(t.ptes[src].frame, false, executable))
  }

  lemma CowPairEffect(t: State, dst: Slot, src: Slot, executable: bool)
    requires Accounted(t) && dst != src && src in t.ptes && dst !in t.ptes
    ensures
      var t' := CowPair(t, dst, src, executable);
      && Accounted(t') && (Exclusive(t) ==> Exclusive(t'))
      && Shows(t', dst, false, executable, Sees(t, src))
      && Shows(t', src, false, executable, Sees(t, src))
      && t'.ptes[src].frame == t'.ptes[dst].frame == t.ptes[src].frame
      && forall k :: k != dst && k != src ==> SameAt(t, t', k)
  {
    CowPairSeen(t, dst, src, executable);
    if Exclusive(t) {
      CowPairExclusive(t, dst, src, executable);
    }
  }

  lemma CowPairSeen(t: State, dst: Slot, src: Slot, executable: bool)
    requires Accounted(t) && dst != src && src in t.ptes && dst !in t.ptes
    ensures
      var t' := CowPair(t, dst, src, executable);
      && Accounted(t')
      && Shows(t', dst, false, executable, Sees(t, src))
      && Shows(t', src, false, executable, Sees(t, src))
      && forall k :: k != dst && k != src ==> SameAt(t, t', k)
  {
    var u, e := Protect(t, src, executable), Pte(t.ptes[src].frame, false, executable);
    var t' := MapShared(u, dst, e);
    SetRightsKeeps(t, src, false, executable);
    MapSharedSeen(u, dst, e);
    assert Sees(u, src) == Sees(t, src) && SameAt(u, t', src);
    forall k | k != dst && k != src
      ensures SameAt(t, t', k)
    {
      assert SameAt(u, t', k) && Sees(u, k) == Sees(t, k);
    }
  }

  lemma CowPairExclusive(t: State, dst: Slot, src: Slot, executable: bool)
    requires Inv(t) && dst != src && src in t.ptes && dst !in t.ptes
    ensures Inv(CowPair(t, dst, src, executable))
  {
    ProtectKeeps(t, src, executable);
    MapSharedKeeps(Protect(t, src, executable), dst, Pte(t.ptes[src].frame, false, executable));
  }

  lemma CowStep(s: State, t: State, t': State, dst: Sid, src: Sid, lo: int, p: int, q: int, executable: bool)
    requires Accounted(s) && Accounted(t) && dst != src && lo <= p && q == p + 1
    requires CowShared(s, t, dst, src, lo, p, executable)
    requires (src, p) in t.ptes && (dst, p) !in t.ptes
    requires t' == CowPair(t, (dst, p), (src, p), executable)
    ensures CowSharing(s, t', dst, src, lo, q, executable)
  {
    CowPairEffect(t, (dst, p), (src, p), executable);
    forall k: Slot
      ensures CowSharingAt(s, t', dst, src, lo, q, executable, k)
    {
      assert CowAt(s, t, dst, src, lo, p, executable, k) && CowAt(s, t, dst, src, lo, p, executable, (src, p));
      CowStepAt(s, t, t', dst, src, lo, p, executable, k);
    }
  }

  /** Sharing copy-on-write keeps writable frames unshared. */
  lemma CowExclusive(s: State, t: State, dst: Sid, src: Sid, lo: int, hi: int, executable: bool)
    requires Accounted(s) && Accounted(t) && dst != src && CowShared(s, t, dst, src, lo, hi, executable)
    ensures Exclusive(s) ==> Exclusive(t)
  {
    if Exclusive(s) {
      forall k | k in t.ptes && t.ptes[k].writable
        ensures t.refs[t.ptes[k].frame] == 1
      {
        CowAlone(s, t, dst, src, lo, hi, executable, k);
      }
    }
  }

  lemma CowAlone(s: State, t: State, dst: Sid, src: Sid, lo: int, hi: int, executable: bool, k: Slot)
    requires Inv(s) && Accounted(t) && dst != src && CowShared(s, t, dst, src, lo, hi, executable)
    requires k in t.ptes && t.ptes[k].writable
    ensures t.refs[t.ptes[k].frame] == 1
  {
    assert CowAt(s, t, dst, src, lo, hi, executable, k);
    SoleUser(s, k);
    forall l | l in t.ptes && t.ptes[l].frame == t.ptes[k].frame
      ensures l == k
    {
      assert CowAt(s, t, dst, src, lo, hi, executable, l);
    }
    assert Users(t.ptes, t.ptes[k].frame) == {k};
  }

  /** The state in which a copy-on-write share gives up, before the rollback. */
  lemma CowPartial(s: State, t: State, u: State, dst: Sid, src: Sid, lo: int, p: int, executable: bool)
    requires Accounted(s) && Accounted(t) && dst != src && lo <= p && CowShared(s, t, dst, src, lo, p, executable)
    requires u == t || ((src, p) in t.ptes && u == Protect(t, (src, p), executable))
    ensures Accounted(u)
    ensures forall k :: !InRange(k, dst, lo, p) ==> ProtectedAt(s, u, src, lo, p + 1, k)
  {
    if u != t {
      SetRightsKeeps(t, (src, p), false, executable);
    }
    forall k | !InRange(k, dst, lo, p)
      ensures ProtectedAt(s, u, src, lo, p + 1, k)
    {
      assert CowAt(s, t, dst, src, lo, p, executable, k);
      assert Sees(u, k) == Sees(t, k);
      CowPartialAt(s, t, u, dst, src, lo, p, executable, k);
    }
  }

  lemma CowPartialAt(s: State, t: State, u: State, dst: Sid, src: Sid, lo: int, p: int, executable: bool, k: Slot)
    requires Backed(s) && Backed(t) && Backed(u) && lo <= p && !InRange(k, dst, lo, p)
    requires CowAt(s, t, dst, src, lo, p, executable, k) && Sees(u, k) == Sees(t, k)
    requires k in u.ptes <==> k in t.ptes
    requires k in t.ptes ==>
               u.ptes[k] == t.ptes[k] || (k == (src, p) && u.ptes[k] == Pte(t.ptes[k].frame, false, executable))
    ensures ProtectedAt(s, u, src, lo, p + 1, k)
  {
  }

  lemma CowRolledBack(s: State, t: State, u: State, dst: Sid, src: Sid, lo: int, p: int, hi: int)
    requires Accounted(s) && Accounted(t) && Accounted(u) && dst != src && lo <= p < hi && RangeFree(s, dst, lo, hi)
    requires forall k :: !InRange(k, dst, lo, p) ==> ProtectedAt(s, t, src, lo, p + 1, k)
    requires RangeFree(u, dst, lo, p) && SameOutside(t, u, dst, lo, p)
    ensures Undone(s, u, dst, src, lo, hi)
  {
    forall k
      ensures ProtectedAt(s, u, src, lo, hi, k)
    {
      if InRange(k, dst, lo, p) {
        assert InRange(k, dst, lo, hi);
      } else {
        assert ProtectedAt(s, t, src, lo, p + 1, k) && SameAt(t, u, k);
      }
    }
    ProtectedIsDetermined(s, u, src, lo, hi);
    forall k
      ensures UndoneAt(s, u, dst, src, lo, hi, k)
    {
      assert ProtectedAt(s, u, src, lo, hi, k);
    }
  }

  lemma ProtectedIsDetermined(s: State, u: State, x: Sid, lo: int, hi: int)
    requires Accounted(s) && Accounted(u) && WriteProtected(s, u, x, lo, hi)
    ensures u.refs == s.refs && u.mem == s.mem && u.ptes.Keys == s.ptes.Keys
  {
    forall k
      ensures k in u.ptes <==> k in s.ptes
      ensures k in s.ptes ==> u.ptes[k].frame == s.ptes[k].frame
      ensures Sees(u, k) == Sees(s, k)
    {
      assert ProtectedAt(s, u, x, lo, hi, k);
    }
    assert u.ptes.Keys == s.ptes.Keys;
    Determined(s, u);
  }

  ghost predicate AllMapped(s: State, x: Sid, lo: int, hi: int) {
    forall p :: lo <= p < hi ==> (x, p) in s.ptes
  }

  ghost predicate NoneWritable(s: State, x: Sid, lo: int, hi: int) {
    forall k :: InRange(k, x, lo, hi) && k in s.ptes ==> !s.ptes[k].writable
  }

  /** Slot `k` of `t` maps a frame that was not in use in `s`, and nothing else maps it. */
  ghost predicate OwnFrame(s: State, t: State, k: Slot) {
    k in t.ptes && t.ptes[k].frame !in s.refs && t.ptes[k].frame in t.refs && t.refs[t.ptes[k].frame] == 1
  }

  /**
  How slot `k` looks once pages `[lo, hi)` of `dst` show what those of `src`
  showed: in frames of their own, or in the very same frames.
  */
  ghost predicate FilledAt(s: State, t: State, dst: Sid, src: Sid, lo: int, hi: int, writable: bool, executable: bool,
                           own: bool, k: Slot)
    requires Backed(s) && Backed(t)
  {
    if InRange(k, dst, lo, hi) then
      && (src, k.1) in s.ptes && Shows(t, k, writable, executable, Sees(s, (src, k.1)))
      && (if own then OwnFrame(s, t, k) else t.ptes[k].frame == s.ptes[(src, k.1)].frame)
    else SameAt(s, t, k)
  }

  ghost predicate Filled(s: State, t: State, dst: Sid, src: Sid, lo: int, hi: int, writable: bool, executable: bool,
                         own: bool)
    requires Backed(s) && Backed(t)
  {
    forall k :: FilledAt(s, t, dst, src, lo, hi, writable, executable, own, k)
  }

  /** The same with the accounting, as the loops of vm_clone_user_range and vm_share_user_range keep it. */
  ghost predicate Filling(s: State, t: State, dst: Sid, src: Sid, lo: int, hi: int, writable: bool, executable: bool,
                          own: bool)
  {
    forall k :: FillingAt(s, t, dst, src, lo, hi, writable, executable, own, k)
  }

  ghost predicate FillingAt(s: State, t: State, dst: Sid, src: Sid, lo: int, hi: int, writable: bool, executable: bool,
                            own: bool, k: Slot)
  {
    Backed(s) && Accounted(t) && FilledAt(s, t, dst, src, lo, hi, writable, executable, own, k)
  }

  lemma FillingIs(s: State, t: State, dst: Sid, src: Sid, lo: int, hi: int, writable: bool, executable: bool, own: bool)
    requires Filling(s, t, dst, src, lo, hi, writable, executable, own)
    ensures Backed(s) && Accounted(t) && Filled(s, t, dst, src, lo, hi, writable, executable, own)
    ensures AllMapped(s, src, lo, hi)
  {
    assert FillingAt(s, t, dst, src, lo, hi, writable, executable, own, (dst, lo));
    forall k
      ensures FilledAt(s, t, dst, src, lo, hi, writable, executable, own, k)
    {
      assert FillingAt(s, t, dst, src, lo, hi, writable, executable, own, k);
    }
    forall p | lo <= p < hi
      ensures (src, p) in s.ptes
    {
      assert FilledAt(s, t, dst, src, lo, hi, writable, executable, own, (dst, p));
    }
  }

  lemma FillingNothing(s: State, dst: Sid, src: Sid, lo: int, writable: bool, executable: bool, own: bool)
    requires Accounted(s)
    ensures Filling(s, s, dst, src, lo, lo, writable, executable, own)
  {
  }

  /** The next page is not mapped in `dst` yet, and is in `src` as it was. */
  lemma NextPage(s: State, t: State, dst: Sid, src: Sid, lo: int, p: int, hi: int, writable: bool, executable: bool,
                 own: bool)
    requires Backed(s) && Backed(t) && dst != src && lo <= p < hi && RangeFree(s, dst, lo, hi)
    requires Filled(s, t, dst, src, lo, p, writable, executable, own)
    ensures (dst, p) !in t.ptes && SameAt(s, t, (src, p)) && RangeFree(s, dst, lo, p) && SameOutside(s, t, dst, lo, p)
  {
    assert InRange((dst, p), dst, lo, hi) && FilledAt(s, t, dst, src, lo, p, writable, executable, own, (dst, p));
    assert FilledAt(s, t, dst, src, lo, p, writable, executable, own, (src, p));
    forall k: Slot
      ensures InRange(k, dst, lo, p) ==> k !in s.ptes
      ensures !InRange(k, dst, lo, p) ==> SameAt(s, t, k)
    {
      assert InRange(k, dst, lo, p) ==> InRange(k, dst, lo, hi);
      assert FilledAt(s, t, dst, src, lo, p, writable, executable, own, k);
    }
  }

  /** Frames in use stay in use while a free range is filled. */
  lemma FramesKept(s: State, t: State, x: Sid, lo: int, hi: int)
    requires Accounted(s) && Backed(t) && RangeFree(s, x, lo, hi) && SameOutside(s, t, x, lo, hi)
    ensures s.refs.Keys <= t.refs.Keys
  {
    forall f | f in s.refs
      ensures f in t.refs
    {
      HasUser(s, f);
      var k :| k in Users(s.ptes, f);
      assert SameAt(s, t, k);
    }
  }

  /** One more page. */
  lemma FillStep(s: State, t: State, t': State, dst: Sid, src: Sid, lo: int, p: int, q: int, writable: bool,
                 executable: bool, own: bool)
    requires Backed(s) && Backed(t) && Accounted(t') && lo <= p && q == p + 1
    requires Filled(s, t, dst, src, lo, p, writable, executable, own)
    requires (src, p) in s.ptes && SameOutside(t, t', dst, p, q)
    requires FilledAt(s, t', dst, src, lo, q, writable, executable, own, (dst, p))
    requires own ==> forall f :: f in t.refs ==> f in t'.refs && t'.refs[f] == t.refs[f]
    ensures Filling(s, t', dst, src, lo, q, writable, executable, own)
  {
    forall k
      ensures FillingAt(s, t', dst, src, lo, q, writable, executable, own, k)
    {
      if k != (dst, p) {
        assert !InRange(k, dst, p, q);
        assert SameAt(t, t', k) && FilledAt(s, t, dst, src, lo, p, writable, executable, own, k);
      }
    }
  }

  lemma CloneStep(s: State, t: State, t': State, dst: Sid, src: Sid, lo: int, p: int, q: int, e: Pte)
    requires Backed(s) && Accounted(t) && lo <= p && q == p + 1 && s.refs.Keys <= t.refs.Keys
    requires Filled(s, t, dst, src, lo, p, e.writable, e.executable, true)
    requires (src, p) in t.ptes && SameAt(s, t, (src, p)) && (dst, p) !in t.ptes && e.frame !in t.refs
    requires t' == MapFresh(t, (dst, p), e, t.mem[t.ptes[(src, p)].frame])
    ensures Filling(s, t', dst, src, lo, q, e.writable, e.executable, true)
  {
    MapFreshStep(t, dst, p, e, t.mem[t.ptes[(src, p)].frame]);
    FillStep(s, t, t', dst, src, lo, p, q, e.writable, e.executable, true);
  }

  lemma ShareStep(s: State, t: State, t': State, dst: Sid, src: Sid, lo: int, p: int, q: int, writable: bool,
                  executable: bool)
    requires Backed(s) && Accounted(t) && lo <= p && q == p + 1
    requires Filled(s, t, dst, src, lo, p, writable, executable, false)
    requires (src, p) in t.ptes && SameAt(s, t, (src, p)) && (dst, p) !in t.ptes
    requires t' == MapShared(t, (dst, p), Pte(t.ptes[(src, p)].frame, writable, executable))
    ensures Filling(s, t', dst, src, lo, q, writable, executable, false)
  {
    MapSharedStep(t, dst, p, Pte(t.ptes[(src, p)].frame, writable, executable));
    FillStep(s, t, t', dst, src, lo, p, q, writable, executable, false);
  }

  /** Copying pages into frames of their own keeps writable frames unshared. */
  lemma CopiesExclusive(s: State, t: State, dst: Sid, src: Sid, lo: int, hi: int, writable: bool, executable: bool)
    requires Accounted(s) && Accounted(t) && Filled(s, t, dst, src, lo, hi, writable, executable, true)
    ensures Exclusive(s) ==> Exclusive(t)
  {
    if Exclusive(s) {
      forall k | k in t.ptes && t.ptes[k].writable
        ensures t.refs[t.ptes[k].frame] == 1
      {
        assert FilledAt(s, t, dst, src, lo, hi, writable, executable, true, k);
        if !InRange(k, dst, lo, hi) {
          CopyAlone(s, t, dst, src, lo, hi, writable, executable, k);
        }
      }
    }
  }

  lemma CopyAlone(s: State, t: State, dst: Sid, src: Sid, lo: int, hi: int, writable: bool, executable: bool, k: Slot)
    requires Inv(s) && Accounted(t) && Filled(s, t, dst, src, lo, hi, writable, executable, true)
    requires k in t.ptes && t.ptes[k].writable && !InRange(k, dst, lo, hi)
    ensures t.refs[t.ptes[k].frame] == 1
  {
    assert FilledAt(s, t, dst, src, lo, hi, writable, executable, true, k);
    SoleUser(s, k);
    forall l | l in t.ptes && t.ptes[l].frame == t.ptes[k].frame
      ensures l == k
    {
      assert FilledAt(s, t, dst, src, lo, hi, writable, executable, true, l);
    }
    assert Users(t.ptes, t.ptes[k].frame) == {k};
  }

  /** A frame behind an entry that cannot be written cannot be written through any entry. */
  lemma ReadOnlyEntry(s: State, k: Slot)
    requires Inv(s) && k in s.ptes && !s.ptes[k].writable
    ensures ReadOnlyFrame(s, s.ptes[k].frame)
  {
    forall l | l in s.ptes && s.ptes[l].frame == s.ptes[k].frame
      ensures !s.ptes[l].writable
    {
      if s.ptes[l].writable {
        SoleUser(s, l);
      }
    }
  }

  lemma MapSharedSeen(s: State, k: Slot, e: Pte)
    requires Accounted(s) && k !in s.ptes && e.frame in s.refs
    ensures Accounted(MapShared(s, k, e))
    ensures forall l :: l != k ==> SameAt(s, MapShared(s, k, e), l)
    ensures Shows(MapShared(s, k, e), k, e.writable, e.executable, Some(s.mem[e.frame]))
  {
    MapSharedCounted(s, k, e);
  }

  lemma MapSharedStep(s: State, x: Sid, p: int, e: Pte)
    requires Accounted(s) && (x, p) !in s.ptes && e.frame in s.refs
    ensures Accounted(MapShared(s, (x, p), e))
    ensures SameOutside(s, MapShared(s, (x, p), e), x, p, p + 1)
    ensures Shows(MapShared(s, (x, p), e), (x, p), e.writable, e.executable, Some(s.mem[e.frame]))
  {
    MapSharedSeen(s, (x, p), e);
  }

  /** A frame that two slots map is not writable through either, if writable frames are unshared. */
  lemma SharedIsReadOnly(t: State, k: Slot, l: Slot)
    requires Inv(t) && k in t.ptes && l in t.ptes && k != l && t.ptes[k].frame == t.ptes[l].frame
    ensures !t.ptes[k].writable && !t.ptes[l].writable
  {
    TwoUsers(Users(t.ptes, t.ptes[k].frame), k, l);
  }

  /** With only read-only entries added to read-only entries, a writable entry is still alone. */
  lemma StillAlone(s: State, t: State, dst: Sid, src: Sid, lo: int, hi: int, executable: bool, k: Slot)
    requires Inv(s) && Accounted(t) && dst != src && NoneWritable(s, src, lo, hi)
    requires Filled(s, t, dst, src, lo, hi, false, executable, false)
    requires k in t.ptes && t.ptes[k].writable
    ensures t.refs[t.ptes[k].frame] == 1
  {
    assert FilledAt(s, t, dst, src, lo, hi, false, executable, false, k);
    SoleUser(s, k);
    forall l | l in t.ptes && t.ptes[l].frame == t.ptes[k].frame
      ensures l == k
    {
      assert FilledAt(s, t, dst, src, lo, hi, false, executable, false, l);
      assert lo <= l.1 < hi ==> InRange((src, l.1), src, lo, hi);
    }
    assert Users(t.ptes, t.ptes[k].frame) == {k};
  }

  lemma SharedNotWritable(s: State, t: State, dst: Sid, src: Sid, lo: int, hi: int, writable: bool, executable: bool,
                          p: int)
    requires Backed(s) && Inv(t) && dst != src && lo <= p < hi
    requires Filled(s, t, dst, src, lo, hi, writable, executable, false)
    ensures !writable && ((src, p) in s.ptes ==> !s.ptes[(src, p)].writable)
  {
    assert FilledAt(s, t, dst, src, lo, hi, writable, executable, false, (dst, p));
    assert FilledAt(s, t, dst, src, lo, hi, writable, executable, false, (src, p));
    SharedIsReadOnly(t, (src, p), (dst, p));
  }

  /**
  Sharing pages keeps writable frames unshared exactly if neither the new entries
  nor the entries they share with are writable.
  */
  lemma SharingExclusive(s: State, t: State, dst: Sid, src: Sid, lo: int, hi: int, writable: bool, executable: bool)
    requires Inv(s) && Accounted(t) && dst != src && lo < hi
    requires Filled(s, t, dst, src, lo, hi, writable, executable, false)
    ensures Exclusive(t) <==> !writable && NoneWritable(s, src, lo, hi)
  {
    if Exclusive(t) {
      SharedNotWritable(s, t, dst, src, lo, hi, writable, executable, lo);
      forall k | InRange(k, src, lo, hi) && k in s.ptes
        ensures !s.ptes[k].writable
      {
        SharedNotWritable(s, t, dst, src, lo, hi, writable, executable, k.1);
      }
    } else if !writable && NoneWritable(s, src, lo, hi) {
      var k :| k in t.ptes && t.ptes[k].writable && t.refs[t.ptes[k].frame] != 1;
      StillAlone(s, t, dst, src, lo, hi, executable, k);
    }
  }

  lemma KeepFree(s: State, s': State, x: Sid, lo: int, p: int)
    requires Backed(s) && Backed(s') && RangeFree(s, x, lo, p) && lo <= p
    requires SameOutside(s, s', x, p, p + 1) && RangeFree(s', x, p, p + 1)
    ensures RangeFree(s', x, lo, p + 1)
  {
    forall k | InRange(k, x, lo, p + 1)
      ensures k !in s'.ptes
    {
      if k.1 < p {
        assert SameAt(s, s', k);
      }
    }
  }

  lemma KeepZeroed(s: State, s': State, x: Sid, lo: int, p: int, writable: bool, executable: bool)
    requires Backed(s) && Backed(s') && Zeroed(s, x, lo, p, writable, executable)
    requires SameOutside(s, s', x, p, p + 1) && Shows(s', (x, p), writable, executable, Some(ZeroPage()))
    ensures Zeroed(s', x, lo, p + 1, writable, executable)
  {
    forall q | lo <= q < p + 1
      ensures Shows(s', (x, q), writable, executable, Some(ZeroPage()))
    {
      if q < p {
        assert SameAt(s, s', (x, q)) && Shows(s, (x, q), writable, executable, Some(ZeroPage()));
      }
    }
  }

  lemma SameOutsideBoth(s: State, t: State, u: State, x: Sid, lo: int, hi: int)
    requires Backed(s) && Backed(t) && Backed(u)
    requires SameOutside(s, t, x, lo, hi) && SameOutside(t, u, x, lo, hi)
    ensures SameOutside(s, u, x, lo, hi)
  {
    forall k | !InRange(k, x, lo, hi)
      ensures SameAt(s, u, k)
    {
      assert SameAt(s, t, k) && SameAt(t, u, k);
    }
  }
}
