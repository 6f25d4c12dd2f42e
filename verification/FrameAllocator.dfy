/**
The physical page allocator (kernel/pmm.c): an array of page descriptors with
an intrusive list of the free ones.

The ghost sequence `list` is the free list as positions in the array.  The
theorems tie the list, the free flags and the counter together through every
operation, say which pages are free after start-up, and say exactly when a
contiguous allocation is refused.
*/
module FrameAllocators {
  import opened Common

  datatype Info = Info(addr: nat, isFree: bool, refs: nat, next: int)

  // ----- the free list

  /** Position `k` of the list, -1 past its end. */
  function Nth(list: seq<int>, k: nat): int {
    if k < |list| then list[k] else -1
  }

  ghost predicate Linked(ps: seq<Info>, list: seq<int>, k: nat)
    requires k < |list|
  {
    0 <= list[k] < |ps| && ps[list[k]].next == Nth(list, k + 1)
  }

  ghost predicate Chained(ps: seq<Info>, head: int, list: seq<int>) {
    && head == Nth(list, 0)
    && Distinct(list)
    && forall k :: 0 <= k < |list| ==> Linked(ps, list, k)
  }

  /** The free pages are the pages on the list, and have no references. */
  ghost predicate Flagged(ps: seq<Info>, list: seq<int>) {
    forall i :: 0 <= i < |ps| ==> (ps[i].isFree <==> i in list) && (ps[i].isFree ==> ps[i].refs == 0)
  }

  ghost predicate Addressed(ps: seq<Info>) {
    forall i, j :: 0 <= i < j < |ps| ==> ps[i].addr != ps[j].addr
  }

  lemma PushChained(ps: seq<Info>, head: int, list: seq<int>, i: int, info: Info)
    requires Chained(ps, head, list) && 0 <= i < |ps| && i !in list && info.next == head
    ensures Chained(ps[i := info], i, [i] + list)
  {
    var ps', list' := ps[i := info], [i] + list;
    forall k | 0 <= k < |list'|
      ensures Linked(ps', list', k)
    {
      if k > 0 {
        assert Linked(ps, list, k - 1);
      }
    }
  }

  lemma PopChained(ps: seq<Info>, head: int, list: seq<int>, info: Info)
    requires Chained(ps, head, list) && list != []
    ensures Linked(ps, list, 0) && Chained(ps[head := info], ps[head].next, list[1..])
  {
    assert Linked(ps, list, 0);
    var ps', list' := ps[head := info], list[1..];
    forall k | 0 <= k < |list'|
      ensures Linked(ps', list', k)
    {
      assert Linked(ps, list, k + 1) && list[k + 1] != list[0];
    }
  }

  lemma HeadIs(ps: seq<Info>, head: int, list: seq<int>)
    requires Chained(ps, head, list)
    ensures head == -1 <==> list == []
    ensures list != [] ==> 0 <= head < |ps| && head in list
  {
    if list != [] {
      assert Linked(ps, list, 0) && list[0] in list;
    }
  }

  /** Unlinking the page at position `k > 0` through the descriptor before it. */
  lemma UnlinkChained(ps: seq<Info>, head: int, list: seq<int>, k: nat, ps': seq<Info>)
    requires Chained(ps, head, list) && 0 < k < |list| && |ps'| == |ps|
    requires Linked(ps, list, k) && Linked(ps, list, k - 1)
    requires ps'[list[k - 1]].next == ps[list[k]].next
    requires forall i :: 0 <= i < |ps| && i != list[k] && i != list[k - 1] ==> ps'[i] == ps[i]
    ensures Chained(ps', head, RemoveAt(list, k))
  {
    var list' := RemoveAt(list, k);
    forall j | 0 <= j < |list'|
      ensures Linked(ps', list', j)
    {
      var i := if j < k then j else j + 1;
      assert Linked(ps, list, i) && list'[j] == list[i] && list[i] != list[k];
      if j != k - 1 {
        assert list[i] != list[k - 1];
      }
    }
  }

  lemma RemovedMembers(list: seq<int>, k: nat)
    requires Distinct(list) && k < |list|
    ensures forall i :: i in RemoveAt(list, k) <==> i in list && i != list[k]
    ensures Distinct(RemoveAt(list, k))
  {
    var list' := RemoveAt(list, k);
    forall i | i in list && i != list[k]
      ensures i in list'
    {
      var j :| 0 <= j < |list| && list[j] == i;
      assert list'[if j < k then j else j - 1] == i;
    }
    assert list[k] !in list[..k] && list[k] !in list[k + 1..];
  }

  class FrameAllocator {
    const pages: array<Info>
    var head: int
    var count: nat
    ghost var list: seq<int>

    /** The list, the free flags and the counter agree. */
    ghost predicate Consistent()
      reads this, pages
    {
      && Chained(pages[..], head, list)
      && Flagged(pages[..], list)
      && count == |list|
    }

    /** ... and no page has two descriptors. */
    ghost predicate Valid()
      reads this, pages
    {
      Consistent() && Addressed(pages[..])
    }

    /** add_available_page for all pages, in order. */
    constructor (addrs: seq<nat>)
      ensures Consistent() && fresh(pages) && pages.Length == |addrs|
      ensures forall i :: 0 <= i < |addrs| ==> pages[i].addr == addrs[i] && pages[i].isFree
    {
      pages := new Info[|addrs|](i requires 0 <= i < |addrs| => Info(addrs[i], false, 0, -1));
      head, count, list := -1, 0, [];
      new;
      var n := 0;
      while n < |addrs|
        invariant 0 <= n <= |addrs| && Consistent() && fresh(pages)
        invariant forall i :: 0 <= i < |addrs| ==> pages[i].addr == addrs[i] && (pages[i].isFree <==> i < n)
      {
        Push(n);
        n := n + 1;
      }
    }

    /** One page of reserve_range: taken from the old list, dropped or put on the new one. */
    method Sift(start: nat, end: nat, newHead: int, ghost kept: seq<int>)
      returns (dropped: bool, newHead': int, ghost kept': seq<int>)
      requires Chained(pages[..], head, list) && Chained(pages[..], newHead, kept) && head != -1
      requires Flagged(pages[..], list + kept) && forall i :: i in list ==> i !in kept
      modifies this`head, this`list, pages
      ensures Chained(pages[..], head, list) && Chained(pages[..], newHead', kept') && list == old(list)[1..]
      ensures Flagged(pages[..], list + kept') && forall i :: i in list ==> i !in kept'
      ensures old(list) != [] && 0 <= old(list)[0] < pages.Length
      ensures dropped == Overlaps(old(pages[..])[old(list)[0]].addr, start, end)
      ensures kept' == if dropped then kept else [old(list)[0]] + kept
      ensures forall i :: 0 <= i < pages.Length ==>
                            pages[i].addr == old(pages[i].addr) && pages[i].refs == old(pages[i].refs)
    {
      ghost var ps := pages[..];
      HeadIs(ps, head, list);
      var p := head;
      RemovedMembers(list, 0);
      assert RemoveAt(list, 0) == list[1..] && list[0] == p;
      if Overlaps(pages[p].addr, start, end) {
        var info := pages[p].(isFree := false, next := -1);
        PopChained(ps, head, list, info);
        OffListKeeps(ps, newHead, kept, p, info);
        head, list := pages[p].next, list[1..];
        pages[p] := info;
        assert pages[..] == ps[p := info];
        dropped, newHead', kept' := true, newHead, kept;
      } else {
        var info := pages[p].(next := newHead);
        PopChained(ps, head, list, info);
        PushChained(ps, newHead, kept, p, info);
        head, list := pages[p].next, list[1..];
        pages[p] := info;
        assert pages[..] == ps[p := info];
        dropped, newHead', kept' := false, p, [p] + kept;
      }
    }

    /** reserve_range on aligned bounds. */
    method ReserveRange(start: nat, end: nat)
      requires Consistent()
      modifies this`head, this`count, this`list, pages
      ensures Consistent()
      ensures forall i :: 0 <= i < pages.Length ==>
                            && pages[i].addr == old(pages[i].addr) && pages[i].refs == old(pages[i].refs)
                            && pages[i].isFree == (old(pages[i].isFree) && !Overlaps(old(pages[i].addr), start, end))
    {
      ghost var ps, was, kept := pages[..], list, [];
      var newHead, removed := -1, 0;
      HeadIs(ps, head, list);
      assert list + kept == list;
      while head != -1
        invariant count == |list| + |kept| + removed && removed >= 0
        invariant Chained(pages[..], head, list) && Chained(pages[..], newHead, kept)
        invariant Flagged(pages[..], list + kept) && forall i :: i in list ==> i !in kept
        invariant forall i :: 0 <= i < pages.Length ==> pages[i].addr == ps[i].addr && pages[i].refs == ps[i].refs
        invariant forall i ::
                    i in kept <==> i in was && i !in list && 0 <= i < |ps| && !Overlaps(ps[i].addr, start, end)
        invariant forall i :: i in list ==> i in was
        decreases |list|
      {
        HeadIs(pages[..], head, list);
        ghost var before := list;
        RemovedMembers(before, 0);
        assert RemoveAt(before, 0) == before[1..];
        var dropped;
        dropped, newHead, kept := Sift(start, end, newHead, kept);
        removed := removed + if dropped then 1 else 0;
        HeadIs(pages[..], head, list);
      }
      HeadIs(pages[..], head, list);
      assert list + kept == kept;
      head, list, count := newHead, kept, count - removed;
    }

    /** page_list_push */
    method Push(i: nat)
      requires Consistent() && i < pages.Length && !pages[i].isFree
      modifies this`head, this`count, this`list, pages
      ensures Consistent() && list == [i] + old(list)
      ensures pages[i] == Info(old(pages[i].addr), true, 0, old(head))
      ensures forall j :: 0 <= j < pages.Length && j != i ==> pages[j] == old(pages[j])
    {
      ghost var ps := pages[..];
      PushChained(ps, head, list, i, Info(pages[i].addr, true, 0, head));
      pages[i] := Info(pages[i].addr, true, 0, head);
      assert pages[..] == ps[i := pages[i]];
      head, count, list := i, count + 1, [i] + list;
    }

    /** pmm_page_alloc */
    method Alloc() returns (page: Option<nat>)
      requires Valid()
      modifies this`head, this`count, this`list, pages
      ensures Valid()
      ensures page.None? <==> old(count) == 0
      ensures page.None? ==> pages[..] == old(pages[..]) && list == old(list)
      ensures page.Some? ==> page.value < pages.Length && old(pages[..])[page.value].isFree
      ensures page.Some? ==>
                && pages[page.value] == Info(old(pages[..])[page.value].addr, false, 1, -1)
                && forall j :: 0 <= j < pages.Length && j != page.value ==> pages[j] == old(pages[j])
    {
      ghost var ps := pages[..];
      HeadIs(ps, head, list);
      if head == -1 {
        return None;
      }
      var i := head;
      var info := Info(pages[i].addr, false, 1, -1);
      PopChained(ps, head, list, info);
      RemovedMembers(list, 0);
      assert RemoveAt(list, 0) == list[1..];
      head := pages[i].next;
      pages[i] := info;
      assert pages[..] == ps[i := info];
      count, list := count - 1, list[1..];
      return Some(i);
    }
  
    /** The walk of page_list_remove: the page before `i`, or the last one. */
    method FindBefore(i: nat) returns (prev: nat, ghost k: nat)
      requires Chained(pages[..], head, list) && i < pages.Length && head != -1 && head != i
      ensures k < |list| && prev < pages.Length && list[k] == prev
      ensures if pages[prev].next == -1 then i !in list else k + 1 < |list| && list[k + 1] == i
    {
      ghost var ps := pages[..];
      HeadIs(ps, head, list);
      prev, k := head, 0;
      while pages[prev].next != -1 && pages[prev].next != i
        invariant k < |list| && prev < pages.Length && list[k] == prev && i !in list[..k + 1]
        decreases |list| - k
      {
        assert Linked(ps, list, k) && Linked(ps, list, k + 1);
        prev, k := pages[prev].next, k + 1;
        assert list[..k + 1] == list[..k] + [prev];
      }
      assert Linked(ps, list, k);
      if k + 1 < |list| {
        assert Linked(ps, list, k + 1);
      } else {
        assert list[..k + 1] == list;
      }
    }

    /** page_list_remove: the walk along the list; a page that is not on it is left alone. */
    method Unlink(i: nat)
      requires Chained(pages[..], head, list) && i < pages.Length
      modifies this`head, this`list, pages
      ensures Chained(pages[..], head, list)
      ensures forall x :: x in list <==> x in old(list) && x != i
      ensures |list| == |old(list)| - if i in old(list) then 1 else 0
      ensures forall j :: 0 <= j < pages.Length ==> pages[j] == old(pages[j]).(next := pages[j].next)
    {
      ghost var ps := pages[..];
      HeadIs(ps, head, list);
      if head == -1 {
        return;
      }
      if head == i {
        var info := pages[i].(next := -1);
        PopChained(ps, head, list, info);
        RemovedMembers(list, 0);
        assert RemoveAt(list, 0) == list[1..];
        head := pages[i].next;
        pages[i] := info;
        assert pages[..] == ps[i := info];
        list := list[1..];
        return;
      }
      var prev;
      ghost var k;
      prev, k := FindBefore(i);
      if pages[prev].next == -1 {
        return;
      }
      assert Linked(ps, list, k) && Linked(ps, list, k + 1) && prev != i;
      pages[prev] := pages[prev].(next := pages[i].next);
      pages[i] := pages[i].(next := -1);
      UnlinkChained(ps, head, list, k + 1, pages[..]);
      RemovedMembers(list, k + 1);
      list := RemoveAt(list, k + 1);
    }
  
    /** The inner test of pmm_pages_alloc_contiguous. */
    method Usable(i: nat, n: nat) returns (usable: bool)
      requires i + n <= pages.Length && n > 0
      ensures usable <==> Run(pages[..], i, n)
    {
      var start := pages[i].addr;
      var j := 0;
      while j < n
        invariant 0 <= j <= n && forall x :: i <= x < i + j ==> InRun(pages[..], i, x)
      {
        if !pages[i + j].isFree || pages[i + j].addr != start + j * PAGE_SIZE {
          assert !InRun(pages[..], i, i + j);
          return false;
        }
        j := j + 1;
      }
      return true;
    }

    /** Take one page of a run off the list. */
    method Take(i: nat)
      requires Chained(pages[..], head, list) && Flagged(pages[..], list) && i < pages.Length && pages[i].isFree
      modifies this`head, this`list, pages
      ensures Chained(pages[..], head, list) && Flagged(pages[..], list) && |list| == |old(list)| - 1
      ensures !pages[i].isFree && pages[i].refs == 1
      ensures forall j :: 0 <= j < pages.Length ==> pages[j].addr == old(pages[j].addr)
      ensures forall j :: 0 <= j < pages.Length && j != i ==>
                            pages[j].isFree == old(pages[j].isFree) && pages[j].refs == old(pages[j].refs)
    {
      Unlink(i);
      ghost var ps := pages[..];
      pages[i] := pages[i].(isFree := false, refs := 1);
      assert pages[..] == ps[i := pages[i]];
      OffListKeeps(ps, head, list, i, pages[i]);
    }

    /** pmm_pages_alloc_contiguous; `first` is the position of the run, -1 if there is none. */
    method AllocContiguous(n: nat) returns (addr: nat, ghost first: int)
      requires Valid()
      modifies this`head, this`count, this`list, pages
      ensures Valid() && -1 <= first
      ensures n == 0 ==> first == -1
      ensures first == -1 ==> addr == 0 && pages[..] == old(pages[..])
      ensures first == -1 && n > 0 ==> forall i :: 0 <= i < pages.Length ==> !Run(pages[..], i, n)
      ensures first >= 0 ==> Run(old(pages[..]), first, n) && addr == old(pages[..])[first].addr
      ensures forall j :: 0 <= j < pages.Length ==> pages[j].addr == old(pages[j].addr)
      ensures first >= 0 ==> forall j :: first <= j < first + n ==> !pages[j].isFree && pages[j].refs == 1
      ensures first >= 0 ==>
                forall j :: 0 <= j < pages.Length && !(first <= j < first + n) ==>
                              pages[j].isFree == old(pages[j].isFree) && pages[j].refs == old(pages[j].refs)
    {
      first, addr := -1, 0;
      if n == 0 {
        return;
      }
      ghost var ps := pages[..];
      var i, usable := 0, false;
      while i + n <= pages.Length && !usable
        invariant pages[..] == ps && forall x :: 0 <= x < i ==> !Run(ps, x, n)
        invariant usable ==> Run(ps, i, n)
        decreases pages.Length - i, !usable
        modifies {}
      {
        usable := Usable(i, n);
        if !usable {
          i := i + 1;
        }
      }
      if usable {
        TakeRun(i, n);
        return pages[i].addr, i;
      }
    }

    method TakeRun(i: nat, n: nat)
      requires Valid() && Run(pages[..], i, n)
      modifies this`head, this`count, this`list, pages
      ensures Valid()
      ensures forall j :: 0 <= j < pages.Length ==> pages[j].addr == old(pages[j].addr)
      ensures forall j :: i <= j < i + n ==> !pages[j].isFree && pages[j].refs == 1
      ensures forall j :: 0 <= j < pages.Length && !(i <= j < i + n) ==>
                            pages[j].isFree == old(pages[j].isFree) && pages[j].refs == old(pages[j].refs)
    {
      ghost var ps := pages[..];
      var j := i;
      while j < i + n
        invariant i <= j <= i + n && count == old(count) && Chained(pages[..], head, list) && Flagged(pages[..], list)
        invariant |list| == |old(list)| - (j - i)
        invariant forall x :: 0 <= x < pages.Length ==> pages[x].addr == old(pages[x].addr)
        invariant forall x :: i <= x < j ==> !pages[x].isFree && pages[x].refs == 1
        invariant forall x :: 0 <= x < pages.Length && !(i <= x < j) ==>
                                pages[x].isFree == old(pages[x].isFree) && pages[x].refs == old(pages[x].refs)
      {
        assert InRun(ps, i, j);
        Take(j);
        j := j + 1;
      }
      count := count - n;
    }

    /** find_page */
    method FindPage(addr: nat) returns (page: Option<nat>)
      ensures page.Some? ==> page.value < pages.Length && pages[page.value].addr == addr
      ensures page.None? ==> forall i :: 0 <= i < pages.Length ==> pages[i].addr != addr
    {
      var i := 0;
      while i < pages.Length
        invariant 0 <= i <= pages.Length && forall j :: 0 <= j < i ==> pages[j].addr != addr
      {
        if pages[i].addr == addr {
          return Some(i);
        }
        i := i + 1;
      }
      return None;
    }

    /** pmm_page_retain_addr */
    method Retain(addr: nat) returns (ok: bool)
      requires Valid()
      modifies pages
      ensures Valid() && count == old(count)
      ensures ok <==> exists i :: 0 <= i < pages.Length && Live(old(pages[..]), i, addr)
      ensures !ok ==> pages[..] == old(pages[..])
      ensures ok ==>
                forall i :: 0 <= i < pages.Length ==>
                              pages[i] ==
                              if old(pages[i].addr) == addr then old(pages[i]).(refs := old(pages[i].refs) + 1)
                              else old(pages[i])
    {
      var page := FindPage(addr);
      if page.None? {
        return false;
      }
      var i := page.value;
      if pages[i].isFree || pages[i].refs == 0 {
        OneAddress(pages[..], i, addr);
        return false;
      }
      ghost var ps := pages[..];
      assert Live(ps, i, addr);
      pages[i] := pages[i].(refs := pages[i].refs + 1);
      assert pages[..] == ps[i := pages[i]];
      OffListKeeps(ps, head, list, i, pages[i]);
      return true;
    }

    /** pmm_page_free_addr: the last reference puts the page back on the list. */
    method FreeAddr(addr: nat)
      requires Valid()
      modifies this`head, this`count, this`list, pages
      ensures Valid()
      ensures forall i :: 0 <= i < pages.Length ==> pages[i].addr == old(pages[i].addr)
      ensures forall i :: 0 <= i < pages.Length ==>
                            var was := old(pages[i]);
                            if was.addr != addr || was.isFree then pages[i] == was
                            else if was.refs > 1 then pages[i] == was.(refs := was.refs - 1)
                            else pages[i].isFree && pages[i].refs == 0
    {
      var page := FindPage(addr);
      if page.None? {
        return;
      }
      var i := page.value;
      ghost var ps := pages[..];
      OneAddress(ps, i, addr);
      if pages[i].isFree {
        return;
      }
      if pages[i].refs > 1 {
        pages[i] := pages[i].(refs := pages[i].refs - 1);
        assert pages[..] == ps[i := pages[i]];
        OffListKeeps(ps, head, list, i, pages[i]);
        return;
      }
      Push(i);
    }
  }

  /** Descriptor `x` belongs to a run of free pages that starts at descriptor `i`. */
  predicate InRun(ps: seq<Info>, i: int, x: int)
    requires 0 <= i < |ps|
  {
    0 <= x < |ps| && ps[x].isFree && ps[x].addr == ps[i].addr + (x - i) * PAGE_SIZE
  }

  predicate Run(ps: seq<Info>, i: int, n: nat) {
    0 <= i < |ps| && i + n <= |ps| && forall x :: i <= x < i + n ==> InRun(ps, i, x)
  }

  predicate Live(ps: seq<Info>, i: nat, addr: nat)
    requires i < |ps|
  {
    ps[i].addr == addr && !ps[i].isFree && ps[i].refs > 0
  }

  lemma OneAddress(ps: seq<Info>, i: nat, addr: nat)
    requires Addressed(ps) && i < |ps| && ps[i].addr == addr
    ensures forall j :: 0 <= j < |ps| && ps[j].addr == addr ==> j == i
  {
  }

  /** A descriptor that is not on the list may change. */
  lemma OffListKeeps(ps: seq<Info>, head: int, list: seq<int>, i: nat, info: Info)
    requires Chained(ps, head, list) && i < |ps| && i !in list
    ensures Chained(ps[i := info], head, list)
  {
    var ps' := ps[i := info];
    forall k | 0 <= k < |list|
      ensures Linked(ps', list, k)
    {
      assert Linked(ps, list, k) && list[k] in list;
    }
  }

  /** Page `a` and the bytes `[start, end)` overlap. */
  predicate Overlaps(a: nat, start: nat, end: nat) {
    a < end && start < a + PAGE_SIZE
  }

  // ----- when a contiguous allocation is refused

  /** Pages `a`, `a + PAGE_SIZE`, ... are free, wherever their descriptors are. */
  ghost predicate FreeMemory(ps: seq<Info>, a: nat, n: nat) {
    forall j :: 0 <= j < n ==> FreeAt(ps, a + j * PAGE_SIZE)
  }

  ghost predicate FreeAt(ps: seq<Info>, a: int) {
    exists i :: 0 <= i < |ps| && ps[i].isFree && ps[i].addr == a
  }

  /** Pages that follow each other in memory have descriptors that follow each other. */
  ghost predicate InOrder(ps: seq<Info>) {
    forall i, k :: 0 <= i < |ps| && 0 <= k < |ps| && ps[k].addr == ps[i].addr + PAGE_SIZE ==> k == i + 1
  }

  lemma {:induction false} RunOfMemory(ps: seq<Info>, a: nat, n: nat, i: nat)
    requires InOrder(ps) && FreeMemory(ps, a, n) && n > 0 && i < |ps| && ps[i].isFree && ps[i].addr == a
    ensures Run(ps, i, n)
  {
    if n > 1 {
      assert FreeAt(ps, a + (n - 1) * PAGE_SIZE);
      RunOfMemory(ps, a, n - 1, i);
      var k :| 0 <= k < |ps| && ps[k].isFree && ps[k].addr == a + (n - 1) * PAGE_SIZE;
      assert InRun(ps, i, i + n - 2);
      assert ps[k].addr == ps[i + n - 2].addr + PAGE_SIZE && k == i + n - 1;
    }
  }

  /** With descriptors in order, a request is refused only when no free memory fits it. */
  lemma InOrderFindsMemory(ps: seq<Info>, a: nat, n: nat)
    requires InOrder(ps) && FreeMemory(ps, a, n) && n > 0
    ensures exists i :: Run(ps, i, n)
  {
    assert FreeAt(ps, a + 0 * PAGE_SIZE);
    var i :| 0 <= i < |ps| && ps[i].isFree && ps[i].addr == a;
    RunOfMemory(ps, a, n, i);
  }

  /** Otherwise two free pages that follow each other in memory can be overlooked: the condition is exact. */
  lemma OutOfOrderMisses(ps: seq<Info>) returns (ps': seq<Info>, a: nat)
    requires Addressed(ps) && !InOrder(ps)
    ensures |ps'| == |ps| && forall i :: 0 <= i < |ps| ==> ps'[i].addr == ps[i].addr
    ensures FreeMemory(ps', a, 2) && forall i :: !Run(ps', i, 2)
  {
    var i, k :| 0 <= i < |ps| && 0 <= k < |ps| && ps[k].addr == ps[i].addr + PAGE_SIZE && k != i + 1;
    ps' := seq(|ps|, x requires 0 <= x < |ps| => ps[x].(isFree := x == i || x == k));
    a := ps[i].addr;
    assert ps'[i].isFree && ps'[k].isFree;
    assert FreeAt(ps', a + 0 * PAGE_SIZE) && FreeAt(ps', a + 1 * PAGE_SIZE);
    forall x
      ensures !Run(ps', x, 2)
    {
      if 0 <= x < |ps| {
        assert InRun(ps', x, x) ==> x == i || x == k;
        assert InRun(ps', x, x + 1) ==> x + 1 == i && x != k;
      }
    }
  }

  // ----- start-up

  const DESCRIPTOR_SIZE := 24

  datatype Range = Range(base: nat, length: nat)

  datatype Reserved = Reserved(start: u64, end: u64)

  /** Empty ranges and ranges that wrap around are passed over. */
  predicate Skipped(r: Range) {
    r.length == 0 || r.base + r.length >= U64
  }

  /** Page `a` lies inside the range. */
  predicate Inside(a: nat, r: Range) {
    !Skipped(r) && a % PAGE_SIZE == 0 && r.base <= a && a + PAGE_SIZE <= r.base + r.length
  }

  /** The number of pages that are taken from a range. */
  function PagesIn(r: Range): nat {
    var start, end := AlignUp(r.base), AlignDown(r.base + r.length);
    if Skipped(r) || end <= start then 0 else (end - start) / PAGE_SIZE
  }

  function PagesInAll(rs: seq<Range>): nat {
    if rs == [] then 0 else PagesInAll(rs[..|rs| - 1]) + PagesIn(rs[|rs| - 1])
  }

  /** Page `m` of a range. */
  function PageOf(r: Range, m: nat): nat {
    AlignUp(r.base) + m * PAGE_SIZE
  }

  function PagesOf(r: Range): seq<nat> {
    seq(PagesIn(r), m requires 0 <= m => PageOf(r, m))
  }

  function AllPages(rs: seq<Range>): seq<nat> {
    if rs == [] then [] else AllPages(rs[..|rs| - 1]) + PagesOf(rs[|rs| - 1])
  }

  /** count_available_pages */
  method CountPages(available: seq<Range>) returns (count: nat)
    ensures count == PagesInAll(available)
  {
    count := 0;
    for n := 0 to |available|
      invariant count == PagesInAll(available[..n])
    {
      assert available[..n + 1][..n] == available[..n];
      count := count + PagesIn(available[n]);
    }
    assert available[..|available|] == available;
  }

  lemma PagesLeft(r: Range, m: nat)
    requires !Skipped(r)
    ensures PageOf(r, m) < AlignDown(r.base + r.length) <==> m < PagesIn(r)
  {
    var p, q := (r.base + (PAGE_SIZE - 1)) % U64 / PAGE_SIZE, (r.base + r.length) / PAGE_SIZE;
    assert AlignUp(r.base) == p * PAGE_SIZE && AlignDown(r.base + r.length) == q * PAGE_SIZE;
    assert PageOf(r, m) == (p + m) * PAGE_SIZE;
    if p < q {
      assert PagesIn(r) == q - p;
    }
  }

  /** import_available_range: the pages of one range, appended. */
  method ImportRange(addrs: seq<nat>, r: Range) returns (addrs': seq<nat>)
    ensures addrs' == addrs + PagesOf(r)
  {
    addrs' := addrs;
    if Skipped(r) {
      return;
    }
    var start, end := AlignUp(r.base), AlignDown(r.base + r.length);
    ghost var m := 0;
    PagesLeft(r, 0);
    while start < end
      invariant m <= PagesIn(r) && start == PageOf(r, m) && addrs' == addrs + PagesOf(r)[..m]
      invariant start < end <==> m < PagesIn(r)
      decreases PagesIn(r) - m
    {
      addrs' := addrs' + [start];
      assert PagesOf(r)[..m + 1] == PagesOf(r)[..m] + [start];
      start, m := start + PAGE_SIZE, m + 1;
      PagesLeft(r, m);
    }
    assert PagesOf(r)[..m] == PagesOf(r);
  }

  /** The import loop of pmm_init_from_ranges. */
  method ListPages(available: seq<Range>) returns (addrs: seq<nat>)
    ensures addrs == AllPages(available)
  {
    addrs := [];
    for n := 0 to |available|
      invariant addrs == AllPages(available[..n])
    {
      assert available[..n + 1][..n] == available[..n];
      addrs := ImportRange(addrs, available[n]);
    }
    assert available[..|available|] == available;
  }

  // ----- which pages are listed, and in which order

  /** The position of page `m` of range `i` in the list. */
  function Position(rs: seq<Range>, i: nat, m: nat): nat
    requires i <= |rs|
  {
    PagesInAll(rs[..i]) + m
  }

  lemma PositionNext(rs: seq<Range>, i: nat)
    requires i < |rs|
    ensures Position(rs, i + 1, 0) == Position(rs, i, 0) + PagesIn(rs[i])
  {
    assert rs[..i + 1][..i] == rs[..i];
  }

  lemma {:induction false} PositionGrows(rs: seq<Range>, i: nat, j: nat)
    requires i <= j <= |rs|
    ensures Position(rs, i, 0) <= Position(rs, j, 0)
  {
    if i < j {
      PositionGrows(rs, i, j - 1);
      PositionNext(rs, j - 1);
    }
  }

  lemma {:induction false} AllPagesCount(rs: seq<Range>)
    ensures |AllPages(rs)| == PagesInAll(rs)
  {
    if rs != [] {
      AllPagesCount(rs[..|rs| - 1]);
    }
  }

  lemma {:induction false} PageAt(rs: seq<Range>, i: nat, m: nat)
    requires i < |rs| && m < PagesIn(rs[i])
    ensures Position(rs, i, m) < |AllPages(rs)| && AllPages(rs)[Position(rs, i, m)] == PageOf(rs[i], m)
  {
    var front := rs[..|rs| - 1];
    AllPagesCount(front);
    if i < |front| {
      PageAt(front, i, m);
      assert front[..i] == rs[..i];
    } else {
      assert rs[..i] == front;
    }
  }

  /** Every position of the list is that of a page of a range. */
  lemma {:induction false} PositionOf(rs: seq<Range>, x: nat) returns (i: nat, m: nat)
    requires x < |AllPages(rs)|
    ensures i < |rs| && m < PagesIn(rs[i]) && x == Position(rs, i, m)
  {
    var front := rs[..|rs| - 1];
    AllPagesCount(front);
    if x < |AllPages(front)| {
      i, m := PositionOf(front, x);
      assert front[..i] == rs[..i];
    } else {
      i, m := |front|, x - |AllPages(front)|;
      assert rs[..i] == front;
    }
  }

  /** Rounding the end of a range up to pages wraps around to 0. */
  predicate EndWraps(end: nat) {
    end + (PAGE_SIZE - 1) >= U64
  }

  predicate Sound(r: Range) {
    Skipped(r) || !EndWraps(r.base)
  }

  lemma RoundedUp(x: nat, a: nat)
    requires !EndWraps(x) && a % PAGE_SIZE == 0
    ensures x <= a <==> AlignUp(x) <= a
  {
    var p := a / PAGE_SIZE;
    assert a == p * PAGE_SIZE && (x + (PAGE_SIZE - 1)) % U64 == x + (PAGE_SIZE - 1);
  }

  lemma RoundedDown(x: nat, a: nat)
    requires a % PAGE_SIZE == 0
    ensures a + PAGE_SIZE <= x <==> a < AlignDown(x)
  {
    var p := a / PAGE_SIZE;
    assert a == p * PAGE_SIZE;
  }

  /**
  The pages taken from a range are its whole pages, except that a range that starts
  in the last page of the address space gives all memory below that page.
  */
  lemma PagesExactIff(r: Range)
    ensures (forall a: nat :: a in PagesOf(r) <==> Inside(a, r)) <==> Sound(r)
  {
    if Sound(r) {
      forall a: nat
        ensures a in PagesOf(r) <==> Inside(a, r)
      {
        PageInside(r, a);
      }
    } else {
      WrappedRange(r);
      assert PagesOf(r)[0] == PageOf(r, 0) && !Inside(0, r);
    }
  }

  lemma WrappedRange(r: Range)
    requires !Sound(r)
    ensures PagesIn(r) == U64 / PAGE_SIZE - 1 && AlignUp(r.base) == 0
  {
    var x := r.base + (PAGE_SIZE - 1);
    assert x % U64 == x - U64;
    assert (r.base + r.length) / PAGE_SIZE == U64 / PAGE_SIZE - 1;
  }

  lemma PageInside(r: Range, a: nat)
    requires Sound(r)
    ensures a in PagesOf(r) <==> Inside(a, r)
  {
    if a in PagesOf(r) {
      var m :| 0 <= m < PagesIn(r) && PagesOf(r)[m] == a;
      PagesLeft(r, m);
      PageAligned(r, m);
      RoundedUp(r.base, a);
      RoundedDown(r.base + r.length, a);
    }
    if Inside(a, r) {
      RoundedUp(r.base, a);
      RoundedDown(r.base + r.length, a);
      var p := (r.base + (PAGE_SIZE - 1)) % U64 / PAGE_SIZE;
      assert AlignUp(r.base) == p * PAGE_SIZE && a == a / PAGE_SIZE * PAGE_SIZE;
      var m := a / PAGE_SIZE - p;
      assert a == PageOf(r, m);
      PagesLeft(r, m);
      assert PagesOf(r)[m] == a;
    }
  }

  lemma PageAligned(r: Range, m: nat)
    ensures PageOf(r, m) % PAGE_SIZE == 0
  {
    var p := (r.base + (PAGE_SIZE - 1)) % U64 / PAGE_SIZE;
    assert PageOf(r, m) == (p + m) * PAGE_SIZE;
  }

  /** No two ranges give the same page. */
  ghost predicate NoSharedPage(rs: seq<Range>) {
    forall i, j, a :: 0 <= i < j < |rs| && a in PagesOf(rs[i]) ==> a !in PagesOf(rs[j])
  }

  /** No page is listed twice exactly if no two ranges share one. */
  lemma DistinctIff(rs: seq<Range>)
    ensures Distinct(AllPages(rs)) <==> NoSharedPage(rs)
  {
    if Distinct(AllPages(rs)) {
      forall i, j, a | 0 <= i < j < |rs| && a in PagesOf(rs[i])
        ensures a !in PagesOf(rs[j])
      {
        if a in PagesOf(rs[j]) {
          SharedTwice(rs, i, j, a);
        }
      }
    }
    if NoSharedPage(rs) {
      forall x, y | 0 <= x < y < |AllPages(rs)|
        ensures AllPages(rs)[x] != AllPages(rs)[y]
      {
        NotTwice(rs, x, y);
      }
    }
  }

  lemma SharedTwice(rs: seq<Range>, i: nat, j: nat, a: nat)
    requires i < j < |rs| && a in PagesOf(rs[i]) && a in PagesOf(rs[j])
    ensures !Distinct(AllPages(rs))
  {
    var m :| 0 <= m < PagesIn(rs[i]) && PagesOf(rs[i])[m] == a;
    var n :| 0 <= n < PagesIn(rs[j]) && PagesOf(rs[j])[n] == a;
    PageAt(rs, i, m);
    PageAt(rs, j, n);
    PositionNext(rs, i);
    PositionGrows(rs, i + 1, j);
    assert Position(rs, i, m) < Position(rs, j, n);
  }

  lemma NotTwice(rs: seq<Range>, x: nat, y: nat)
    requires NoSharedPage(rs) && x < y < |AllPages(rs)|
    ensures AllPages(rs)[x] != AllPages(rs)[y]
  {
    var i, m := PositionOf(rs, x);
    var j, n := PositionOf(rs, y);
    PageAt(rs, i, m);
    PageAt(rs, j, n);
    assert PagesOf(rs[i])[m] == AllPages(rs)[x] && PagesOf(rs[j])[n] == AllPages(rs)[y];
    if i < j {
      assert AllPages(rs)[x] in PagesOf(rs[i]);
    } else if j < i {
      assert AllPages(rs)[y] in PagesOf(rs[j]);
    }
  }

  /** Ranges that do not overlap, as a memory map lists them. */
  ghost predicate Disjoint(rs: seq<Range>) {
    forall i, j :: 0 <= i < j < |rs| && !Skipped(rs[i]) && !Skipped(rs[j]) ==>
                     || rs[i].base + rs[i].length <= rs[j].base
                     || rs[j].base + rs[j].length <= rs[i].base
  }

  ghost predicate SoundRanges(rs: seq<Range>) {
    forall i :: 0 <= i < |rs| ==> Sound(rs[i])
  }

  lemma DisjointShareNothing(rs: seq<Range>)
    requires Disjoint(rs) && SoundRanges(rs)
    ensures NoSharedPage(rs)
  {
    forall i, j, a | 0 <= i < j < |rs| && a in PagesOf(rs[i])
      ensures a !in PagesOf(rs[j])
    {
      PageInside(rs[i], a);
      PageInside(rs[j], a);
    }
  }

  /** Range `j` is the next range with pages after range `i` in the list. */
  ghost predicate NextInList(rs: seq<Range>, i: nat, j: nat) {
    i < j < |rs| && forall k :: i < k < j ==> PagesIn(rs[k]) == 0
  }

  /** Range `j` starts in memory where range `i` ends. */
  predicate NextInMemory(rs: seq<Range>, i: nat, j: nat) {
    && i < |rs| && j < |rs| && PagesIn(rs[i]) > 0 && PagesIn(rs[j]) > 0
    && PageOf(rs[j], 0) == PageOf(rs[i], PagesIn(rs[i]))
  }

  ghost predicate ListedInOrder(rs: seq<Range>) {
    forall i: nat, j: nat :: NextInMemory(rs, i, j) ==> NextInList(rs, i, j)
  }

  lemma {:induction false} NoPagesBetween(rs: seq<Range>, i: nat, j: nat)
    requires NextInList(rs, i, j)
    ensures Position(rs, j, 0) == Position(rs, i + 1, 0)
  {
    if i + 1 < j {
      NoPagesBetween(rs, i, j - 1);
      PositionNext(rs, j - 1);
    }
  }

  lemma BetweenNoPages(rs: seq<Range>, i: nat, j: nat)
    requires i < |rs| && j < |rs| && PagesIn(rs[i]) > 0 && Position(rs, j, 0) == Position(rs, i + 1, 0)
    ensures NextInList(rs, i, j)
  {
    PositionNext(rs, i);
    if j <= i {
      PositionGrows(rs, j, i);
      assert false;
    }
    forall k | i < k < j
      ensures PagesIn(rs[k]) == 0
    {
      PositionGrows(rs, i + 1, k);
      PositionNext(rs, k);
      PositionGrows(rs, k + 1, j);
    }
  }

  /** The descriptors describe the listed pages, in the order of the list. */
  ghost predicate Describes(ps: seq<Info>, rs: seq<Range>) {
    |ps| == |AllPages(rs)| && forall i :: 0 <= i < |ps| ==> ps[i].addr == AllPages(rs)[i]
  }

  /**
  The descriptors are in the order of memory exactly if no range with pages directly
  follows in memory one other than the one with pages that is listed before it.
  */
  lemma InOrderIff(ps: seq<Info>, rs: seq<Range>)
    requires Describes(ps, rs) && NoSharedPage(rs)
    ensures InOrder(ps) <==> ListedInOrder(rs)
  {
    if InOrder(ps) {
      forall i: nat, j: nat | NextInMemory(rs, i, j)
        ensures NextInList(rs, i, j)
      {
        PageAt(rs, i, PagesIn(rs[i]) - 1);
        PageAt(rs, j, 0);
        PositionNext(rs, i);
        BetweenNoPages(rs, i, j);
      }
    }
    if ListedInOrder(rs) {
      forall x, y | 0 <= x < |ps| && 0 <= y < |ps| && ps[y].addr == ps[x].addr + PAGE_SIZE
        ensures y == x + 1
      {
        FollowsInList(rs, x, y);
      }
    }
  }

  lemma FollowsInList(rs: seq<Range>, x: nat, y: nat)
    requires ListedInOrder(rs) && NoSharedPage(rs) && x < |AllPages(rs)| && y < |AllPages(rs)|
    requires AllPages(rs)[y] == AllPages(rs)[x] + PAGE_SIZE
    ensures y == x + 1
  {
    DistinctIff(rs);
    var i, m := PositionOf(rs, x);
    var j, n := PositionOf(rs, y);
    PageAt(rs, i, m);
    PageAt(rs, j, n);
    if m + 1 < PagesIn(rs[i]) {
      PageAt(rs, i, m + 1);
      assert AllPages(rs)[Position(rs, i, m + 1)] == AllPages(rs)[y];
    } else if n > 0 {
      PageAt(rs, j, n - 1);
      assert AllPages(rs)[Position(rs, j, n - 1)] == AllPages(rs)[x];
    } else {
      assert NextInMemory(rs, i, j);
      NoPagesBetween(rs, i, j);
      PositionNext(rs, i);
    }
  }

  // ----- room for the descriptors

  /** range_is_reserved_by_list */
  predicate IsReserved(start: nat, end: nat, reserved: seq<Reserved>) {
    exists i :: 0 <= i < |reserved| && start < reserved[i].end && reserved[i].start < end
  }

  /** Room for the descriptors at `start` in a range. */
  predicate HasRoom(start: nat, bytes: nat, r: Range, reserved: seq<Reserved>) {
    && !Skipped(r) && start % PAGE_SIZE == 0 && AlignUp(r.base) <= start < AlignDown(r.base + r.length)
    && start + bytes <= AlignDown(r.base + r.length) && !IsReserved(start, start + bytes, reserved)
  }

  /** The search of find_metadata_storage_from_ranges in one range. */
  method FindRoom(r: Range, reserved: seq<Reserved>, bytes: nat) returns (start: Option<nat>)
    ensures start.Some? ==> HasRoom(start.value, bytes, r, reserved)
    ensures start.Some? ==> forall s: nat :: s < start.value ==> !HasRoom(s, bytes, r, reserved)
    ensures start.None? ==> forall s: nat :: !HasRoom(s, bytes, r, reserved)
  {
    if Skipped(r) {
      return None;
    }
    var s, end := AlignUp(r.base), AlignDown(r.base + r.length);
    while s < end && bytes <= end - s
      invariant s % PAGE_SIZE == 0 && AlignUp(r.base) <= s
      invariant forall x: nat :: x < s ==> !HasRoom(x, bytes, r, reserved)
      decreases end - s
    {
      if !IsReserved(s, s + bytes, reserved) {
        return Some(s);
      }
      s := s + PAGE_SIZE;
    }
    return None;
  }

  /** The first room for the descriptors: in the first range that has some, at the lowest address. */
  ghost predicate FirstRoom(available: seq<Range>, reserved: seq<Reserved>, bytes: nat, i: nat, start: nat) {
    && i < |available| && HasRoom(start, bytes, available[i], reserved)
    && (forall s: nat :: s < start ==> !HasRoom(s, bytes, available[i], reserved))
    && (forall j: nat, s: nat :: j < i ==> !HasRoom(s, bytes, available[j], reserved))
  }

  ghost predicate NoRoom(available: seq<Range>, reserved: seq<Reserved>, bytes: nat) {
    forall i: nat, s: nat :: i < |available| ==> !HasRoom(s, bytes, available[i], reserved)
  }

  /** find_metadata_storage_from_ranges */
  method FindMetadata(available: seq<Range>, reserved: seq<Reserved>, bytes: nat)
    returns (start: Option<nat>, ghost i: nat)
    ensures start.Some? ==> FirstRoom(available, reserved, bytes, i, start.value)
    ensures start.None? <==> NoRoom(available, reserved, bytes)
  {
    var n := 0;
    while n < |available|
      invariant 0 <= n <= |available|
      invariant forall i: nat, s: nat :: i < n ==> !HasRoom(s, bytes, available[i], reserved)
    {
      start := FindRoom(available[n], reserved, bytes);
      if start.Some? {
        return start, n;
      }
      n := n + 1;
    }
    return None, 0;
  }

  lemma OneFirstRoom(available: seq<Range>, reserved: seq<Reserved>, bytes: nat, i: nat, start: nat)
    requires FirstRoom(available, reserved, bytes, i, start)
    ensures forall j: nat, s: nat :: FirstRoom(available, reserved, bytes, j, s) ==> j == i && s == start
    ensures !NoRoom(available, reserved, bytes)
  {
  }

  // ----- reservations

  /**
  Rounding a range of bytes out to pages does not change which pages it overlaps,
  unless its end wraps around: then it overlaps none.
  */
  lemma RoundedOverlap(a: nat, start: u64, end: u64)
    requires a % PAGE_SIZE == 0
    ensures Overlaps(a, AlignDown(start), AlignUp(end)) <==> !EndWraps(end) && Overlaps(a, start, end)
  {
    var p := a / PAGE_SIZE;
    assert a == p * PAGE_SIZE;
    if EndWraps(end) {
      assert (end + (PAGE_SIZE - 1)) % U64 == end + (PAGE_SIZE - 1) - U64;
      assert AlignUp(end) == 0;
    } else {
      assert AlignUp(end) == (end + (PAGE_SIZE - 1)) / PAGE_SIZE * PAGE_SIZE;
    }
  }

  /** A reservation of everything but the last byte of the address space reserves nothing. */
  lemma WrappedReservation(a: nat)
    requires a % PAGE_SIZE == 0 && a + PAGE_SIZE <= U64
    ensures Overlaps(a, 0, U64 - 1) && !Overlaps(a, AlignDown(0), AlignUp(U64 - 1))
  {
    RoundedOverlap(a, 0, U64 - 1);
  }

  /** Page `a` is taken by one of the first `n` reserved ranges; one whose end wraps around takes none. */
  ghost predicate Taken(a: nat, reserved: seq<Reserved>, n: nat)
    requires n <= |reserved|
  {
    exists k :: 0 <= k < n && !EndWraps(reserved[k].end) && Overlaps(a, reserved[k].start, reserved[k].end)
  }

  lemma TakenNext(a: nat, reserved: seq<Reserved>, n: nat)
    requires a % PAGE_SIZE == 0 && n < |reserved|
    ensures Taken(a, reserved, n + 1) <==>
            Taken(a, reserved, n) || Overlaps(a, AlignDown(reserved[n].start), AlignUp(reserved[n].end))
  {
    RoundedOverlap(a, reserved[n].start, reserved[n].end);
  }

  ghost predicate PagesAligned(a: FrameAllocator)
    reads a, a.pages
  {
    forall i :: 0 <= i < a.pages.Length ==> a.pages[i].addr % PAGE_SIZE == 0
  }

  /** The reservation loop of pmm_init_from_ranges. */
  method ReserveAll(a: FrameAllocator, reserved: seq<Reserved>)
    requires a.Consistent() && PagesAligned(a)
    modifies a, a.pages
    ensures a.Consistent()
    ensures forall i :: 0 <= i < a.pages.Length ==>
                          && a.pages[i].addr == old(a.pages[i].addr)
                          && a.pages[i].isFree ==
                             (old(a.pages[i].isFree) && !Taken(old(a.pages[i].addr), reserved, |reserved|))
  {
    var n := 0;
    while n < |reserved|
      invariant 0 <= n <= |reserved| && a.Consistent()
      invariant forall i :: 0 <= i < a.pages.Length ==>
                              && a.pages[i].addr == old(a.pages[i].addr)
                              && a.pages[i].isFree ==
                                 (old(a.pages[i].isFree) && !Taken(old(a.pages[i].addr), reserved, n))
    {
      a.ReserveRange(AlignDown(reserved[n].start), AlignUp(reserved[n].end));
      forall i | 0 <= i < a.pages.Length
        ensures Taken(a.pages[i].addr, reserved, n + 1) <==>
                || Taken(a.pages[i].addr, reserved, n)
                || Overlaps(a.pages[i].addr, AlignDown(reserved[n].start), AlignUp(reserved[n].end))
      {
        TakenNext(a.pages[i].addr, reserved, n);
      }
      n := n + 1;
    }
  }

  // ----- the whole of it

  /** The bytes that the descriptors of all pages take, in whole pages. */
  function DescriptorBytes(available: seq<Range>): nat {
    AlignUp(PagesInAll(available) * DESCRIPTOR_SIZE)
  }

  /**
  pmm_init_from_ranges.  The descriptors need room for themselves; without it the
  kernel stops, which is the result null here.  It also stops if the first room is
  at address 0, which it takes for none.
  */
  method Start(available: seq<Range>, reserved: seq<Reserved>)
    returns (a: FrameAllocator?, metaStart: nat, ghost k: nat)
    ensures a == null <==>
            || DescriptorBytes(available) == 0
            || NoRoom(available, reserved, DescriptorBytes(available))
            || (exists i: nat :: FirstRoom(available, reserved, DescriptorBytes(available), i, 0))
    ensures a != null ==> fresh(a) && fresh(a.pages)
    ensures a != null ==> FirstRoom(available, reserved, DescriptorBytes(available), k, metaStart)
    ensures a != null ==> a.Consistent() && Describes(a.pages[..], available)
    ensures a != null ==> (a.Valid() <==> NoSharedPage(available))
    ensures a != null ==>
              forall i :: 0 <= i < a.pages.Length ==>
                            (a.pages[i].isFree <==>
                             && !Taken(a.pages[i].addr, reserved, |reserved|)
                             && !Overlaps(a.pages[i].addr, metaStart, metaStart + DescriptorBytes(available)))
  {
    var count := CountPages(available);
    var bytes := AlignUp(count * DESCRIPTOR_SIZE);
    var room;
    room, k := FindMetadata(available, reserved, bytes);
    if room.Some? {
      OneFirstRoom(available, reserved, bytes, k, room.value);
    }
    if room.None? || room.value == 0 || bytes == 0 {
      return null, 0, k;
    }
    metaStart := room.value;
    a := Populate(available, reserved, metaStart, metaStart + bytes);
  }

  /** The second half of pmm_init_from_ranges. */
  method Populate(available: seq<Range>, reserved: seq<Reserved>, metaStart: nat, metaEnd: nat)
    returns (a: FrameAllocator)
    ensures fresh(a) && fresh(a.pages) && a.Consistent() && Describes(a.pages[..], available)
    ensures a.Valid() <==> NoSharedPage(available)
    ensures forall i :: 0 <= i < a.pages.Length ==>
                          (a.pages[i].isFree <==>
                           && !Taken(a.pages[i].addr, reserved, |reserved|)
                           && !Overlaps(a.pages[i].addr, metaStart, metaEnd))
  {
    var addrs := ListPages(available);
    a := new FrameAllocator(addrs);
    ListAligned(available);
    ReserveAll(a, reserved);
    a.ReserveRange(metaStart, metaEnd);
    AddressedIff(a.pages[..], available);
  }

  lemma ListAligned(rs: seq<Range>)
    ensures forall x :: 0 <= x < |AllPages(rs)| ==> AllPages(rs)[x] % PAGE_SIZE == 0
  {
    forall x | 0 <= x < |AllPages(rs)|
      ensures AllPages(rs)[x] % PAGE_SIZE == 0
    {
      var i, m := PositionOf(rs, x);
      PageAt(rs, i, m);
      PageAligned(rs[i], m);
    }
  }

  lemma AddressedIff(ps: seq<Info>, rs: seq<Range>)
    requires Describes(ps, rs)
    ensures Addressed(ps) <==> NoSharedPage(rs)
  {
    DistinctIff(rs);
    if Addressed(ps) {
      forall x, y | 0 <= x < y < |AllPages(rs)|
        ensures AllPages(rs)[x] != AllPages(rs)[y]
      {
        assert ps[x].addr != ps[y].addr;
      }
    }
  }

  /** The pages of the allocator are exactly the whole pages of the available ranges. */
  ghost predicate HasPages(ps: seq<Info>, available: seq<Range>) {
    && (forall i :: 0 <= i < |ps| ==> exists k :: 0 <= k < |available| && Inside(ps[i].addr, available[k]))
    && (forall k, x :: 0 <= k < |available| && 0 <= x && Inside(x, available[k]) ==>
          exists i :: 0 <= i < |ps| && ps[i].addr == x)
  }

  /** With a sound memory map the listed pages are its whole pages. */
  lemma WholePages(ps: seq<Info>, rs: seq<Range>)
    requires Describes(ps, rs) && SoundRanges(rs)
    ensures HasPages(ps, rs)
  {
    forall x | 0 <= x < |ps|
      ensures exists k :: 0 <= k < |rs| && Inside(ps[x].addr, rs[k])
    {
      var i, m := PositionOf(rs, x);
      PageAt(rs, i, m);
      assert PagesOf(rs[i])[m] == ps[x].addr;
      PageInside(rs[i], ps[x].addr);
    }
    forall k, a | 0 <= k < |rs| && 0 <= a && Inside(a, rs[k])
      ensures exists i :: 0 <= i < |ps| && ps[i].addr == a
    {
      PageInside(rs[k], a);
      var m :| 0 <= m < PagesIn(rs[k]) && PagesOf(rs[k])[m] == a;
      PageAt(rs, k, m);
      assert ps[Position(rs, k, m)].addr == a;
    }
  }

  // ----- memory maps that go wrong

  /** Two pages from address 0 on: there is room, but at address 0, and the kernel stops. */
  method RoomAtZero() returns (a: FrameAllocator?)
    ensures a == null
    ensures FirstRoom([Range(0, 0x2000)], [], DescriptorBytes([Range(0, 0x2000)]), 0, 0)
    ensures !NoRoom([Range(0, 0x2000)], [], DescriptorBytes([Range(0, 0x2000)]))
  {
    var available, reserved: seq<Reserved> := [Range(0, 0x2000)], [];
    assert available[..0] == [] && PagesInAll(available) == 2 && DescriptorBytes(available) == 0x1000;
    assert HasRoom(0, 0x1000, available[0], reserved);
    assert FirstRoom(available, reserved, 0x1000, 0, 0);
    var meta;
    ghost var k;
    a, meta, k := Start(available, reserved);
  }

  /** A page for the descriptors, and the pages 0x2000 and 0x1000 listed in this order. */
  function ReversedMap(): seq<Range> {
    [Range(0x4000, 0x1000), Range(0x2000, 0x1000), Range(0x1000, 0x1000)]
  }

  lemma OnePage(rs: seq<Range>, b: nat, rs': seq<Range>)
    requires b % PAGE_SIZE == 0 && b + 2 * PAGE_SIZE <= U64 && rs' == rs + [Range(b, PAGE_SIZE)]
    ensures PagesInAll(rs') == PagesInAll(rs) + 1 && AllPages(rs') == AllPages(rs) + [b]
  {
    assert PagesOf(Range(b, PAGE_SIZE)) == [b] && rs'[..|rs|] == rs;
  }

  lemma ReversedPages()
    ensures PagesInAll(ReversedMap()) == 3 && AllPages(ReversedMap()) == [0x4000, 0x2000, 0x1000]
  {
    var one, two := [Range(0x4000, 0x1000)], [Range(0x4000, 0x1000), Range(0x2000, 0x1000)];
    OnePage([], 0x4000, one);
    OnePage(one, 0x2000, two);
    assert AllPages(two) == [0x4000, 0x2000];
    OnePage(two, 0x1000, ReversedMap());
  }

  lemma ReversedShareNothing()
    ensures NoSharedPage(ReversedMap())
  {
    DisjointShareNothing(ReversedMap());
  }

  lemma ReversedBytes()
    ensures DescriptorBytes(ReversedMap()) == 0x1000
  {
    ReversedPages();
  }

  lemma ReversedRoom()
    ensures FirstRoom(ReversedMap(), [], 0x1000, 0, 0x4000)
    ensures !NoRoom(ReversedMap(), [], 0x1000)
    ensures forall j: nat, s: nat :: FirstRoom(ReversedMap(), [], 0x1000, j, s) ==> j == 0 && s == 0x4000
  {
    assert HasRoom(0x4000, 0x1000, ReversedMap()[0], []);
    OneFirstRoom(ReversedMap(), [], 0x1000, 0, 0x4000);
  }

  lemma ReversedFree(ps: seq<Info>)
    requires Describes(ps, ReversedMap())
    requires forall i :: 0 <= i < |ps| ==> ps[i].isFree == !Overlaps(ps[i].addr, 0x4000, 0x5000)
    ensures FreeMemory(ps, 0x1000, 2) && forall i :: !Run(ps, i, 2)
  {
    ReversedPages();
    assert ps[1].addr == 0x2000 && ps[1].isFree && ps[2].addr == 0x1000 && ps[2].isFree;
    assert FreeAt(ps, 0x1000 + 0 * PAGE_SIZE) && FreeAt(ps, 0x1000 + 1 * PAGE_SIZE);
    forall i
      ensures !Run(ps, i, 2)
    {
      if 0 <= i < 2 {
        assert !InRun(ps, i, i + 1);
      }
    }
  }

  /** After starting from it, a request for two pages is refused though two free pages lie side by side. */
  method ReversedMisses() returns (a: FrameAllocator?, addr: nat)
    ensures a != null && a.Valid() && Describes(a.pages[..], ReversedMap())
    ensures FreeMemory(a.pages[..], 0x1000, 2) && addr == 0 && forall i :: !Run(a.pages[..], i, 2)
  {
    ReversedBytes();
    ReversedRoom();
    ReversedShareNothing();
    var meta;
    ghost var k;
    a, meta, k := Start(ReversedMap(), []);
    ReversedFree(a.pages[..]);
    ghost var first;
    addr, first := a.AllocContiguous(2);
  }
}
