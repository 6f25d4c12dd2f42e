/**
Four-level x86-64 page tables whose second level from below may hold 2 MiB entries
(arch/x86_64/vm.c; section 4.5 of the Intel SDM, volume 3A).

A new space maps its first GiB for the kernel with 2 MiB entries.  Mapping a 4 KiB
page walks down four levels, adds missing tables, adds rights to the entries on the
way, and splits a 2 MiB entry that is in the way.  The theorem is that all of this
is invisible: a mapping changes the translation of its own page and of no other
address, neither for the kernel nor for user programs.
*/
module LargePages {
  import opened Common

  const PRESENT: bv64 := 1
  const WRITABLE: bv64 := 2
  const USER: bv64 := 4
  const LARGE: bv64 := 0x80
  const NO_EXEC: bv64 := 0x8000_0000_0000_0000
  const ADDR_MASK: bv64 := 0xf_ffff_ffff_f000
  const HIGH_BITS: bv64 := 0xfff0_0000_0000_0000

  // ----- entries

  /** A physical page that holds a table. */
  datatype Page = Page(phys: bv64)

  predicate Aligned(a: Page) {
    a.phys & !ADDR_MASK == 0
  }

  datatype Entry = Entry(bits: bv64) {
    function Table(): Page {
      Page(bits & ADDR_MASK)
    }

    predicate Present() {
      bits & PRESENT != 0
    }

    predicate Writable() {
      bits & WRITABLE != 0
    }

    predicate User() {
      bits & USER != 0
    }

    predicate Large() {
      bits & LARGE != 0
    }

    /** A walk for reading or writing, by the kernel or by a user program, goes on here. */
    predicate Lets(write: bool, user: bool) {
      Present() && (write ==> Writable()) && (user ==> User())
    }

    /** The pointers to tables that the kernel makes. */
    predicate IsPointer() {
      Present() && Writable() && !Large()
    }

    /** The 2 MiB entries that the kernel makes: for itself, and without a bit above bit 51. */
    predicate MadeLarge() {
      Present() && Writable() && Large() && !User() && bits & HIGH_BITS == 0
    }
  }

  /** table_flags and page_flags */
  function TableFlags(user: bool): bv64 {
    (PRESENT | WRITABLE) | (if user then USER else 0)
  }

  function PageFlags(writable: bool, user: bool, noExec: bool): bv64 {
    ((PRESENT | (if writable then WRITABLE else 0)) | (if user then USER else 0)) | (if noExec then NO_EXEC else 0)
  }

  function Pointer(a: Page, user: bool): Entry {
    Entry(a.phys | TableFlags(user))
  }

  lemma PointerIs(a: Page, user: bool)
    requires Aligned(a)
    ensures Pointer(a, user).IsPointer() && Pointer(a, user).Table() == a && (Pointer(a, user).User() <==> user)
  {
  }

  /** `parent[index] |= table_flags(1, user)` */
  function Widened(e: Entry, user: bool): Entry {
    Entry(e.bits | TableFlags(user))
  }

  lemma WidenedIs(e: Entry, user: bool)
    requires e.IsPointer()
    ensures Widened(e, user).IsPointer() && Widened(e, user).Table() == e.Table()
    ensures Widened(e, user).User() <==> e.User() || user
  {
  }

  function Leaf(phys: bv64, writable: bool, user: bool, noExec: bool): Entry {
    Entry(phys | PageFlags(writable, user, noExec))
  }

  /** The entry of a small page leads to its frame, whatever its flags. */
  lemma LeafIs(phys: bv64, writable: bool, user: bool, noExec: bool)
    requires phys & 0xfff == 0
    ensures
      var e := Leaf(phys, writable, user, noExec);
      e.Present() && (e.Writable() <==> writable) && (e.User() <==> user) && e.bits & ADDR_MASK == phys & ADDR_MASK
  {
    FlagsIs(writable, user, noExec);
    LeafBits(phys, PageFlags(writable, user, noExec));
  }

  lemma FlagsIs(writable: bool, user: bool, noExec: bool)
    ensures
      var f := PageFlags(writable, user, noExec);
      && f & ADDR_MASK == 0 && f & PRESENT != 0 && (f & WRITABLE != 0 <==> writable) && (f & USER != 0 <==> user)
  {
  }

  lemma LeafBits(phys: bv64, f: bv64)
    requires phys & 0xfff == 0 && f & ADDR_MASK == 0
    ensures (phys | f) & ADDR_MASK == phys & ADDR_MASK
    ensures (phys | f) & PRESENT == f & PRESENT && (phys | f) & WRITABLE == f & WRITABLE
    ensures (phys | f) & USER == f & USER
  {
  }

  /** arch_vm_protect_page on the entry of a small page. */
  function Reprotected(e: Entry, writable: bool, noExec: bool): Entry {
    var w := if writable then e.bits | WRITABLE else e.bits & !WRITABLE;
    Entry(if noExec then w | NO_EXEC else w & !NO_EXEC)
  }

  lemma ReprotectedIs(e: Entry, writable: bool, noExec: bool)
    ensures
      var e' := Reprotected(e, writable, noExec);
      && (e'.Present() <==> e.Present()) && (e'.Writable() <==> writable) && (e'.User() <==> e.User())
      && e'.bits & ADDR_MASK == e.bits & ADDR_MASK
  {
  }

  // ----- addresses and tables

  /** An index into a table; tables have 512 entries. */
  datatype Slot = Slot(index: bv64)

  predicate IsSlot(s: Slot) {
    s.index < 512
  }

  /** `done` are the slots that a loop that counts up to `i` has passed. */
  ghost predicate Scanned(done: iset<Slot>, i: bv64) {
    forall s :: ScannedAt(done, i, s)
  }

  ghost predicate ScannedAt(done: iset<Slot>, i: bv64, s: Slot) {
    s in done <==> s.index < i
  }

  lemma ScanStart()
    ensures Scanned(iset{}, 0)
  {
  }

  lemma ScanNext(done: iset<Slot>, i: bv64, next: bv64)
    requires Scanned(done, i) && i < 512 && next == i + 1
    ensures Scanned(done + iset{Slot(i)}, next) && Slot(i) !in done && IsSlot(Slot(i))
  {
    assert ScannedAt(done, i, Slot(i));
    var more := done + iset{Slot(i)};
    forall s
      ensures ScannedAt(more, next, s)
    {
      assert ScannedAt(done, i, s);
      ScanNextAt(done, i, next, s);
    }
  }

  lemma ScanNextAt(done: iset<Slot>, i: bv64, next: bv64, s: Slot)
    requires ScannedAt(done, i, s) && i < 512 && next == i + 1
    ensures ScannedAt(done + iset{Slot(i)}, next, s)
  {
    NextIndex(s.index, i, next);
    assert s == Slot(s.index);
  }

  lemma NextIndex(x: bv64, i: bv64, next: bv64)
    requires i < 512 && next == i + 1
    ensures x < next <==> x < i || x == i
  {
  }

  lemma ScanEnd(done: iset<Slot>, i: bv64)
    requires Scanned(done, i) && i == 512
    ensures forall s :: s in done <==> IsSlot(s)
  {
    forall s: Slot
      ensures s in done <==> IsSlot(s)
    {
      assert ScannedAt(done, i, s);
    }
  }

  type Table = Slot -> Entry

  type Tables = map<Page, Table>

  function With(t: Table, n: Slot, e: Entry): Table {
    (s: Slot) => if s == n then e else t(s)
  }

  function ZeroTable(): Table {
    _ => Entry(0)
  }

  /** A virtual address: four table indices and the offset in the page. */
  datatype Address = Address(i4: Slot, i3: Slot, i2: Slot, i1: Slot, offset: bv64)

  predicate IsAddress(v: Address) {
    IsSlot(v.i4) && IsSlot(v.i3) && IsSlot(v.i2) && IsSlot(v.i1) && v.offset < 0x1000
  }

  function AddressOf(vaddr: bv64): Address {
    Address(Slot((vaddr >> 39) & 0x1ff), Slot((vaddr >> 30) & 0x1ff), Slot((vaddr >> 21) & 0x1ff),
            Slot((vaddr >> 12) & 0x1ff), vaddr & 0xfff)
  }

  lemma AddressIs(vaddr: bv64)
    ensures IsAddress(AddressOf(vaddr))
  {
  }

  predicate SamePage(u: Address, v: Address) {
    u.i4 == v.i4 && u.i3 == v.i3 && u.i2 == v.i2 && u.i1 == v.i1
  }

  // ----- translation

  /** Where a walk ends: at an entry of the last level, at a large entry, or nowhere. */
  datatype Hit = Small(e: Entry) | Big(e: Entry) | Nothing

  /** The last two levels of a walk, from a table that may hold large entries. */
  function WalkLow(mem: Tables, l2: Page, v: Address, write: bool, user: bool): Hit {
    if l2 !in mem || !mem[l2](v.i2).Lets(write, user) then Nothing
    else if mem[l2](v.i2).Large() then Big(mem[l2](v.i2))
    else
      var l1 := mem[l2](v.i2).Table();
      if l1 !in mem || !mem[l1](v.i1).Lets(write, user) then Nothing else Small(mem[l1](v.i1))
  }

  function Walk(mem: Tables, root: Page, v: Address, write: bool, user: bool): Hit {
    if root !in mem || !mem[root](v.i4).Lets(write, user) then Nothing
    else
      var l3 := mem[root](v.i4).Table();
      if l3 !in mem || !mem[l3](v.i3).Lets(write, user) then Nothing
      else WalkLow(mem, mem[l3](v.i3).Table(), v, write, user)
  }

  function LargeBase(e: bv64): bv64 {
    e & !0x1f_ffff
  }

  /** The physical address that a hit stands for; None stands for 0. */
  function Reaches(hit: Hit, v: Address): Option<bv64> {
    match hit
    case Small(e) => Some((e.bits & ADDR_MASK) + v.offset)
    case Big(e) => Some(LargeBase(e.bits) + (v.i1.index * 0x1000 + v.offset))
    case Nothing => None
  }

  /** arch_vm_translate */
  function Translate(mem: Tables, root: Page, v: Address, write: bool): Option<bv64> {
    Reaches(Walk(mem, root, v, write, false), v)
  }

  /** arch_vm_translate_user, which does not look into large entries. */
  function TranslateUser(mem: Tables, root: Page, v: Address, write: bool): Option<bv64> {
    var hit := Walk(mem, root, v, write, true);
    if hit.Big? then None else Reaches(hit, v)
  }

  // ----- the tables of a space form a tree

  /** The table that serves all addresses with these indices. */
  datatype Place = L4 | L3(i4: Slot) | L2(i4: Slot, i3: Slot) | L1(i4: Slot, i3: Slot, i2: Slot) {
    predicate HasChildren() {
      !L1?
    }

    function Child(s: Slot): Place
      requires HasChildren()
    {
      match this
      case L4 => L3(s)
      case L3(i4) => L2(i4, s)
      case L2(i4, i3) => L1(i4, i3, s)
    }

    function Parent(): Place
      requires !L4?
    {
      match this
      case L3(_) => L4
      case L2(i4, _) => L3(i4)
      case L1(i4, i3, _) => L2(i4, i3)
    }

    /** The number of levels of tables below. */
    function Levels(): nat {
      match this
      case L4 => 3
      case L3(_) => 2
      case L2(_, _) => 1
      case L1(_, _, _) => 0
    }

    function Last(): Slot
      requires !L4?
    {
      match this
      case L3(i4) => i4
      case L2(_, i3) => i3
      case L1(_, _, i2) => i2
    }
  }

  /** `place` and `role` are inverse, so that no table is reached in two ways. */
  ghost predicate Placed(mem: Tables, root: Page, place: map<Place, Page>, role: map<Page, Place>) {
    && L4 in place && place[L4] == root
    && (forall p :: p in place ==> place[p] in mem && place[p] in role && role[place[p]] == p)
    && (forall a :: a in mem ==> a in role && role[a] in place && place[role[a]] == a)
    && (forall p :: p in place && !p.L4? ==> p.Parent() in place && IsSlot(p.Last()))
  }

  /** Entry `s` of the table at place `p` points to the table at that child place, or is large, or is not present. */
  ghost predicate LinkAt(mem: Tables, place: map<Place, Page>, p: Place, s: Slot) {
    p in place && place[p] in mem && p.HasChildren() ==>
      var e := mem[place[p]](s);
      if p.Child(s) in place then e.IsPointer() && e.Table() == place[p.Child(s)]
      else e.Present() ==> p.L2? && e.Large()
  }

  ghost predicate Shaped(mem: Tables, root: Page, place: map<Place, Page>, role: map<Page, Place>) {
    && Placed(mem, root, place, role)
    && (forall p, s :: IsSlot(s) ==> LinkAt(mem, place, p, s))
  }

  /** What user programs may pass has an entry above it that they may pass. */
  ghost predicate UserAt(mem: Tables, place: map<Place, Page>, p: Place, s: Slot) {
    p in place && !p.L4? && p.Parent() in place && place[p] in mem && place[p.Parent()] in mem ==>
      mem[place[p]](s).Present() && mem[place[p]](s).User() ==> mem[place[p.Parent()]](p.Last()).User()
  }

  /** A large entry is one that the kernel makes. */
  ghost predicate LargeAt(mem: Tables, place: map<Place, Page>, p: Place, s: Slot) {
    p in place && p.L2? && place[p] in mem && p.Child(s) !in place && mem[place[p]](s).Present() ==>
      mem[place[p]](s).MadeLarge()
  }

  ghost predicate Tree(mem: Tables, root: Page, place: map<Place, Page>, role: map<Page, Place>) {
    && Shaped(mem, root, place, role)
    && (forall p, s :: IsSlot(s) ==> UserAt(mem, place, p, s))
    && (forall p, s :: IsSlot(s) ==> LargeAt(mem, place, p, s))
  }

  /** The present entry that the walk of `v` ends at if it is let through everywhere. */
  ghost function Final(mem: Tables, place: map<Place, Page>, v: Address): Hit {
    var p1, p2 := L1(v.i4, v.i3, v.i2), L2(v.i4, v.i3);
    if p1 in place then
      if place[p1] in mem && mem[place[p1]](v.i1).Present() then Small(mem[place[p1]](v.i1)) else Nothing
    else if p2 in place && place[p2] in mem && mem[place[p2]](v.i2).Present() then Big(mem[place[p2]](v.i2))
    else Nothing
  }

  function Let(hit: Hit, write: bool, user: bool): Hit {
    if hit.Nothing? || !hit.e.Lets(write, user) then Nothing else hit
  }

  /** The entries above the final one let through all that it lets through, so the walk is decided by that one entry. */
  lemma WalkIsFinal(mem: Tables, root: Page, place: map<Place, Page>, role: map<Page, Place>, v: Address, write: bool,
                    user: bool)
    requires Tree(mem, root, place, role) && IsAddress(v)
    ensures Walk(mem, root, v, write, user) == Let(Final(mem, place, v), write, user)
  {
    var p3, p2, p1 := L3(v.i4), L2(v.i4, v.i3), L1(v.i4, v.i3, v.i2);
    assert p1 in place ==> p1.Parent() == p2;
    assert p2 in place ==> p2.Parent() == p3;
    assert LinkAt(mem, place, L4, v.i4) && UserAt(mem, place, p3, v.i3);
    assert LinkAt(mem, place, p3, v.i3) && UserAt(mem, place, p2, v.i2);
    assert LinkAt(mem, place, p2, v.i2) && UserAt(mem, place, p1, v.i1) && LargeAt(mem, place, p2, v.i2);
  }

  // ----- views

  /** Address `u` is translated in `mem'` as in `mem`, for the kernel and for user programs. */
  ghost predicate SameAt(mem: Tables, mem': Tables, root: Page, u: Address) {
    forall write :: Translate(mem', root, u, write) == Translate(mem, root, u, write)
                    && TranslateUser(mem', root, u, write) == TranslateUser(mem, root, u, write)
  }

  ghost predicate SameView(mem: Tables, mem': Tables, root: Page) {
    forall u :: IsAddress(u) ==> SameAt(mem, mem', root, u)
  }

  lemma SameFinal(mem: Tables, place: map<Place, Page>, role: map<Page, Place>, mem': Tables, place': map<Place, Page>,
                  role': map<Page, Place>, root: Page, u: Address)
    requires Tree(mem, root, place, role) && Tree(mem', root, place', role') && IsAddress(u)
    requires Final(mem', place', u) == Final(mem, place, u)
    ensures SameAt(mem, mem', root, u)
  {
    forall write
      ensures Translate(mem', root, u, write) == Translate(mem, root, u, write)
              && TranslateUser(mem', root, u, write) == TranslateUser(mem, root, u, write)
    {
      WalkIsFinal(mem, root, place, role, u, write, false);
      WalkIsFinal(mem, root, place, role, u, write, true);
      WalkIsFinal(mem', root, place', role', u, write, false);
      WalkIsFinal(mem', root, place', role', u, write, true);
    }
  }

  lemma SameViewTrans(a: Tables, b: Tables, c: Tables, root: Page)
    requires SameView(a, b, root) && SameView(b, c, root)
    ensures SameView(a, c, root)
  {
    forall u | IsAddress(u)
      ensures SameAt(a, c, root, u)
    {
      assert SameAt(a, b, root, u) && SameAt(b, c, root, u);
    }
  }

  // ----- writing one entry

  function Set(mem: Tables, a: Page, s: Slot, e: Entry): Tables
    requires a in mem
  {
    mem[a := With(mem[a], s, e)]
  }

  lemma SetPlaced(mem: Tables, root: Page, place: map<Place, Page>, role: map<Page, Place>, p: Place, s: Slot, e: Entry)
    requires Placed(mem, root, place, role) && p in place
    ensures Placed(Set(mem, place[p], s, e), root, place, role)
    ensures forall q, r :: q in place ==>
                             Set(mem, place[p], s, e)[place[q]](r) == if q == p && r == s then e else mem[place[q]](r)
  {
  }

  /** User programs that may come to the table at `p` if `user` is set. */
  ghost predicate UserAbove(mem: Tables, place: map<Place, Page>, p: Place, user: bool)
    requires p in place
  {
    user && !p.L4? ==>
      p.Parent() in place && place[p.Parent()] in mem && mem[place[p.Parent()]](p.Last()).User()
  }

  /** Adding rights to a pointer. */
  lemma WidenKeeps(mem: Tables, root: Page, place: map<Place, Page>, role: map<Page, Place>, p: Place, s: Slot,
                   user: bool)
    requires Tree(mem, root, place, role) && p in place && p.HasChildren() && IsSlot(s) && p.Child(s) in place
    requires UserAbove(mem, place, p, user)
    ensures
      var mem' := Set(mem, place[p], s, Widened(mem[place[p]](s), user));
      && Tree(mem', root, place, role) && SameView(mem, mem', root)
      && mem'[place[p]](s).User() == (mem[place[p]](s).User() || user)
  {
    assert LinkAt(mem, place, p, s);
    WidenedIs(mem[place[p]](s), user);
    var mem' := Set(mem, place[p], s, Widened(mem[place[p]](s), user));
    SetPlaced(mem, root, place, role, p, s, Widened(mem[place[p]](s), user));
    WidenTree(mem, mem', root, place, role, p, s);
    forall u | IsAddress(u)
      ensures SameAt(mem, mem', root, u)
    {
      assert L1(u.i4, u.i3, u.i2) in place ==> L1(u.i4, u.i3, u.i2) != p;
      assert L2(u.i4, u.i3) == p && u.i2 == s ==> L1(u.i4, u.i3, u.i2) == p.Child(s);
      SameFinal(mem, place, role, mem', place, role, root, u);
    }
  }

  lemma WidenTree(mem: Tables, mem': Tables, root: Page, place: map<Place, Page>, role: map<Page, Place>, p: Place,
                  s: Slot)
    requires Tree(mem, root, place, role) && Placed(mem', root, place, role)
    requires p in place && p.HasChildren() && IsSlot(s) && p.Child(s) in place
    requires forall q, r :: q in place && !(q == p && r == s) ==> mem'[place[q]](r) == mem[place[q]](r)
    requires
      var e, e' := mem[place[p]](s), mem'[place[p]](s);
      && e'.IsPointer() && e'.Table() == e.Table() && (e.User() ==> e'.User())
      && (e'.User() && !e.User() && !p.L4? ==> mem[place[p.Parent()]](p.Last()).User())
    ensures Tree(mem', root, place, role)
  {
    forall q, r | IsSlot(r)
      ensures LinkAt(mem', place, q, r) && UserAt(mem', place, q, r) && LargeAt(mem', place, q, r)
    {
      assert LinkAt(mem, place, q, r) && UserAt(mem, place, q, r) && LargeAt(mem, place, q, r);
      assert LinkAt(mem, place, p, s) && UserAt(mem, place, p, s);
    }
  }

  // ----- adding a table

  /** A new table `t` at page `a`, with the pointer `e` to it in entry `s` of the table at `b`. */
  function Hung(mem: Tables, b: Page, s: Slot, a: Page, t: Table, e: Entry): Tables
    requires b in mem
  {
    mem[a := t][b := With(mem[b], s, e)]
  }

  /** A place for a new table that changes no link but its own. */
  ghost predicate CanHang(mem: Tables, root: Page, place: map<Place, Page>, role: map<Page, Place>, p: Place, s: Slot,
                          a: Page, t: Table, e: Entry)
  {
    && Tree(mem, root, place, role) && p in place && p.HasChildren() && IsSlot(s) && p.Child(s) !in place && a !in mem
    && e.IsPointer() && e.Table() == a && UserAbove(mem, place, p, e.User())
    && (forall r :: IsSlot(r) && t(r).Present() ==> p.L2? && (t(r).User() ==> e.User()))
  }

  lemma HungPlaced(mem: Tables, root: Page, place: map<Place, Page>, role: map<Page, Place>, p: Place, s: Slot, a: Page,
                   t: Table, e: Entry)
    requires CanHang(mem, root, place, role, p, s, a, t, e)
    ensures
      var mem', c := Hung(mem, place[p], s, a, t, e), p.Child(s);
      && Placed(mem', root, place[c := a], role[a := c]) && mem'[a] == t
      && forall q, r :: q in place ==>
           place[q] != a && mem'[place[q]](r) == if q == p && r == s then e else mem[place[q]](r)
  {
    var c := p.Child(s);
    assert c.Parent() == p && c.Last() == s;
  }

  lemma HungTree(mem: Tables, root: Page, place: map<Place, Page>, role: map<Page, Place>, p: Place, s: Slot, a: Page,
                 t: Table, e: Entry)
    requires CanHang(mem, root, place, role, p, s, a, t, e)
    ensures Tree(Hung(mem, place[p], s, a, t, e), root, place[p.Child(s) := a], role[a := p.Child(s)])
  {
    HungPlaced(mem, root, place, role, p, s, a, t, e);
    var mem', place' := Hung(mem, place[p], s, a, t, e), place[p.Child(s) := a];
    forall q, r | IsSlot(r)
      ensures LinkAt(mem', place', q, r) && UserAt(mem', place', q, r) && LargeAt(mem', place', q, r)
    {
      if q == p.Child(s) {
        NewTableOk(mem, root, place, role, p, s, a, t, e, r);
      } else {
        OldTableOk(mem, root, place, role, p, s, a, t, e, q, r);
      }
    }
  }

  /** Nothing hangs under a place where nothing is. */
  lemma NoGrandchild(mem: Tables, root: Page, place: map<Place, Page>, role: map<Page, Place>, c: Place, r: Slot)
    requires Placed(mem, root, place, role) && c !in place && c.HasChildren()
    ensures c.Child(r) !in place
  {
    assert c.Child(r).Parent() == c;
  }

  lemma NewTableOk(mem: Tables, root: Page, place: map<Place, Page>, role: map<Page, Place>, p: Place, s: Slot, a: Page,
                   t: Table, e: Entry, r: Slot)
    requires CanHang(mem, root, place, role, p, s, a, t, e) && IsSlot(r)
    ensures
      var mem', place', c := Hung(mem, place[p], s, a, t, e), place[p.Child(s) := a], p.Child(s);
      LinkAt(mem', place', c, r) && UserAt(mem', place', c, r) && LargeAt(mem', place', c, r)
  {
    var c := p.Child(s);
    HungPlaced(mem, root, place, role, p, s, a, t, e);
    assert c.Parent() == p && c.Last() == s;
    if c.HasChildren() {
      NoGrandchild(mem, root, place, role, c, r);
      assert c.Child(r) != c;
    }
  }

  /** Only the new table is the child at its place. */
  lemma OnlyChild(p: Place, s: Slot, q: Place, r: Slot)
    requires p.HasChildren() && q.HasChildren() && q.Child(r) == p.Child(s)
    ensures q == p && r == s
  {
    assert q == q.Child(r).Parent() && p == p.Child(s).Parent();
  }

  lemma OldTableOk(mem: Tables, root: Page, place: map<Place, Page>, role: map<Page, Place>, p: Place, s: Slot, a: Page,
                   t: Table, e: Entry, q: Place, r: Slot)
    requires CanHang(mem, root, place, role, p, s, a, t, e) && IsSlot(r) && q != p.Child(s)
    ensures
      var mem', place' := Hung(mem, place[p], s, a, t, e), place[p.Child(s) := a];
      LinkAt(mem', place', q, r) && UserAt(mem', place', q, r) && LargeAt(mem', place', q, r)
  {
    if q in place {
      HungPlaced(mem, root, place, role, p, s, a, t, e);
      OldLinkOk(mem, root, place, role, p, s, a, t, e, q, r);
      OldUserOk(mem, root, place, role, p, s, a, t, e, q, r);
    }
  }

  lemma OldLinkOk(mem: Tables, root: Page, place: map<Place, Page>, role: map<Page, Place>, p: Place, s: Slot, a: Page,
                  t: Table, e: Entry, q: Place, r: Slot)
    requires CanHang(mem, root, place, role, p, s, a, t, e) && IsSlot(r) && q in place
    ensures
      var mem', place' := Hung(mem, place[p], s, a, t, e), place[p.Child(s) := a];
      LinkAt(mem', place', q, r) && LargeAt(mem', place', q, r)
  {
    HungPlaced(mem, root, place, role, p, s, a, t, e);
    assert LinkAt(mem, place, q, r) && LargeAt(mem, place, q, r);
    if q.HasChildren() && q.Child(r) == p.Child(s) {
      OnlyChild(p, s, q, r);
    }
  }

  lemma OldUserOk(mem: Tables, root: Page, place: map<Place, Page>, role: map<Page, Place>, p: Place, s: Slot, a: Page,
                  t: Table, e: Entry, q: Place, r: Slot)
    requires CanHang(mem, root, place, role, p, s, a, t, e) && IsSlot(r) && q in place
    ensures UserAt(Hung(mem, place[p], s, a, t, e), place[p.Child(s) := a], q, r)
  {
    HungPlaced(mem, root, place, role, p, s, a, t, e);
    assert UserAt(mem, place, q, r);
    assert !q.L4? ==> q.Parent() in place && q == q.Parent().Child(q.Last());
  }

  /** What addresses that come to the new table find, and that no other address finds anything new. */
  lemma HungFinal(mem: Tables, root: Page, place: map<Place, Page>, role: map<Page, Place>, p: Place, s: Slot, a: Page,
                  t: Table, e: Entry, u: Address)
    requires CanHang(mem, root, place, role, p, s, a, t, e) && IsAddress(u)
    ensures
      var hit := Final(Hung(mem, place[p], s, a, t, e), place[p.Child(s) := a], u);
      if L1(u.i4, u.i3, u.i2) == p.Child(s) then hit == if t(u.i1).Present() then Small(t(u.i1)) else Nothing
      else hit == Final(mem, place, u)
  {
    HungPlaced(mem, root, place, role, p, s, a, t, e);
    var p1, p2, c := L1(u.i4, u.i3, u.i2), L2(u.i4, u.i3), p.Child(s);
    var mem', place' := Hung(mem, place[p], s, a, t, e), place[c := a];
    if p1 == c {
      assert place'[p1] == a && mem'[a] == t;
    } else if p1 in place {
      assert p1 != p && place'[p1] == place[p1] && mem'[place[p1]](u.i1) == mem[place[p1]](u.i1);
    } else {
      assert p1 !in place' && (p2 == p ==> u.i2 != s);
      HungAbove(mem, root, place, role, p, s, a, t, e, p2, u.i2);
    }
  }

  lemma HungAbove(mem: Tables, root: Page, place: map<Place, Page>, role: map<Page, Place>, p: Place, s: Slot, a: Page,
                  t: Table, e: Entry, q: Place, r: Slot)
    requires CanHang(mem, root, place, role, p, s, a, t, e) && q.L2? && !(q == p && r == s) && IsSlot(r)
    ensures
      var mem', place' := Hung(mem, place[p], s, a, t, e), place[p.Child(s) := a];
      && (q in place ==> q in place' && place'[q] in mem' && place[q] in mem && mem'[place'[q]](r) == mem[place[q]](r))
      && (q !in place && q in place' ==> place'[q] in mem' && !mem'[place'[q]](r).Present())
  {
    HungPlaced(mem, root, place, role, p, s, a, t, e);
    if q !in place && q == p.Child(s) {
      assert p.L3?;
    }
  }

  /** ensure_table adding an empty table. */
  lemma HangKeeps(mem: Tables, root: Page, place: map<Place, Page>, role: map<Page, Place>, p: Place, s: Slot, a: Page,
                  user: bool)
    requires Tree(mem, root, place, role) && p in place && p.HasChildren() && IsSlot(s) && p.Child(s) !in place
    requires !mem[place[p]](s).Present() && a !in mem && Aligned(a) && UserAbove(mem, place, p, user)
    ensures
      var mem' := Hung(mem, place[p], s, a, ZeroTable(), Pointer(a, user));
      var place', role' := place[p.Child(s) := a], role[a := p.Child(s)];
      && Tree(mem', root, place', role') && SameView(mem, mem', root) && mem'[place[p]](s).User() == user
  {
    PointerIs(a, user);
    var e := Pointer(a, user);
    assert !Entry(0).Present();
    assert CanHang(mem, root, place, role, p, s, a, ZeroTable(), e);
    HungTree(mem, root, place, role, p, s, a, ZeroTable(), e);
    HungPlaced(mem, root, place, role, p, s, a, ZeroTable(), e);
    var mem', place', role' := Hung(mem, place[p], s, a, ZeroTable(), e), place[p.Child(s) := a], role[a := p.Child(s)];
    forall u | IsAddress(u)
      ensures SameAt(mem, mem', root, u)
    {
      HungFinal(mem, root, place, role, p, s, a, ZeroTable(), e, u);
      assert L1(u.i4, u.i3, u.i2) == p.Child(s) ==> p == L2(u.i4, u.i3) && s == u.i2;
      SameFinal(mem, place, role, mem', place', role', root, u);
    }
  }

  // ----- splitting a large page

  function SplitFlags(e: bv64): bv64 {
    ((e & 0xfff) & !LARGE) | PRESENT
  }

  /** Entry `i` of the table that takes the place of a large entry. */
  function SmallEntry(e: Entry, i: bv64): Entry {
    Entry((LargeBase(e.bits) + i * 0x1000) | SplitFlags(e.bits))
  }

  /** The entry that points to that table. */
  function SplitPointer(e: Entry, a: Page): Entry {
    Entry(a.phys | SplitFlags(e.bits))
  }

  /** The table `t` holds the small pages of the large entry `e`. */
  ghost predicate IsSplit(t: Table, e: Entry) {
    forall s: Slot :: IsSlot(s) ==> t(s) == SmallEntry(e, s.index)
  }

  /** The loop of split_large_page and that of arch_vm_space_init: entry `i` becomes `f(i)`. */
  method Filled(f: bv64 -> Entry) returns (t: Table)
    ensures forall s :: IsSlot(s) ==> t(s) == f(s.index)
  {
    t := ZeroTable();
    var i: bv64 := 0;
    ghost var done := iset{};
    ScanStart();
    while i < 512
      invariant i <= 512 && Scanned(done, i) && forall s :: s in done ==> t(s) == f(s.index)
      decreases 512 - i
    {
      ScanNext(done, i, i + 1);
      t := With(t, Slot(i), f(i));
      done := done + iset{Slot(i)};
      i := i + 1;
    }
    ScanEnd(done, i);
  }

  method FillTable(e: Entry) returns (t: Table)
    ensures IsSplit(t, e)
  {
    t := Filled(i => SmallEntry(e, i));
  }

  /** A large page and the small page in its place lead to the same address, but for the bits above bit 51. */
  lemma SmallAddress(e: Entry, v: Address)
    requires IsAddress(v)
    ensures Reaches(Small(SmallEntry(e, v.i1.index)), v) == Reaches(Big(e), v) <==> e.bits & HIGH_BITS == 0
  {
  }

  /** The small pages have the rights of the large one. */
  lemma SmallIs(e: Entry, i: bv64)
    requires i < 512
    ensures SmallEntry(e, i).Present() && SmallEntry(e, i).Writable() == e.Writable()
    ensures SmallEntry(e, i).User() == e.User()
  {
  }

  /**
  When splitting keeps the translation of a page, for any large entry: exactly if
  the kernel is not let through or there is no bit above bit 51, and exactly if user
  programs are not let through.
  */
  lemma SplitIff(e: Entry, v: Address, write: bool)
    requires IsAddress(v) && e.Present()
    ensures Reaches(Let(Small(SmallEntry(e, v.i1.index)), write, false), v) == Reaches(Let(Big(e), write, false), v)
            <==> !e.Lets(write, false) || e.bits & HIGH_BITS == 0
    ensures Reaches(Let(Small(SmallEntry(e, v.i1.index)), write, true), v) == None <==> !e.Lets(write, true)
  {
    SmallIs(e, v.i1.index);
    SmallAddress(e, v);
  }

  lemma SplitPointerIs(e: Entry, a: Page)
    requires Aligned(a) && e.Writable()
    ensures SplitPointer(e, a).IsPointer() && SplitPointer(e, a).Table() == a && SplitPointer(e, a).User() == e.User()
  {
  }

  /** Splitting an entry that the kernel made shows nothing new to anybody. */
  lemma SplitKeeps(mem: Tables, root: Page, place: map<Place, Page>, role: map<Page, Place>, p: Place, s: Slot, a: Page,
                   t: Table)
    requires Tree(mem, root, place, role) && p in place && p.L2? && IsSlot(s) && p.Child(s) !in place
    requires mem[place[p]](s).Present() && a !in mem && Aligned(a) && IsSplit(t, mem[place[p]](s))
    ensures
      var e := SplitPointer(mem[place[p]](s), a);
      var mem', place', role' := Hung(mem, place[p], s, a, t, e), place[p.Child(s) := a], role[a := p.Child(s)];
      Tree(mem', root, place', role') && SameView(mem, mem', root) && !mem'[place[p]](s).User()
  {
    var large := mem[place[p]](s);
    assert LargeAt(mem, place, p, s);
    SplitPointerIs(large, a);
    var e := SplitPointer(large, a);
    forall r | IsSlot(r)
      ensures !t(r).User()
    {
      SmallIs(large, r.index);
    }
    assert CanHang(mem, root, place, role, p, s, a, t, e);
    HungTree(mem, root, place, role, p, s, a, t, e);
    HungPlaced(mem, root, place, role, p, s, a, t, e);
    var mem', place', role' := Hung(mem, place[p], s, a, t, e), place[p.Child(s) := a], role[a := p.Child(s)];
    forall u | IsAddress(u)
      ensures SameAt(mem, mem', root, u)
    {
      HungFinal(mem, root, place, role, p, s, a, t, e, u);
      if L1(u.i4, u.i3, u.i2) == p.Child(s) {
        SplitPage(mem, place, role, mem', place', role', root, u, large);
      } else {
        SameFinal(mem, place, role, mem', place', role', root, u);
      }
    }
  }

  lemma SplitPage(mem: Tables, place: map<Place, Page>, role: map<Page, Place>, mem': Tables, place': map<Place, Page>,
                  role': map<Page, Place>, root: Page, u: Address, large: Entry)
    requires Tree(mem, root, place, role) && Tree(mem', root, place', role') && IsAddress(u) && large.MadeLarge()
    requires Final(mem, place, u) == Big(large) && Final(mem', place', u) == Small(SmallEntry(large, u.i1.index))
    ensures SameAt(mem, mem', root, u)
  {
    SmallIs(large, u.i1.index);
    SmallAddress(large, u);
    forall write
      ensures Translate(mem', root, u, write) == Translate(mem, root, u, write)
              && TranslateUser(mem', root, u, write) == TranslateUser(mem, root, u, write)
    {
      WalkIsFinal(mem, root, place, role, u, write, false);
      WalkIsFinal(mem, root, place, role, u, write, true);
      WalkIsFinal(mem', root, place', role', u, write, false);
      WalkIsFinal(mem', root, place', role', u, write, true);
    }
  }

  // ----- the entry of a small page

  /** The translations of a page whose entry is `e`. */
  ghost predicate ShowsEntry(mem: Tables, root: Page, u: Address, e: Entry) {
    forall write ::
      && Translate(mem, root, u, write) == Reaches(Let(if e.Present() then Small(e) else Nothing, write, false), u)
      && TranslateUser(mem, root, u, write) == Reaches(Let(if e.Present() then Small(e) else Nothing, write, true), u)
  }

  /** Page `v` has entry `e`, and all other addresses are translated as before. */
  ghost predicate OnlyPage(mem: Tables, mem': Tables, root: Page, v: Address, e: Entry) {
    forall u :: IsAddress(u) ==> if SamePage(u, v) then ShowsEntry(mem', root, u, e) else SameAt(mem, mem', root, u)
  }

  lemma LeafTree(mem: Tables, root: Page, place: map<Place, Page>, role: map<Page, Place>, p: Place, s: Slot, e: Entry)
    requires Tree(mem, root, place, role) && p in place && p.L1? && IsSlot(s)
    requires e.Present() && e.User() ==> UserAbove(mem, place, p, true)
    ensures Tree(Set(mem, place[p], s, e), root, place, role)
  {
    SetPlaced(mem, root, place, role, p, s, e);
    var mem' := Set(mem, place[p], s, e);
    forall q, r | IsSlot(r)
      ensures LinkAt(mem', place, q, r) && UserAt(mem', place, q, r) && LargeAt(mem', place, q, r)
    {
      assert LinkAt(mem, place, q, r) && UserAt(mem, place, q, r) && LargeAt(mem, place, q, r);
    }
  }

  lemma EntryShows(mem: Tables, root: Page, place: map<Place, Page>, role: map<Page, Place>, u: Address, e: Entry)
    requires Tree(mem, root, place, role) && IsAddress(u) && L1(u.i4, u.i3, u.i2) in place
    requires mem[place[L1(u.i4, u.i3, u.i2)]](u.i1) == e
    ensures ShowsEntry(mem, root, u, e)
  {
    forall write
      ensures Translate(mem, root, u, write) == Reaches(Let(if e.Present() then Small(e) else Nothing, write, false), u)
      ensures TranslateUser(mem, root, u, write)
           == Reaches(Let(if e.Present() then Small(e) else Nothing, write, true), u)
    {
      WalkIsFinal(mem, root, place, role, u, write, false);
      WalkIsFinal(mem, root, place, role, u, write, true);
    }
  }

  lemma LeafSets(mem: Tables, root: Page, place: map<Place, Page>, role: map<Page, Place>, v: Address, e: Entry)
    requires Tree(mem, root, place, role) && IsAddress(v) && L1(v.i4, v.i3, v.i2) in place
    requires e.Present() && e.User() ==> UserAbove(mem, place, L1(v.i4, v.i3, v.i2), true)
    ensures
      var mem' := Set(mem, place[L1(v.i4, v.i3, v.i2)], v.i1, e);
      Tree(mem', root, place, role) && OnlyPage(mem, mem', root, v, e)
  {
    var p := L1(v.i4, v.i3, v.i2);
    var mem' := Set(mem, place[p], v.i1, e);
    LeafTree(mem, root, place, role, p, v.i1, e);
    SetPlaced(mem, root, place, role, p, v.i1, e);
    forall u | IsAddress(u)
      ensures if SamePage(u, v) then ShowsEntry(mem', root, u, e) else SameAt(mem, mem', root, u)
    {
      if SamePage(u, v) {
        EntryShows(mem', root, place, role, u, e);
      } else {
        SameFinal(mem, place, role, mem', place, role, root, u);
      }
    }
  }

  lemma ThenOnlyPage(a: Tables, b: Tables, c: Tables, root: Page, v: Address, e: Entry)
    requires SameView(a, b, root) && OnlyPage(b, c, root, v, e)
    ensures OnlyPage(a, c, root, v, e)
  {
    forall u | IsAddress(u)
      ensures if SamePage(u, v) then ShowsEntry(c, root, u, e) else SameAt(a, c, root, u)
    {
      assert SameAt(a, b, root, u);
      assert if SamePage(u, v) then ShowsEntry(c, root, u, e) else SameAt(b, c, root, u);
    }
  }

  // ----- operations

  /** The number of tables that a mapping of `v` still needs. */
  ghost function Missing(place: map<Place, Page>, v: Address): nat {
    if L3(v.i4) !in place then 3
    else if L2(v.i4, v.i3) !in place then 2
    else if L1(v.i4, v.i3, v.i2) !in place then 1
    else 0
  }

  /** `now` has the tables of `was`, and perhaps one at `c`. */
  ghost predicate OnlyAdds(was: map<Place, Page>, now: map<Place, Page>, c: Place) {
    forall q :: q != c ==> (q in now <==> q in was) && (q in was ==> now[q] == was[q])
  }

  lemma DirectoryIs(was: map<Place, Page>, mid: map<Place, Page>, now: map<Place, Page>, v: Address, n: nat, n': nat,
                    left: nat, found: bool)
    requires L1(v.i4, v.i3, v.i2) in was ==> L2(v.i4, v.i3) in was
    requires L2(v.i4, v.i3) in was ==> L3(v.i4) in was
    requires OnlyAdds(was, mid, L3(v.i4)) && L3(v.i4) in mid && n' == n - if L3(v.i4) !in was then 1 else 0
    requires OnlyAdds(mid, now, L2(v.i4, v.i3)) && left == n' - if L2(v.i4, v.i3) !in mid && found then 1 else 0
    requires found <==> L2(v.i4, v.i3) in mid || n' != 0
    requires found ==> L2(v.i4, v.i3) in now
    ensures found <==> L2(v.i4, v.i3) in was || n >= Missing(was, v) - 1
    ensures found ==> Missing(now, v) == (if L1(v.i4, v.i3, v.i2) in was then 0 else 1)
    ensures found ==> left == n - (Missing(was, v) - Missing(now, v))
  {
    var p3, p2, p1 := L3(v.i4), L2(v.i4, v.i3), L1(v.i4, v.i3, v.i2);
    assert p2 != p3 && (p2 in mid <==> p2 in was);
    assert p1 != p3 && p1 != p2 && (p1 in mid <==> p1 in was) && (p1 in now <==> p1 in mid);
    assert p3 != p2 && (p3 in now <==> p3 in mid);
  }

  class Space {
    var root: Page
    var mem: Tables
    var pool: set<Page>
    ghost var place: map<Place, Page>
    ghost var role: map<Page, Place>

    ghost predicate Ready()
      reads this
    {
      && Tree(mem, root, place, role)
      && pool !! mem.Keys
      && forall a :: a in pool ==> Aligned(a)
    }

    method AddTable(ghost p: Place, parent: Page, s: Slot, user: bool) returns (a: Page)
      requires Ready() && p in place && place[p] == parent && p.HasChildren() && IsSlot(s)
      requires UserAbove(mem, place, p, user)
      requires p.Child(s) !in place && !mem[parent](s).Present() && pool != {}
      modifies this
      ensures Ready() && root == old(root) && SameView(old(mem), mem, root)
      ensures place == old(place)[p.Child(s) := a] && mem[parent](s).User() == user && |pool| == |old(pool)| - 1
    {
      a :| a in pool;
      HangKeeps(mem, root, place, role, p, s, a, user);
      Install(p, parent, s, a, ZeroTable(), Pointer(a, user));
    }

    /** A page becomes the table `t`, and entry `s` of its parent becomes the pointer `e` to it. */
    method Install(ghost p: Place, parent: Page, s: Slot, a: Page, t: Table, e: Entry)
      requires a in pool && parent in mem && p.HasChildren() && pool !! mem.Keys && forall b :: b in pool ==> Aligned(b)
      requires Tree(Hung(mem, parent, s, a, t, e), root, place[p.Child(s) := a], role[a := p.Child(s)])
      modifies this
      ensures Ready() && root == old(root) && mem == Hung(old(mem), parent, s, a, t, e)
      ensures place == old(place)[p.Child(s) := a] && pool == old(pool) - {a} && |pool| == |old(pool)| - 1
    {
      pool := pool - {a};
      mem := Hung(mem, parent, s, a, t, e);
      place, role := place[p.Child(s) := a], role[a := p.Child(s)];
      assert mem.Keys == old(mem.Keys) + {a};
    }

    /** A space that has no tables yet, and the pages that tables can be made of. */
    constructor (pool: set<Page>)
      ensures mem == map[] && this.pool == pool
    {
      root, mem, this.pool, place, role := Page(0), map[], pool, map[], map[];
    }

    /** alloc_table, without the clearing. */
    method TakePage() returns (a: Option<Page>)
      modifies this`pool
      ensures a.None? <==> old(pool) == {}
      ensures a.None? ==> pool == old(pool)
      ensures a.Some? ==> a.value in old(pool) && pool == old(pool) - {a.value} && |pool| == |old(pool)| - 1
    {
      if pool == {} {
        return None;
      }
      var b :| b in pool;
      pool := pool - {b};
      return Some(b);
    }

    /** arch_vm_space_init.  Without pages for all three tables it fails, and keeps those that it got. */
    method Init() returns (ok: bool)
      requires mem == map[] && forall a :: a in pool ==> Aligned(a)
      modifies this
      ensures ok <==> |old(pool)| >= 3
      ensures ok ==> Ready() && Stock() == old(pool) && forall u :: IsAddress(u) ==> ShowsIdentity(mem, root, u)
      ensures !ok ==> pool == {} && mem == map[]
    {
      var l4, l3, l2 := TakeThree();
      if l4.None? || l3.None? || l2.None? {
        return false;
      }
      Build(l4.value, l3.value, l2.value);
      return true;
    }

    method TakeThree() returns (a: Option<Page>, b: Option<Page>, c: Option<Page>)
      modifies this`pool
      ensures a.Some? && b.Some? && c.Some? <==> |old(pool)| >= 3
      ensures if a.Some? && b.Some? && c.Some? then
                && pool == old(pool) - {a.value, b.value, c.value} && {a.value, b.value, c.value} <= old(pool)
                && a.value != b.value && a.value != c.value && b.value != c.value
              else pool == {}
    {
      a := TakePage();
      b := TakePage();
      c := TakePage();
    }

    method Build(l4: Page, l3: Page, l2: Page)
      requires l4 != l3 && l4 != l2 && l3 != l2 && Aligned(l4) && Aligned(l3) && Aligned(l2)
      requires l4 !in pool && l3 !in pool && l2 !in pool && forall a :: a in pool ==> Aligned(a)
      modifies this`root, this`mem, this`place, this`role
      ensures Ready() && mem.Keys == {l4, l3, l2} && forall u :: IsAddress(u) ==> ShowsIdentity(mem, root, u)
    {
      var t := FillDirectory();
      root, mem := l4, NewTables(l4, l3, l2, t);
      place, role := map[L4 := l4, L3(Slot(0)) := l3, L2(Slot(0), Slot(0)) := l2],
                     map[l4 := L4, l3 := L3(Slot(0)), l2 := L2(Slot(0), Slot(0))];
      NewIsTree(l4, l3, l2, t);
      forall u | IsAddress(u)
        ensures ShowsIdentity(mem, root, u)
      {
        NewShows(l4, l3, l2, t, u);
      }
    }

    /** All pages that are tables or could become tables. */
    ghost function Stock(): set<Page>
      reads this
    {
      mem.Keys + pool
    }

    /** pmm_page_free_addr: a page must not be freed twice. */
    method FreePage(a: Page)
      requires a in mem && a !in pool
      modifies this`mem, this`pool
      ensures mem == old(mem) - {a} && pool == old(pool) + {a}
    {
      mem, pool := mem - {a}, pool + {a};
    }

    /** A loop of arch_vm_space_destroy over the entries of table `a`, with the loops inside it. */
    method FreeEntries(a: Page, levels: nat, ghost p: Place, ghost was: Tables)
      requires Tree(was, root, place, role) && p in place && place[p] == a && p.Levels() == levels > 0
      requires Intact(was, mem, place, p) && pool !! mem.Keys
      modifies this`mem, this`pool
      ensures mem == old(mem) - Below(place, p) && pool == old(pool) + Below(place, p)
      decreases levels
    {
      var i: bv64 := 0;
      ghost var done := iset{};
      ScanStart();
      while i < 512
        invariant i <= 512 && Scanned(done, i)
        invariant mem == old(mem) - BelowBefore(place, p, done) && pool == old(pool) + BelowBefore(place, p, done)
        decreases 512 - i
      {
        ScanNext(done, i, i + 1);
        var s := Slot(i);
        ghost var more := done + iset{s};
        FreedNext(was, old(mem), root, place, role, p, s, done, more);
        var e := mem[a](s);
        if e.Present() && !e.Large() {
          FreeChild(e.Table(), levels, p, s, done, was, old(mem));
        }
        done := more;
        i := i + 1;
      }
      ScanEnd(done, i);
      BeforeLast(was, root, place, role, p, done);
    }

    /** The table that entry `s` points to, and all below it. */
    method FreeChild(b: Page, levels: nat, ghost p: Place, ghost s: Slot, ghost done: iset<Slot>, ghost was: Tables,
                     ghost start: Tables)
      requires Tree(was, root, place, role) && p in place && p.Levels() == levels > 0 && p.Child(s) in place
      requires place[p.Child(s)] == b && Intact(was, mem, place, p.Child(s))
      requires mem == start - BelowBefore(place, p, done) && pool !! mem.Keys
      modifies this`mem, this`pool
      ensures mem == start - (BelowBefore(place, p, done) + (Below(place, p.Child(s)) + {b}))
      ensures pool == old(pool) + (Below(place, p.Child(s)) + {b})
      decreases levels, 0
    {
      ghost var c := p.Child(s);
      assert IntactAt(was, mem, place, c, c);
      NotBelowSelf(was, root, place, role, c);
      if levels > 1 {
        FreeEntries(b, levels - 1, c, was);
      } else {
        NothingBelow(place, c);
        assert mem == old(mem) - Below(place, c) && pool == old(pool) + Below(place, c);
      }
      FreePage(b);
      MinusThree(start, BelowBefore(place, p, done), Below(place, c), {b});
    }

    /** arch_vm_space_destroy */
    method Destroy()
      requires Ready()
      modifies this`mem, this`pool
      ensures mem == map[] && pool == old(Stock())
    {
      AllBelow(mem, root, place, role);
      NotBelowSelf(mem, root, place, role, L4);
      FreeEntries(root, 3, L4, mem);
      FreePage(root);
      assert mem == map[];
    }

    /** ensure_table with write permission, which the kernel always asks for. */
    method EnsureTable(ghost p: Place, parent: Page, s: Slot, user: bool) returns (child: Option<Page>)
      requires Ready() && p in place && place[p] == parent && p.HasChildren() && IsSlot(s)
      requires UserAbove(mem, place, p, user)
      modifies this
      ensures Ready() && root == old(root) && SameView(old(mem), mem, root)
      ensures child.Some? <==> p.Child(s) in old(place) || (!old(mem)[parent](s).Present() && old(pool) != {})
      ensures child.Some? ==>
                && p.Child(s) in place && place[p.Child(s)] == child.value
                && UserAbove(mem, place, p.Child(s), user)
      ensures OnlyAdds(old(place), place, p.Child(s))
      ensures |pool| == |old(pool)| - if p.Child(s) !in old(place) && child.Some? then 1 else 0
    {
      assert LinkAt(mem, place, p, s);
      assert p.Child(s).Parent() == p && p.Child(s).Last() == s;
      var e := mem[parent](s);
      if !e.Present() {
        if pool == {} {
          return None;
        }
        var a := AddTable(p, parent, s, user);
        return Some(a);
      }
      if e.Large() {
        return None;
      }
      WidenKeeps(mem, root, place, role, p, s, user);
      mem := Set(mem, parent, s, Widened(e, user));
      return Some(e.Table());
    }

    method SplitInto(ghost p: Place, pd: Page, s: Slot, ghost user: bool)
      requires Ready() && p in place && place[p] == pd && p.L2? && IsSlot(s) && UserAbove(mem, place, p, user)
      requires p.Child(s) !in place && mem[pd](s).Present() && pool != {}
      modifies this
      ensures Ready() && root == old(root) && SameView(old(mem), mem, root) && p in place
      ensures UserAbove(mem, place, p, user)
      ensures p.Child(s) in place && place == old(place)[p.Child(s) := place[p.Child(s)]] && |pool| == |old(pool)| - 1
    {
      var a :| a in pool;
      var e := mem[pd](s);
      var t := FillTable(e);
      SplitKeeps(mem, root, place, role, p, s, a, t);
      SplitAbove(mem, root, place, role, p, s, a, t, user);
      Install(p, pd, s, a, t, SplitPointer(e, a));
    }

    /** split_large_page */
    method SplitLarge(ghost p: Place, pd: Page, s: Slot, ghost user: bool) returns (ok: bool)
      requires Ready() && p in place && place[p] == pd && p.L2? && IsSlot(s) && UserAbove(mem, place, p, user)
      modifies this
      ensures Ready() && root == old(root) && SameView(old(mem), mem, root) && p in place
      ensures UserAbove(mem, place, p, user)
      ensures ok <==> p.Child(s) in old(place) || !old(mem)[pd](s).Present() || old(pool) != {}
      ensures
        if p.Child(s) in old(place) || !old(mem)[pd](s).Present() || !ok then
          mem == old(mem) && place == old(place) && pool == old(pool)
        else p.Child(s) in place && place == old(place)[p.Child(s) := place[p.Child(s)]] && |pool| == |old(pool)| - 1
    {
      assert LinkAt(mem, place, p, s);
      if !mem[pd](s).Present() || !mem[pd](s).Large() {
        return true;
      }
      if pool == {} {
        return false;
      }
      SplitInto(p, pd, s, user);
      return true;
    }

    /** The descent of arch_vm_map_page to a table that may hold large entries. */
    method EnsureDirectory(v: Address, user: bool) returns (l2: Option<Page>)
      requires Ready() && IsAddress(v)
      modifies this
      ensures Ready() && root == old(root) && SameView(old(mem), mem, root)
      ensures l2.Some? <==> L2(v.i4, v.i3) in old(place) || |old(pool)| >= Missing(old(place), v) - 1
      ensures l2.Some? ==>
                && L2(v.i4, v.i3) in place && place[L2(v.i4, v.i3)] == l2.value
                && UserAbove(mem, place, L2(v.i4, v.i3), user)
                && Missing(place, v) == (if L1(v.i4, v.i3, v.i2) in old(place) then 0 else 1)
                && |pool| == |old(pool)| - (Missing(old(place), v) - Missing(place, v))
    {
      ghost var was, start := mem, place;
      ghost var n := |pool|;
      Chain(mem, root, place, role, v);
      assert LinkAt(was, start, L4, v.i4);
      var l3 := EnsureTable(L4, root, v.i4, user);
      if l3.None? {
        return None;
      }
      ghost var middle, place' := mem, place;
      ghost var n' := |pool|;
      assert LinkAt(middle, place', L3(v.i4), v.i3);
      l2 := EnsureTable(L3(v.i4), l3.value, v.i3, user);
      SameViewTrans(was, middle, mem, root);
      DirectoryIs(start, place', place, v, n, n', |pool|, l2.Some?);
    }

    /** The rest of the descent: the large entry in the way, if there is one, is split. */
    method EnsureLowest(v: Address, l2: Page, user: bool) returns (l1: Option<Page>)
      requires Ready() && IsAddress(v) && L2(v.i4, v.i3) in place && place[L2(v.i4, v.i3)] == l2
      requires UserAbove(mem, place, L2(v.i4, v.i3), user)
      modifies this
      ensures Ready() && root == old(root) && SameView(old(mem), mem, root)
      ensures l1.Some? <==> L1(v.i4, v.i3, v.i2) in old(place) || |old(pool)| >= 1
      ensures l1.Some? ==>
                && L1(v.i4, v.i3, v.i2) in place && place[L1(v.i4, v.i3, v.i2)] == l1.value
                && UserAbove(mem, place, L1(v.i4, v.i3, v.i2), user)
    {
      ghost var was := mem;
      assert LinkAt(was, place, L2(v.i4, v.i3), v.i2);
      var ok := SplitLarge(L2(v.i4, v.i3), l2, v.i2, user);
      if !ok {
        return None;
      }
      ghost var middle := mem;
      l1 := EnsureTable(L2(v.i4, v.i3), l2, v.i2, user);
      SameViewTrans(was, middle, mem, root);
    }

    /** arch_vm_map_page */
    method MapPage(vaddr: bv64, phys: bv64, writable: bool, user: bool, noExec: bool) returns (ok: bool)
      requires Ready()
      modifies this
      ensures Ready() && root == old(root)
      ensures ok <==> vaddr & 0xfff == 0 && phys & 0xfff == 0 && |old(pool)| >= Missing(old(place), AddressOf(vaddr))
      ensures ok ==> OnlyPage(old(mem), mem, root, AddressOf(vaddr), Leaf(phys, writable, user, noExec))
      ensures !ok ==> SameView(old(mem), mem, root)
    {
      if vaddr & 0xfff != 0 || phys & 0xfff != 0 {
        return false;
      }
      AddressIs(vaddr);
      var v := AddressOf(vaddr);
      ghost var was := mem;
      var l2 := EnsureDirectory(v, user);
      if l2.None? {
        return false;
      }
      ghost var middle := mem;
      var l1 := EnsureLowest(v, l2.value, user);
      SameViewTrans(was, middle, mem, root);
      if l1.None? {
        return false;
      }
      LeafIs(phys, writable, user, noExec);
      WriteLeaf(v, l1.value, Leaf(phys, writable, user, noExec), was);
      return true;
    }

    /** The descent of arch_vm_protect_page, arch_vm_unmap_page and their variants for user pages. */
    method FindLeaf(v: Address, userOnly: bool) returns (l1: Option<Page>)
      requires Ready() && IsAddress(v)
      ensures l1.Some? <==> Walk(mem, root, v, false, userOnly).Small?
      ensures l1.Some? ==>
                && L1(v.i4, v.i3, v.i2) in place && place[L1(v.i4, v.i3, v.i2)] == l1.value
                && mem[l1.value](v.i1) == Walk(mem, root, v, false, userOnly).e
    {
      LinksOf(mem, root, place, role, v);
      var e := mem[root](v.i4);
      if !e.Lets(false, userOnly) || e.Large() {
        return None;
      }
      e := mem[e.Table()](v.i3);
      if !e.Lets(false, userOnly) || e.Large() {
        return None;
      }
      e := mem[e.Table()](v.i2);
      if !e.Lets(false, userOnly) || e.Large() {
        return None;
      }
      if !mem[e.Table()](v.i1).Lets(false, userOnly) {
        return None;
      }
      return Some(e.Table());
    }

    /** arch_vm_protect_page and arch_vm_protect_user_page */
    method Protect(vaddr: bv64, writable: bool, noExec: bool, userOnly: bool) returns (ok: bool)
      requires Ready()
      modifies this`mem
      ensures Ready()
      ensures ok <==> vaddr & 0xfff == 0 && Walk(old(mem), root, AddressOf(vaddr), false, userOnly).Small?
      ensures !ok ==> mem == old(mem)
      ensures ok ==> OnlyPage(old(mem), mem, root, AddressOf(vaddr),
                              Reprotected(Walk(old(mem), root, AddressOf(vaddr), false, userOnly).e, writable, noExec))
    {
      AddressIs(vaddr);
      var v := AddressOf(vaddr);
      if vaddr & 0xfff != 0 {
        return false;
      }
      var l1 := FindLeaf(v, userOnly);
      if l1.None? {
        return false;
      }
      var e := mem[l1.value](v.i1);
      ReprotectedIs(e, writable, noExec);
      AboveOf(mem, root, place, role, v);
      SameAsSelf(mem, root);
      WriteLeaf(v, l1.value, Reprotected(e, writable, noExec), mem);
      return true;
    }

    /** arch_vm_unmap_page and arch_vm_unmap_user_page; None stands for 0. */
    method Unmap(vaddr: bv64, userOnly: bool) returns (frame: Option<bv64>)
      requires Ready()
      modifies this`mem
      ensures Ready()
      ensures frame.Some? <==> vaddr & 0xfff == 0 && Walk(old(mem), root, AddressOf(vaddr), false, userOnly).Small?
      ensures frame.None? ==> mem == old(mem)
      ensures frame.Some? ==>
                && frame == Translate(old(mem), root, AddressOf(vaddr), false)
                && OnlyPage(old(mem), mem, root, AddressOf(vaddr), Entry(0))
    {
      AddressIs(vaddr);
      var v := AddressOf(vaddr);
      if vaddr & 0xfff != 0 {
        return None;
      }
      var l1 := FindLeaf(v, userOnly);
      if l1.None? {
        return None;
      }
      WalkIsFinal(mem, root, place, role, v, false, userOnly);
      WalkIsFinal(mem, root, place, role, v, false, false);
      frame := Some(mem[l1.value](v.i1).bits & ADDR_MASK);
      SameAsSelf(mem, root);
      WriteLeaf(v, l1.value, Entry(0), mem);
    }

    method WriteLeaf(v: Address, l1: Page, e: Entry, ghost was: Tables)
      requires Ready() && IsAddress(v) && L1(v.i4, v.i3, v.i2) in place && place[L1(v.i4, v.i3, v.i2)] == l1
      requires e.Present() && e.User() ==> UserAbove(mem, place, L1(v.i4, v.i3, v.i2), true)
      requires SameView(was, mem, root)
      modifies this`mem
      ensures Ready() && OnlyPage(was, mem, root, v, e)
    {
      LeafSets(mem, root, place, role, v, e);
      ThenOnlyPage(was, mem, Set(mem, l1, v.i1, e), root, v, e);
      mem := Set(mem, l1, v.i1, e);
    }
  }

  lemma SameAsSelf(mem: Tables, root: Page)
    ensures SameView(mem, mem, root)
  {
  }

  lemma LinksOf(mem: Tables, root: Page, place: map<Place, Page>, role: map<Page, Place>, v: Address)
    requires Shaped(mem, root, place, role) && IsAddress(v)
    ensures LinkAt(mem, place, L4, v.i4) && LinkAt(mem, place, L3(v.i4), v.i3)
    ensures LinkAt(mem, place, L2(v.i4, v.i3), v.i2)
  {
  }

  /** A user page has pointers above it that let user programs pass. */
  lemma AboveOf(mem: Tables, root: Page, place: map<Place, Page>, role: map<Page, Place>, v: Address)
    requires Tree(mem, root, place, role) && IsAddress(v) && L1(v.i4, v.i3, v.i2) in place
    ensures
      var e := mem[place[L1(v.i4, v.i3, v.i2)]](v.i1);
      e.Present() && e.User() ==> UserAbove(mem, place, L1(v.i4, v.i3, v.i2), true)
  {
    assert UserAt(mem, place, L1(v.i4, v.i3, v.i2), v.i1);
  }

  // ----- a new space

  /** The entry for 2 MiB of memory at its own address, as the kernel makes it. */
  function IdentityEntry(i: bv64): Entry {
    Entry((i * 0x20_0000) | 0x83)
  }

  lemma IdentityIs(i: bv64, v: Address)
    requires i < 512 && IsAddress(v)
    ensures IdentityEntry(i).MadeLarge()
    ensures Reaches(Big(IdentityEntry(i)), v) == Some(i * 0x20_0000 + (v.i1.index * 0x1000 + v.offset))
  {
    IdentityMade(i);
    assert LargeBase(IdentityEntry(i).bits) == i * 0x20_0000;
  }

  lemma IdentityMade(i: bv64)
    requires i < 512
    ensures IdentityEntry(i).MadeLarge()
  {
  }

  method FillDirectory() returns (t: Table)
    ensures forall s :: IsSlot(s) ==> t(s) == IdentityEntry(s.index)
  {
    t := Filled(i => IdentityEntry(i));
  }

  function NewTables(l4: Page, l3: Page, l2: Page, t: Table): Tables {
    map[l4 := With(ZeroTable(), Slot(0), Pointer(l3, false)),
        l3 := With(ZeroTable(), Slot(0), Pointer(l2, false)),
        l2 := t]
  }

  /** The first GiB is mapped to itself, for the kernel only. */
  ghost predicate ShowsIdentity(mem: Tables, root: Page, u: Address) {
    forall write ::
      && Translate(mem, root, u, write)
         == (if u.i4 == Slot(0) && u.i3 == Slot(0)
             then Some(u.i2.index * 0x20_0000 + (u.i1.index * 0x1000 + u.offset)) else None)
      && TranslateUser(mem, root, u, write) == None
  }

  lemma NewIsTree(l4: Page, l3: Page, l2: Page, t: Table)
    requires l4 != l3 && l4 != l2 && l3 != l2 && Aligned(l4) && Aligned(l3) && Aligned(l2)
    requires forall s :: IsSlot(s) ==> t(s) == IdentityEntry(s.index)
    ensures Tree(NewTables(l4, l3, l2, t), l4, map[L4 := l4, L3(Slot(0)) := l3, L2(Slot(0), Slot(0)) := l2],
                 map[l4 := L4, l3 := L3(Slot(0)), l2 := L2(Slot(0), Slot(0))])
  {
    var mem, place := NewTables(l4, l3, l2, t), map[L4 := l4, L3(Slot(0)) := l3, L2(Slot(0), Slot(0)) := l2];
    forall p, s | IsSlot(s)
      ensures LinkAt(mem, place, p, s) && UserAt(mem, place, p, s) && LargeAt(mem, place, p, s)
    {
      NewAt(l4, l3, l2, t, p, s);
    }
  }

  lemma NewAt(l4: Page, l3: Page, l2: Page, t: Table, p: Place, s: Slot)
    requires l4 != l3 && l4 != l2 && l3 != l2 && Aligned(l3) && Aligned(l2) && IsSlot(s)
    requires t(s) == IdentityEntry(s.index)
    ensures
      var mem, place := NewTables(l4, l3, l2, t), map[L4 := l4, L3(Slot(0)) := l3, L2(Slot(0), Slot(0)) := l2];
      LinkAt(mem, place, p, s) && UserAt(mem, place, p, s) && LargeAt(mem, place, p, s)
  {
    assert !Entry(0).Present();
    if p.L4? {
      PointerIs(l3, false);
    } else if p.L3? {
      PointerIs(l2, false);
    } else {
      IdentityMade(s.index);
    }
  }

  lemma FinalShows(mem: Tables, root: Page, place: map<Place, Page>, role: map<Page, Place>, u: Address,
                   shown: Option<bv64>)
    requires Tree(mem, root, place, role) && IsAddress(u)
    requires
      var hit := Final(mem, place, u);
      if shown.None? then hit.Nothing? else hit.Big? && hit.e.MadeLarge() && Reaches(hit, u) == shown
    ensures forall write :: Translate(mem, root, u, write) == shown && TranslateUser(mem, root, u, write) == None
  {
    forall write
      ensures Translate(mem, root, u, write) == shown && TranslateUser(mem, root, u, write) == None
    {
      WalkIsFinal(mem, root, place, role, u, write, false);
      WalkIsFinal(mem, root, place, role, u, write, true);
    }
  }

  lemma NewFinal(l4: Page, l3: Page, l2: Page, t: Table, u: Address)
    requires l4 != l3 && l4 != l2 && l3 != l2 && IsAddress(u)
    requires forall s :: IsSlot(s) ==> t(s) == IdentityEntry(s.index)
    ensures Final(NewTables(l4, l3, l2, t), map[L4 := l4, L3(Slot(0)) := l3, L2(Slot(0), Slot(0)) := l2], u)
         == if u.i4 == Slot(0) && u.i3 == Slot(0) then Big(IdentityEntry(u.i2.index)) else Nothing
  {
    IdentityMade(u.i2.index);
    assert NewTables(l4, l3, l2, t)[l2] == t;
  }

  lemma NewShows(l4: Page, l3: Page, l2: Page, t: Table, u: Address)
    requires l4 != l3 && l4 != l2 && l3 != l2 && Aligned(l4) && Aligned(l3) && Aligned(l2) && IsAddress(u)
    requires forall s :: IsSlot(s) ==> t(s) == IdentityEntry(s.index)
    ensures ShowsIdentity(NewTables(l4, l3, l2, t), l4, u)
  {
    NewIsTree(l4, l3, l2, t);
    NewFinal(l4, l3, l2, t, u);
    IdentityIs(u.i2.index, u);
    FinalShows(NewTables(l4, l3, l2, t), l4, map[L4 := l4, L3(Slot(0)) := l3, L2(Slot(0), Slot(0)) := l2],
               map[l4 := L4, l3 := L3(Slot(0)), l2 := L2(Slot(0), Slot(0))], u,
               if u.i4 == Slot(0) && u.i3 == Slot(0)
               then Some(u.i2.index * 0x20_0000 + (u.i1.index * 0x1000 + u.offset)) else None);
  }

  lemma SplitAbove(mem: Tables, root: Page, place: map<Place, Page>, role: map<Page, Place>, p: Place, s: Slot, a: Page,
                   t: Table, user: bool)
    requires Placed(mem, root, place, role) && p in place && p.L2? && a !in mem && UserAbove(mem, place, p, user)
    ensures
      UserAbove(Hung(mem, place[p], s, a, t, SplitPointer(mem[place[p]](s), a)), place[p.Child(s) := a], p, user)
  {
    assert p.Parent() != p && p.Parent() != p.Child(s);
  }

  lemma Chain(mem: Tables, root: Page, place: map<Place, Page>, role: map<Page, Place>, v: Address)
    requires Placed(mem, root, place, role)
    ensures L1(v.i4, v.i3, v.i2) in place ==> L2(v.i4, v.i3) in place
    ensures L2(v.i4, v.i3) in place ==> L3(v.i4) in place
  {
    assert L1(v.i4, v.i3, v.i2) in place ==> L1(v.i4, v.i3, v.i2).Parent() in place;
    assert L2(v.i4, v.i3) in place ==> L2(v.i4, v.i3).Parent() in place;
  }

  // ----- destruction

  /** Place `q` is below `p`. */
  predicate Under(p: Place, q: Place) {
    match p
    case L4 => !q.L4?
    case L3(i4) => (q.L2? || q.L1?) && q.i4 == i4
    case L2(i4, i3) => q.L1? && q.i4 == i4 && q.i3 == i3
    case L1(_, _, _) => false
  }

  /** The entry of the table at `p` that leads to place `q`. */
  function Branch(p: Place, q: Place): Slot
    requires Under(p, q)
  {
    match p
    case L4 => q.i4
    case L3(_) => q.i3
    case L2(_, _) => q.i2
  }

  /** Place `q` is below `p` and reached through one of the slots `done`. */
  ghost predicate Before(p: Place, q: Place, done: iset<Slot>) {
    Under(p, q) && Branch(p, q) in done
  }

  ghost function Below(place: map<Place, Page>, p: Place): set<Page> {
    set q | q in place && Under(p, q) :: place[q]
  }

  ghost function BelowBefore(place: map<Place, Page>, p: Place, done: iset<Slot>): set<Page> {
    set q | q in place && Before(p, q, done) :: place[q]
  }

  /** The table at `p` and all below it are as they were. */
  ghost predicate Intact(was: Tables, mem: Tables, place: map<Place, Page>, p: Place) {
    forall q :: IntactAt(was, mem, place, p, q)
  }

  ghost predicate IntactAt(was: Tables, mem: Tables, place: map<Place, Page>, p: Place, q: Place) {
    q in place && (q == p || Under(p, q)) ==> place[q] in mem && place[q] in was && mem[place[q]] == was[place[q]]
  }

  lemma NothingBelow(place: map<Place, Page>, p: Place)
    requires p.L1?
    ensures Below(place, p) == {}
  {
  }

  /** Places on the way to a place that has a table have one too, and are in bounds. */
  lemma BranchInBounds(mem: Tables, root: Page, place: map<Place, Page>, role: map<Page, Place>, p: Place, q: Place)
    requires Placed(mem, root, place, role) && q in place && Under(p, q)
    ensures IsSlot(Branch(p, q)) && p.Child(Branch(p, q)) in place
  {
    if q.L1? {
      assert q.Parent() in place && IsSlot(q.Last());
    }
    if !q.L3? {
      assert L2(q.i4, q.i3) in place && L2(q.i4, q.i3).Parent() in place && IsSlot(L2(q.i4, q.i3).Last());
    }
    assert L3(q.i4) in place && IsSlot(L3(q.i4).Last());
  }

  lemma BeforeLast(mem: Tables, root: Page, place: map<Place, Page>, role: map<Page, Place>, p: Place, done: iset<Slot>)
    requires Tree(mem, root, place, role) && forall s :: IsSlot(s) ==> s in done
    ensures BelowBefore(place, p, done) == Below(place, p)
  {
    forall q | q in place && Under(p, q)
      ensures Before(p, q, done)
    {
      BranchInBounds(mem, root, place, role, p, q);
    }
  }

  /** What is below `p` through slot `s` is the child there, or below that child. */
  lemma BelowChild(p: Place, q: Place, s: Slot)
    requires p.HasChildren()
    ensures Under(p, q) && Branch(p, q) == s <==> q == p.Child(s) || Under(p.Child(s), q)
  {
  }

  lemma BeforeNext(p: Place, q: Place, s: Slot, done: iset<Slot>)
    requires p.HasChildren() && s !in done
    ensures Before(p, q, done + iset{s}) <==> Before(p, q, done) || q == p.Child(s) || Under(p.Child(s), q)
    ensures q == p.Child(s) || Under(p.Child(s), q) ==> !Before(p, q, done)
  {
    BelowChild(p, q, s);
  }

  lemma FreedNext(was: Tables, start: Tables, root: Page, place: map<Place, Page>, role: map<Page, Place>, p: Place,
                  s: Slot, done: iset<Slot>, more: iset<Slot>)
    requires Tree(was, root, place, role) && p in place && p.HasChildren() && IsSlot(s)
    requires s !in done && more == done + iset{s} && Intact(was, start, place, p)
    ensures
      var mem, c := start - BelowBefore(place, p, done), p.Child(s);
      && place[p] in mem && mem[place[p]] == was[place[p]]
      && (was[place[p]](s).Present() && !was[place[p]](s).Large() <==> c in place)
      && (c in place ==>
            && was[place[p]](s).Table() == place[c]
            && Intact(was, mem, place, c)
            && BelowBefore(place, p, more) == BelowBefore(place, p, done) + (Below(place, c) + {place[c]}))
      && (c !in place ==> BelowBefore(place, p, more) == BelowBefore(place, p, done))
  {
    assert LinkAt(was, place, p, s) && IntactAt(was, start, place, p, p);
    NotFreed(was, root, place, role, p, p, done);
    if p.Child(s) in place {
      NextBelow(place, p, s, done, more);
      ChildIntact(was, start, root, place, role, p, s, done);
    } else {
      NoChildBelow(was, root, place, role, p, s, done, more);
    }
  }

  lemma NextBelow(place: map<Place, Page>, p: Place, s: Slot, done: iset<Slot>, more: iset<Slot>)
    requires p.HasChildren() && p.Child(s) in place && s !in done && more == done + iset{s}
    ensures BelowBefore(place, p, more)
         == BelowBefore(place, p, done) + (Below(place, p.Child(s)) + {place[p.Child(s)]})
  {
    forall q | q in place
      ensures Before(p, q, more) <==> Before(p, q, done) || q == p.Child(s) || Under(p.Child(s), q)
    {
      BeforeNext(p, q, s, done);
    }
  }

  lemma NoChildBelow(mem: Tables, root: Page, place: map<Place, Page>, role: map<Page, Place>, p: Place, s: Slot,
                     done: iset<Slot>, more: iset<Slot>)
    requires Tree(mem, root, place, role) && p.HasChildren() && p.Child(s) !in place
    requires s !in done && more == done + iset{s}
    ensures BelowBefore(place, p, more) == BelowBefore(place, p, done)
  {
    forall q | q in place
      ensures Before(p, q, more) <==> Before(p, q, done)
    {
      BeforeNext(p, q, s, done);
      BelowChild(p, q, s);
      if Under(p, q) {
        BranchInBounds(mem, root, place, role, p, q);
      }
    }
  }

  lemma ChildIntact(was: Tables, start: Tables, root: Page, place: map<Place, Page>, role: map<Page, Place>, p: Place,
                    s: Slot, done: iset<Slot>)
    requires Tree(was, root, place, role) && p.HasChildren() && p.Child(s) in place && s !in done
    requires Intact(was, start, place, p)
    ensures Intact(was, start - BelowBefore(place, p, done), place, p.Child(s))
  {
    var c, mem := p.Child(s), start - BelowBefore(place, p, done);
    forall q
      ensures IntactAt(was, mem, place, c, q)
    {
      if q in place && (q == c || Under(c, q)) {
        BelowChild(p, q, s);
        assert IntactAt(was, start, place, p, q);
        BeforeNext(p, q, s, done);
        NotFreed(was, root, place, role, p, q, done);
      }
    }
  }

  /** Different places have different pages. */
  lemma NotFreed(mem: Tables, root: Page, place: map<Place, Page>, role: map<Page, Place>, p: Place, q: Place,
                 done: iset<Slot>)
    requires Placed(mem, root, place, role) && q in place && !Before(p, q, done)
    ensures place[q] !in BelowBefore(place, p, done)
  {
  }

  lemma NotBelowSelf(mem: Tables, root: Page, place: map<Place, Page>, role: map<Page, Place>, p: Place)
    requires Tree(mem, root, place, role) && p in place
    ensures place[p] !in Below(place, p)
  {
  }

  lemma MinusThree(mem: Tables, a: set<Page>, b: set<Page>, c: set<Page>)
    ensures mem - a - b - c == mem - (a + (b + c))
  {
  }

  lemma AllBelow(mem: Tables, root: Page, place: map<Place, Page>, role: map<Page, Place>)
    requires Tree(mem, root, place, role)
    ensures Below(place, L4) + {root} == mem.Keys && Intact(mem, mem, place, L4)
  {
    forall a | a in mem
      ensures a in Below(place, L4) + {root}
    {
      assert role[a] in place && place[role[a]] == a && (role[a] == L4 || Under(L4, role[a]));
    }
    forall q
      ensures IntactAt(mem, mem, place, L4, q)
    {
    }
  }
}
