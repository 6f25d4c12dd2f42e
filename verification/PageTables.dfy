/**
Sv39 page tables (arch/riscv64/vm.c; section 4.4 of the RISC-V Privileged
Architecture, version 20211203).

Three levels of 512-entry tables live in physical pages taken from a pool.
The theorems say that walking them is looking up a finite map from page
numbers to (frame, W, U, X): every operation changes that map at its own page
only, and destroying a space returns each table page to the pool once and
touches no frame that a leaf points to.
*/
module PageTables {
  import opened Common

  const ENTRIES := 512

  // ----- entries

  const V: bv64 := 1
  const R: bv64 := 2
  const W: bv64 := 4
  const X: bv64 := 8
  const U: bv64 := 16
  const A: bv64 := 64
  const D: bv64 := 128

  predicate Aligned(phys: bv64) {
    phys & 0xfff == 0
  }

  function Phys(e: bv64): bv64 {
    (e >> 10) << 12
  }

  predicate Valid(e: bv64) {
    e & V != 0
  }

  predicate IsLeaf(e: bv64) {
    Valid(e) && e & (R | W | X) != 0
  }

  predicate IsTable(e: bv64) {
    Valid(e) && e & (R | W | X) == 0
  }

  function TableEntry(phys: bv64): bv64 {
    ((phys >> 12) << 10) | V
  }

  function LeafEntry(phys: bv64, writable: bool, user: bool, executable: bool): bv64 {
    ((phys >> 12) << 10) | V | R | A | D
    | (if writable then W else 0) | (if user then U else 0) | (if executable then X else 0)
  }

  function WithWrite(e: bv64, writable: bool): bv64 {
    if writable then e | (W | D) else e & !W
  }

  function WithExec(e: bv64, executable: bool): bv64 {
    if executable then e | X else e & !X
  }

  /** What a page is mapped to. */
  datatype Mapping = Mapping(phys: bv64, writable: bool, user: bool, executable: bool)

  function Decode(e: bv64): Option<Mapping> {
    if IsLeaf(e) then Some(Mapping(Phys(e), e & W != 0, e & U != 0, e & X != 0)) else None
  }

  lemma TableEntryIs(phys: bv64)
    requires Aligned(phys)
    ensures IsTable(TableEntry(phys)) && Phys(TableEntry(phys)) == phys
  {
  }

  lemma LeafEntryIs(phys: bv64, writable: bool, user: bool, executable: bool)
    requires Aligned(phys)
    ensures Decode(LeafEntry(phys, writable, user, executable)) == Some(Mapping(phys, writable, user, executable))
    ensures LeafSlot(LeafEntry(phys, writable, user, executable))
  {
  }

  /** The frame and the bits of an entry. */
  predicate Bits(e: bv64, phys: bv64, v: bool, r: bool, w: bool, x: bool, u: bool) {
    && Phys(e) == phys
    && (e & V != 0) == v && (e & R != 0) == r && (e & W != 0) == w && (e & X != 0) == x && (e & U != 0) == u
  }

  lemma WithWriteBits(e: bv64, phys: bv64, v: bool, r: bool, w: bool, x: bool, u: bool, w': bool)
    requires Bits(e, phys, v, r, w, x, u)
    ensures Bits(WithWrite(e, w'), phys, v, r, w', x, u)
  {
  }

  lemma WithExecBits(e: bv64, phys: bv64, v: bool, r: bool, w: bool, x: bool, u: bool, x': bool)
    requires Bits(e, phys, v, r, w, x, u)
    ensures Bits(WithExec(e, x'), phys, v, r, w, x', u)
  {
  }

  lemma BitsDecode(e: bv64, phys: bv64, w: bool, x: bool, u: bool)
    requires Bits(e, phys, true, true, w, x, u)
    ensures Decode(e) == Some(Mapping(phys, w, u, x))
  {
  }

  /** Changing the protection of a readable leaf changes nothing else about it. */
  lemma ReprotectedIs(e: bv64, writable: bool, executable: bool)
    requires Valid(e) && e & R != 0
    ensures Decode(WithExec(WithWrite(e, writable), executable))
         == Some(Mapping(Phys(e), writable, e & U != 0, executable))
    ensures WithExec(WithWrite(e, writable), executable) & R != 0
  {
    var phys, w, x, u := Phys(e), e & W != 0, e & X != 0, e & U != 0;
    WithWriteBits(e, phys, true, true, w, x, u, writable);
    WithExecBits(WithWrite(e, writable), phys, true, true, writable, x, u, executable);
    BitsDecode(WithExec(WithWrite(e, writable), executable), phys, writable, executable, u);
  }

  lemma ZeroIs()
    ensures !Valid(0) && Decode(0) == None
  {
  }

  // ----- the tree of tables

  /** A physical page that holds a table. */
  datatype Page = Page(phys: bv64)

  function TableOf(e: bv64): Page {
    Page(Phys(e))
  }

  type Tables = map<Page, seq<bv64>>

  /** Where a table sits: the indices on the way from the root to it. */
  datatype Place = Root | Dir(i: int) | Low(i: int, j: int) {
    function Level(): nat {
      match this
      case Root => 2
      case Dir(_) => 1
      case Low(_, _) => 0
    }

    function Child(n: int): Place
      requires Level() > 0
    {
      if Root? then Dir(n) else Low(i, n)
    }

    predicate InBounds() {
      && (Dir? ==> 0 <= i < ENTRIES)
      && (Low? ==> 0 <= i < ENTRIES && 0 <= j < ENTRIES)
    }
  }

  datatype Vpn = Vpn(i2: int, i1: int, i0: int)

  predicate IsVpn(v: Vpn) {
    0 <= v.i2 < ENTRIES && 0 <= v.i1 < ENTRIES && 0 <= v.i0 < ENTRIES
  }

  /** vpn_index at the three levels. */
  function VpnOf(vaddr: u64): (v: Vpn)
    ensures IsVpn(v)
  {
    Vpn(vaddr / 0x4000_0000 % ENTRIES, vaddr / 0x20_0000 % ENTRIES, vaddr / PAGE_SIZE % ENTRIES)
  }

  /** Entry `n` of the table at place `p` points to the table at that child place, or is not valid. */
  ghost predicate LinkAt(tables: Tables, place: map<Place, Page>, p: Place, n: int)
    requires p in place && place[p] in tables && |tables[place[p]]| == ENTRIES && p.Level() > 0 && 0 <= n < ENTRIES
  {
    var e := tables[place[p]][n];
    if p.Child(n) in place then IsTable(e) && TableOf(e) == place[p.Child(n)] else !Valid(e)
  }

  /** A slot of a bottom-level table holds a readable leaf or nothing. */
  predicate LeafSlot(e: bv64) {
    Valid(e) ==> e & R != 0
  }

  ghost predicate Leaves(table: seq<bv64>) {
    forall n :: 0 <= n < |table| ==> LeafSlot(table[n])
  }

  /** `place` and `role` are inverse, so that no table is reached in two ways. */
  ghost predicate Placed(tables: Tables, root: Page, place: map<Place, Page>, role: map<Page, Place>) {
    && Root in place && place[Root] == root
    && (forall p :: p in place ==> p.InBounds() && place[p] in tables && place[p] in role && role[place[p]] == p)
    && (forall a :: a in tables ==> a in role && role[a] in place && place[role[a]] == a && |tables[a]| == ENTRIES)
    && (forall i, j :: Low(i, j) in place ==> Dir(i) in place)
  }

  ghost predicate Tree(tables: Tables, root: Page, place: map<Place, Page>, role: map<Page, Place>) {
    && Placed(tables, root, place, role)
    && (forall p, n :: p in place && p.Level() > 0 && 0 <= n < ENTRIES ==> LinkAt(tables, place, p, n))
    && (forall p :: p in place && p.Low? ==> Leaves(tables[place[p]]))
  }

  /** The walk of lookup_leaf: the address of the bottom-level table on the way to `v`. */
  function Walk(tables: Tables, root: Page, v: Vpn): Option<Page>
    requires IsVpn(v)
  {
    if root !in tables || |tables[root]| != ENTRIES || !IsTable(tables[root][v.i2]) then None
    else
      var l1 := TableOf(tables[root][v.i2]);
      if l1 !in tables || |tables[l1]| != ENTRIES || !IsTable(tables[l1][v.i1]) then None
      else Some(TableOf(tables[l1][v.i1]))
  }

  /** The slot of page `v`, 0 where there is no table for it. */
  function SlotOf(tables: Tables, root: Page, v: Vpn): bv64
    requires IsVpn(v)
  {
    match Walk(tables, root, v)
    case None => 0
    case Some(l0) => if l0 in tables && |tables[l0]| == ENTRIES then tables[l0][v.i0] else 0
  }

  /** The finite map that the tables stand for. */
  function Mapped(tables: Tables, root: Page, v: Vpn): Option<Mapping>
    requires IsVpn(v)
  {
    Decode(SlotOf(tables, root, v))
  }

  /** `t` stands for the same map as `s` except that page `v` is mapped to `m`. */
  ghost predicate MapSet(s: Tables, t: Tables, root: Page, v: Vpn, m: Option<Mapping>) {
    forall u :: MapSetAt(s, t, root, v, m, u)
  }

  ghost predicate MapSetAt(s: Tables, t: Tables, root: Page, v: Vpn, m: Option<Mapping>, u: Vpn) {
    IsVpn(u) ==> Mapped(t, root, u) == if u == v then m else Mapped(s, root, u)
  }

  ghost predicate MapSame(s: Tables, t: Tables, root: Page) {
    forall u :: MapSameAt(s, t, root, u)
  }

  ghost predicate MapSameAt(s: Tables, t: Tables, root: Page, u: Vpn) {
    IsVpn(u) ==> Mapped(t, root, u) == Mapped(s, root, u)
  }

  /** In a tree, the walk finds the table placed at `Low(i2, i1)`. */
  lemma WalkFinds(tables: Tables, root: Page, place: map<Place, Page>, role: map<Page, Place>, v: Vpn)
    requires Tree(tables, root, place, role) && IsVpn(v)
    ensures Walk(tables, root, v) == if Low(v.i2, v.i1) in place then Some(place[Low(v.i2, v.i1)]) else None
    ensures SlotOf(tables, root, v) == if Low(v.i2, v.i1) in place then tables[place[Low(v.i2, v.i1)]][v.i0] else 0
  {
    assert LinkAt(tables, place, Root, v.i2);
    if Dir(v.i2) in place {
      assert LinkAt(tables, place, Dir(v.i2), v.i1);
    }
  }

  function ZeroTable(): (t: seq<bv64>)
    ensures |t| == ENTRIES && forall n :: 0 <= n < ENTRIES ==> t[n] == 0
  {
    seq(ENTRIES, _ => 0)
  }

  /** A new empty table `a` hung under entry `n` of the table at place `p`. */
  function Hung(tables: Tables, parent: Page, n: int, a: Page): Tables
    requires parent in tables && 0 <= n < |tables[parent]|
  {
    tables[a := ZeroTable()][parent := tables[parent][n := TableEntry(a.phys)]]
  }

  lemma HungIsPlaced(tables: Tables, root: Page, place: map<Place, Page>, role: map<Page, Place>, p: Place, n: int,
                     a: Page)
    requires Placed(tables, root, place, role) && p in place && p.Level() > 0 && 0 <= n < ENTRIES
    requires p.Child(n) !in place && a !in tables && Aligned(a.phys)
    ensures Placed(Hung(tables, place[p], n, a), root, place[p.Child(n) := a], role[a := p.Child(n)])
  {
    var c := p.Child(n);
    var tables', place', role' := Hung(tables, place[p], n, a), place[c := a], role[a := c];
    forall q | q in place'
      ensures q.InBounds() && place'[q] in tables' && place'[q] in role' && role'[place'[q]] == q
    {
      if q != c {
        assert q in place && place[q] in tables && place[q] != a;
      }
    }
    forall b | b in tables'
      ensures b in role' && role'[b] in place' && place'[role'[b]] == b && |tables'[b]| == ENTRIES
    {
      if b != a {
        assert b in tables && role[b] in place && role[b] != c;
      }
    }
  }

  lemma HungIsTree(tables: Tables, root: Page, place: map<Place, Page>, role: map<Page, Place>, p: Place, n: int,
                   a: Page)
    requires Tree(tables, root, place, role) && p in place && p.Level() > 0 && 0 <= n < ENTRIES
    requires p.Child(n) !in place && a !in tables && Aligned(a.phys)
    ensures Tree(Hung(tables, place[p], n, a), root, place[p.Child(n) := a], role[a := p.Child(n)])
  {
    HungIsPlaced(tables, root, place, role, p, n, a);
    var tables', place' := Hung(tables, place[p], n, a), place[p.Child(n) := a];
    forall q, m | q in place' && q.Level() > 0 && 0 <= m < ENTRIES
      ensures LinkAt(tables', place', q, m)
    {
      HungLink(tables, root, place, role, p, n, a, q, m);
    }
    forall q | q in place' && q.Low?
      ensures Leaves(tables'[place'[q]])
    {
      ZeroIs();
      if q in place {
        assert place[q] != place[p] && Leaves(tables[place[q]]);
      }
    }
  }

  lemma HungLink(tables: Tables, root: Page, place: map<Place, Page>, role: map<Page, Place>, p: Place, n: int, a: Page,
                 q: Place, m: int)
    requires Tree(tables, root, place, role) && p in place && p.Level() > 0 && 0 <= n < ENTRIES
    requires p.Child(n) !in place && a !in tables && Aligned(a.phys)
    requires Placed(Hung(tables, place[p], n, a), root, place[p.Child(n) := a], role[a := p.Child(n)])
    requires q in place[p.Child(n) := a] && q.Level() > 0 && 0 <= m < ENTRIES
    ensures LinkAt(Hung(tables, place[p], n, a), place[p.Child(n) := a], q, m)
  {
    if q !in place {
      NewLink(tables, root, place, role, p, n, a, m);
    } else if q == p && m == n {
      TableEntryIs(a.phys);
    } else {
      assert LinkAt(tables, place, q, m);
      OldLink(tables, root, place, role, p, n, a, q, m);
    }
  }

  /** The new table is empty. */
  lemma NewLink(tables: Tables, root: Page, place: map<Place, Page>, role: map<Page, Place>, p: Place, n: int, a: Page,
                m: int)
    requires Placed(tables, root, place, role) && p in place && p.Level() > 0 && 0 <= n < ENTRIES && 0 <= m < ENTRIES
    requires p.Child(n) !in place && p.Child(n).Level() > 0 && a !in tables
    ensures LinkAt(Hung(tables, place[p], n, a), place[p.Child(n) := a], p.Child(n), m)
  {
    ZeroIs();
    assert p.Root? && Low(n, m) !in place;
  }

  lemma OldLink(tables: Tables, root: Page, place: map<Place, Page>, role: map<Page, Place>, p: Place, n: int, a: Page,
                q: Place, m: int)
    requires Placed(tables, root, place, role) && p in place && p.Level() > 0 && 0 <= n < ENTRIES
    requires p.Child(n) !in place && a !in tables
    requires q in place && q.Level() > 0 && 0 <= m < ENTRIES && (q != p || m != n) && LinkAt(tables, place, q, m)
    ensures LinkAt(Hung(tables, place[p], n, a), place[p.Child(n) := a], q, m)
  {
    assert place[q] != a && (q != p ==> place[q] != place[p]);
    SameLink(tables, place, Hung(tables, place[p], n, a), place[p.Child(n) := a], q, m);
  }

  lemma SameLink(tables: Tables, place: map<Place, Page>, tables': Tables, place': map<Place, Page>, q: Place, m: int)
    requires q in place && q.Level() > 0 && 0 <= m < ENTRIES && place[q] in tables && |tables[place[q]]| == ENTRIES
    requires q in place' && place'[q] in tables' && |tables'[place'[q]]| == ENTRIES
    requires tables'[place'[q]][m] == tables[place[q]][m]
    requires q.Child(m) in place' <==> q.Child(m) in place
    requires q.Child(m) in place ==> place'[q.Child(m)] == place[q.Child(m)]
    requires LinkAt(tables, place, q, m)
    ensures LinkAt(tables', place', q, m)
  {
  }

  lemma HungKeepsMap(tables: Tables, root: Page, place: map<Place, Page>, role: map<Page, Place>, p: Place, n: int,
                     a: Page)
    requires Tree(tables, root, place, role) && p in place && p.Level() > 0 && 0 <= n < ENTRIES
    requires p.Child(n) !in place && a !in tables && Aligned(a.phys)
    ensures MapSame(tables, Hung(tables, place[p], n, a), root)
  {
    HungIsTree(tables, root, place, role, p, n, a);
    var tables', place', role' := Hung(tables, place[p], n, a), place[p.Child(n) := a], role[a := p.Child(n)];
    forall u
      ensures MapSameAt(tables, tables', root, u)
    {
      if IsVpn(u) {
        WalkFinds(tables, root, place, role, u);
        WalkFinds(tables', root, place', role', u);
      }
    }
  }

  /** Writing a slot of a bottom-level table. */
  function SlotSet(tables: Tables, l0: Page, n: int, e: bv64): Tables
    requires l0 in tables && 0 <= n < |tables[l0]|
  {
    tables[l0 := tables[l0][n := e]]
  }

  lemma SlotSetIsTree(tables: Tables, root: Page, place: map<Place, Page>, role: map<Page, Place>, v: Vpn, e: bv64)
    requires Tree(tables, root, place, role) && IsVpn(v) && Low(v.i2, v.i1) in place && LeafSlot(e)
    ensures Tree(SlotSet(tables, place[Low(v.i2, v.i1)], v.i0, e), root, place, role)
  {
    var tables' := SlotSet(tables, place[Low(v.i2, v.i1)], v.i0, e);
    forall q, m | q in place && q.Level() > 0 && 0 <= m < ENTRIES
      ensures LinkAt(tables', place, q, m)
    {
      assert LinkAt(tables, place, q, m);
      assert place[q] != place[Low(v.i2, v.i1)];
    }
  }

  /** Only page `v` of the map changes. */
  lemma SlotSetMaps(tables: Tables, root: Page, place: map<Place, Page>, role: map<Page, Place>, v: Vpn, e: bv64)
    requires Tree(tables, root, place, role) && IsVpn(v) && Low(v.i2, v.i1) in place && LeafSlot(e)
    ensures MapSet(tables, SlotSet(tables, place[Low(v.i2, v.i1)], v.i0, e), root, v, Decode(e))
  {
    SlotSetIsTree(tables, root, place, role, v, e);
    var tables' := SlotSet(tables, place[Low(v.i2, v.i1)], v.i0, e);
    forall u
      ensures MapSetAt(tables, tables', root, v, Decode(e), u)
    {
      if IsVpn(u) {
        WalkFinds(tables, root, place, role, u);
        WalkFinds(tables', root, place, role, u);
      }
    }
  }

  // ----- operations

  /** A physical address: a page-aligned frame and an offset below the page size. */
  datatype Address = Address(frame: bv64, offset: nat)

  /** The number of tables that a mapping of `v` still needs. */
  ghost function Missing(places: set<Place>, v: Vpn): nat {
    if Dir(v.i2) !in places then 2 else if Low(v.i2, v.i1) !in places then 1 else 0
  }

  /** The tables there are, and the number of pages left for more. */
  datatype Tally = Tally(places: set<Place>, free: nat) {
    ghost predicate Suffices(v: Vpn) {
      free >= Missing(places, v)
    }

    /** After looking for the way to `v`: what is missing is made as far as the pages go. */
    ghost function After(v: Vpn): Tally {
      if Suffices(v) then Tally(places + {Dir(v.i2), Low(v.i2, v.i1)}, free - Missing(places, v))
      else Tally(if free == 1 then places + {Dir(v.i2)} else places, 0)
    }
  }

  datatype Op =
    | MapOp(vaddr: u64, phys: bv64, writable: bool, user: bool, executable: bool)
    | ProtectOp(vaddr: u64, writable: bool, executable: bool, userOnly: bool)
    | UnmapOp(vaddr: u64, userOnly: bool)

  /** What a call does to page `v` of a finite map. */
  function Effect(m: Option<Mapping>, v: Vpn, op: Op, done: bool): Option<Mapping> {
    if VpnOf(op.vaddr) != v || op.vaddr % PAGE_SIZE != 0 then m
    else match op
         case MapOp(_, phys, writable, user, executable) =>
           if done then Some(Mapping(phys, writable, user, executable)) else m
         case ProtectOp(_, writable, executable, userOnly) =>
           if m.None? || (userOnly && !m.value.user) then m
           else Some(m.value.(writable := writable, executable := executable))
         case UnmapOp(_, userOnly) =>
           if m.None? || (userOnly && !m.value.user) then m else None
  }

  function Effects(m: Option<Mapping>, v: Vpn, ops: seq<Op>, done: seq<bool>): Option<Mapping>
    requires |ops| == |done|
  {
    if ops == [] then m
    else
      var n := |ops| - 1;
      Effect(Effects(m, v, ops[..n], done[..n]), v, ops[n], done[n])
  }

  /** A mapping is made if its addresses are aligned and there are pages for the tables it needs. */
  ghost predicate Aligns(op: Op) {
    op.MapOp? && op.vaddr % PAGE_SIZE == 0 && Aligned(op.phys)
  }

  ghost function TallyAfter(t: Tally, ops: seq<Op>): Tally {
    if ops == [] then t
    else
      var before, last := TallyAfter(t, ops[..|ops| - 1]), ops[|ops| - 1];
      if Aligns(last) then before.After(VpnOf(last.vaddr)) else before
  }

  /** Call `n` maps its page exactly if the pages that the calls before it left suffice. */
  ghost predicate MadeAt(t: Tally, ops: seq<Op>, done: seq<bool>, n: int) {
    0 <= n < |ops| && n < |done| && ops[n].MapOp? ==>
      (done[n] <==> Aligns(ops[n]) && TallyAfter(t, ops[..n]).Suffices(VpnOf(ops[n].vaddr)))
  }

  ghost predicate Made(t: Tally, ops: seq<Op>, done: seq<bool>) {
    forall n :: MadeAt(t, ops, done, n)
  }

  lemma MadeNext(t: Tally, ops: seq<Op>, done: seq<bool>, now: Tally, op: Op, ok: bool, ops': seq<Op>, done': seq<bool>)
    requires Made(t, ops, done) && |ops| == |done| && ops' == ops + [op] && done' == done + [ok]
    requires now == TallyAfter(t, ops)
    requires op.MapOp? ==> (ok <==> Aligns(op) && now.Suffices(VpnOf(op.vaddr)))
    ensures Made(t, ops', done')
    ensures TallyAfter(t, ops') == if Aligns(op) then now.After(VpnOf(op.vaddr)) else now
  {
    assert ops'[..|ops|] == ops;
    forall n
      ensures MadeAt(t, ops', done', n)
    {
      assert MadeAt(t, ops, done, n);
      if 0 <= n < |ops| {
        assert ops'[..n] == ops[..n];
      }
    }
  }

  ghost predicate Counted(was: Tally, now: Tally, op: Op, done: bool) {
    if Aligns(op) then Sought(was, now, VpnOf(op.vaddr), done) else now == was && (op.MapOp? ==> !done)
  }

  /** The tables stand for the map that the calls describe. */
  ghost predicate Described(s: Tables, t: Tables, root: Page, ops: seq<Op>, done: seq<bool>)
    requires |ops| == |done|
  {
    forall v :: DescribedAt(s, t, root, ops, done, v)
  }

  ghost predicate DescribedAt(s: Tables, t: Tables, root: Page, ops: seq<Op>, done: seq<bool>, v: Vpn)
    requires |ops| == |done|
  {
    IsVpn(v) ==> Mapped(t, root, v) == Effects(Mapped(s, root, v), v, ops, done)
  }

  ghost predicate Effected(s: Tables, t: Tables, root: Page, op: Op, done: bool) {
    forall v :: EffectedAt(s, t, root, op, done, v)
  }

  ghost predicate EffectedAt(s: Tables, t: Tables, root: Page, op: Op, done: bool, v: Vpn) {
    IsVpn(v) ==> Mapped(t, root, v) == Effect(Mapped(s, root, v), v, op, done)
  }

  lemma DescribedNext(s: Tables, t: Tables, u: Tables, root: Page, ops: seq<Op>, done: seq<bool>, op: Op, ok: bool,
                      ops': seq<Op>, done': seq<bool>)
    requires |ops| == |done| && Described(s, t, root, ops, done) && Effected(t, u, root, op, ok)
    requires ops' == ops + [op] && done' == done + [ok]
    ensures Described(s, u, root, ops', done')
  {
    assert ops'[..|ops|] == ops && done'[..|done|] == done;
    forall v
      ensures DescribedAt(s, u, root, ops', done', v)
    {
      assert DescribedAt(s, t, root, ops, done, v) && EffectedAt(t, u, root, op, ok, v);
    }
  }

  /** After the first `n` calls. */
  ghost predicate Performed(s: Tables, t: Tables, root: Page, tally: Tally, now: Tally, ops: seq<Op>, done: seq<bool>,
                            n: nat)
    requires n <= |ops| && n == |done|
  {
    forall v :: PerformedAt(s, t, root, tally, now, ops, done, n, v)
  }

  ghost predicate PerformedAt(s: Tables, t: Tables, root: Page, tally: Tally, now: Tally, ops: seq<Op>, done: seq<bool>,
                              n: nat, v: Vpn)
    requires n <= |ops| && n == |done|
  {
    && DescribedAt(s, t, root, ops[..n], done, v)
    && Made(tally, ops[..n], done) && now == TallyAfter(tally, ops[..n])
  }

  lemma NothingPerformed(s: Tables, root: Page, tally: Tally, ops: seq<Op>)
    ensures Performed(s, s, root, tally, tally, ops, [], 0)
  {
    assert ops[..0] == [];
  }

  lemma PerformedIs(s: Tables, t: Tables, root: Page, tally: Tally, now: Tally, ops: seq<Op>, done: seq<bool>, n: nat)
    requires n <= |ops| && n == |done| && Performed(s, t, root, tally, now, ops, done, n)
    ensures Described(s, t, root, ops[..n], done)
    ensures Made(tally, ops[..n], done) && now == TallyAfter(tally, ops[..n])
  {
    assert PerformedAt(s, t, root, tally, now, ops, done, n, Vpn(0, 0, 0));
    forall v
      ensures DescribedAt(s, t, root, ops[..n], done, v)
    {
      assert PerformedAt(s, t, root, tally, now, ops, done, n, v);
    }
  }

  lemma PerformedNext(s: Tables, t: Tables, u: Tables, root: Page, tally: Tally, before: Tally, now: Tally,
                      ops: seq<Op>, done: seq<bool>, ok: bool, done': seq<bool>, n: nat, next: nat)
    requires n < |ops| && n == |done| && next == n + 1 && done' == done + [ok]
    requires Performed(s, t, root, tally, before, ops, done, n) && Effected(t, u, root, ops[n], ok)
    requires Counted(before, now, ops[n], ok)
    ensures Performed(s, u, root, tally, now, ops, done', next)
  {
    var first, second := ops[..n], ops[..next];
    assert second == first + [ops[n]];
    PerformedIs(s, t, root, tally, before, ops, done, n);
    if Aligns(ops[n]) {
      SoughtIs(before, now, VpnOf(ops[n].vaddr), ok);
    }
    DescribedNext(s, t, u, root, first, done, ops[n], ok, second, done');
    MadeNext(tally, first, done, before, ops[n], ok, second, done');
    forall v
      ensures PerformedAt(s, u, root, tally, now, ops, done', next, v)
    {
      assert DescribedAt(s, u, root, second, done', v);
    }
  }

  /** Nothing happens. */
  lemma NoEffect(s: Tables, t: Tables, root: Page, op: Op, done: bool)
    requires MapSame(s, t, root)
    requires op.vaddr % PAGE_SIZE != 0 || (op.MapOp? && !done)
    ensures Effected(s, t, root, op, done)
  {
    forall v
      ensures EffectedAt(s, t, root, op, done, v)
    {
      assert MapSameAt(s, t, root, v);
    }
  }

  /** Nothing happens to a page that the call cannot reach. */
  lemma NotReached(s: Tables, root: Page, op: Op, userOnly: bool, done: bool)
    requires !op.MapOp? && op.userOnly == userOnly
    requires
      var m := Mapped(s, root, VpnOf(op.vaddr));
      m.None? || (userOnly && !m.value.user)
    ensures Effected(s, s, root, op, done)
  {
  }

  lemma OneEffect(s: Tables, t: Tables, root: Page, op: Op, done: bool, m: Option<Mapping>)
    requires MapSet(s, t, root, VpnOf(op.vaddr), m) && op.vaddr % PAGE_SIZE == 0
    requires m == Effect(Mapped(s, root, VpnOf(op.vaddr)), VpnOf(op.vaddr), op, done)
    ensures Effected(s, t, root, op, done)
  {
    forall v
      ensures EffectedAt(s, t, root, op, done, v)
    {
      assert MapSetAt(s, t, root, VpnOf(op.vaddr), m, v);
    }
  }

  /** What looking for the way to `v` leaves; `found` says whether it was found or could be made. */
  ghost predicate Sought(was: Tally, now: Tally, v: Vpn, found: bool) {
    forall q :: SoughtAt(was, now, v, found, q)
  }

  ghost predicate SoughtAt(was: Tally, now: Tally, v: Vpn, found: bool, q: Place) {
    && (found <==> was.Suffices(v)) && now.free == was.After(v).free
    && (q in now.places <==> q in was.After(v).places)
  }

  lemma SoughtIs(was: Tally, now: Tally, v: Vpn, found: bool)
    requires Sought(was, now, v, found)
    ensures (found <==> was.Suffices(v)) && now == was.After(v)
  {
    assert SoughtAt(was, now, v, found, Root);
    forall q
      ensures q in now.places <==> q in was.After(v).places
    {
      assert SoughtAt(was, now, v, found, q);
    }
    assert now.places == was.After(v).places;
  }

  /** The tables on the way to page `v` are there now, if there were enough pages for those that were missing. */
  ghost predicate PathFound(was: Tally, now: Tally, place: map<Place, Page>, v: Vpn, l0: Option<Page>) {
    && Sought(was, now, v, l0.Some?)
    && (l0.Some? ==> Low(v.i2, v.i1) in place && place[Low(v.i2, v.i1)] == l0.value)
  }

  lemma PathIs(was: map<Place, Page>, now: map<Place, Page>, pages: nat, between: nat, left: nat, v: Vpn, l1: Page,
               l0: Option<Page>)
    requires Low(v.i2, v.i1) in was ==> Dir(v.i2) in was
    requires between == pages - if Dir(v.i2) in was then 0 else 1
    requires l0.None? <==> Low(v.i2, v.i1) !in was && between == 0
    requires l0.Some? ==> now == was[Dir(v.i2) := l1][Low(v.i2, v.i1) := l0.value]
    requires l0.Some? ==> left == between - if Low(v.i2, v.i1) in was then 0 else 1
    requires l0.None? ==> now == was[Dir(v.i2) := l1] && left == between
    ensures PathFound(Tally(was.Keys, pages), Tally(now.Keys, left), now, v, l0)
  {
    if l0.Some? {
      assert now.Keys == was.Keys + {Dir(v.i2), Low(v.i2, v.i1)};
    } else if Dir(v.i2) in was {
      assert now.Keys == was.Keys;
    } else {
      assert now.Keys == was.Keys + {Dir(v.i2)};
    }
  }

  /** The tables form a tree, and the pages left are aligned and no tables. */
  ghost predicate Fit(tables: Tables, root: Page, place: map<Place, Page>, role: map<Page, Place>, pool: set<Page>) {
    forall a :: FitAt(tables, root, place, role, pool, a)
  }

  ghost predicate FitAt(tables: Tables, root: Page, place: map<Place, Page>, role: map<Page, Place>, pool: set<Page>,
                        a: Page)
  {
    Tree(tables, root, place, role) && (a in pool ==> a !in tables && Aligned(a.phys))
  }

  lemma FitIs(tables: Tables, root: Page, place: map<Place, Page>, role: map<Page, Place>, pool: set<Page>)
    requires Fit(tables, root, place, role, pool)
    ensures Tree(tables, root, place, role) && pool !! tables.Keys && forall a :: a in pool ==> Aligned(a.phys)
  {
    assert FitAt(tables, root, place, role, pool, root);
    forall a | a in pool
      ensures a !in tables && Aligned(a.phys)
    {
      assert FitAt(tables, root, place, role, pool, a);
    }
  }

  lemma IsFit(tables: Tables, root: Page, place: map<Place, Page>, role: map<Page, Place>, pool: set<Page>)
    requires Tree(tables, root, place, role) && pool !! tables.Keys && forall a :: a in pool ==> Aligned(a.phys)
    ensures Fit(tables, root, place, role, pool)
  {
  }

  /** A single cleared table is a tree that maps nothing. */
  lemma LoneRoot(a: Page, pool: set<Page>)
    requires Aligned(a.phys) && a !in pool && forall p :: p in pool ==> Aligned(p.phys)
    ensures Fit(map[a := ZeroTable()], a, map[Root := a], map[a := Root], pool)
    ensures forall v :: IsVpn(v) ==> Mapped(map[a := ZeroTable()], a, v) == None
  {
    ZeroIs();
    IsFit(map[a := ZeroTable()], a, map[Root := a], map[a := Root], pool);
  }

  class Space {
    var root: Page
    var tables: Tables
    var pool: set<Page>
    ghost var place: map<Place, Page>
    ghost var role: map<Page, Place>

    ghost predicate Ready()
      reads this
    {
      Fit(tables, root, place, role, pool)
    }

    /** All pages that are tables or could become tables. */
    ghost function Stock(): set<Page>
      reads this
    {
      tables.Keys + pool
    }

    ghost function Count(): Tally
      reads this
    {
      Tally(place.Keys, |pool|)
    }

    /** ensure_table */
    method EnsureTable(parent: Page, n: int) returns (child: Option<Page>)
      requires parent in tables && |tables[parent]| == ENTRIES && 0 <= n < ENTRIES
      modifies this`tables, this`pool
      ensures Valid(old(tables)[parent][n]) || old(pool) == {} ==> tables == old(tables) && pool == old(pool)
      ensures Valid(old(tables)[parent][n]) ==>
                child == if IsTable(old(tables)[parent][n]) then Some(TableOf(old(tables)[parent][n])) else None
      ensures !Valid(old(tables)[parent][n]) && old(pool) == {} ==> child.None?
      ensures !Valid(old(tables)[parent][n]) && old(pool) != {} ==>
                && child.Some? && child.value in old(pool) && pool == old(pool) - {child.value}
                && tables == Hung(old(tables), parent, n, child.value)
    {
      var e := tables[parent][n];
      if !Valid(e) {
        if pool == {} {
          return None;
        }
        var a :| a in pool;
        pool := pool - {a};
        tables := Hung(tables, parent, n, a);
        return Some(a);
      }
      if !IsTable(e) {
        return None;
      }
      return Some(TableOf(e));
    }

    /** One level of arch_vm_map_page's descent, seen as a step down the tree. */
    method Descend(ghost p: Place, parent: Page, n: int) returns (child: Option<Page>)
      requires Ready() && p in place && place[p] == parent && p.Level() > 0 && 0 <= n < ENTRIES
      modifies this
      ensures Ready() && root == old(root) && MapSame(old(tables), tables, root)
      ensures child.None? <==> p.Child(n) !in old(place) && old(pool) == {}
      ensures child.None? ==> place == old(place) && pool == old(pool)
      ensures child.Some? ==> place == old(place)[p.Child(n) := child.value]
      ensures child.Some? ==> |pool| == |old(pool)| - if p.Child(n) in old(place) then 0 else 1
      ensures Stock() == old(Stock())
    {
      FitIs(tables, root, place, role, pool);
      assert LinkAt(tables, place, p, n);
      child := EnsureTable(parent, n);
      SameMap(tables, root);
      if child.Some? && p.Child(n) !in place {
        NewPlace(p, parent, n, child.value, old(tables), old(pool));
      }
    }

    /** The new table is part of the tree. */
    ghost method NewPlace(p: Place, parent: Page, n: int, a: Page, was: Tables, pool': set<Page>)
      requires Tree(was, root, place, role) && p in place && place[p] == parent && p.Level() > 0 && 0 <= n < ENTRIES
      requires p.Child(n) !in place && a in pool' && pool' !! was.Keys && forall b :: b in pool' ==> Aligned(b.phys)
      requires tables == Hung(was, parent, n, a) && pool == pool' - {a}
      modifies this`place, this`role
      ensures Ready() && MapSame(was, tables, root) && place == old(place)[p.Child(n) := a]
      ensures Stock() == was.Keys + pool'
    {
      HungIsTree(was, root, place, role, p, n, a);
      HungKeepsMap(was, root, place, role, p, n, a);
      assert tables.Keys == was.Keys + {a};
      place, role := place[p.Child(n) := a], role[a := p.Child(n)];
      IsFit(tables, root, place, role, pool);
    }

    /** Write the slot of page `v` in the bottom-level table found for it. */
    method SetSlot(l0: Page, v: Vpn, e: bv64)
      requires Ready() && IsVpn(v) && Low(v.i2, v.i1) in place && place[Low(v.i2, v.i1)] == l0 && LeafSlot(e)
      modifies this`tables
      ensures Ready() && MapSet(old(tables), tables, root, v, Decode(e)) && Stock() == old(Stock())
    {
      FitIs(tables, root, place, role, pool);
      SlotSetIsTree(tables, root, place, role, v, e);
      SlotSetMaps(tables, root, place, role, v, e);
      tables := SlotSet(tables, l0, v.i0, e);
      assert tables.Keys == old(tables).Keys;
      IsFit(tables, root, place, role, pool);
    }

    /** The two ensure_table calls of arch_vm_map_page. */
    method EnsurePath(v: Vpn) returns (l0: Option<Page>)
      requires Ready() && IsVpn(v)
      modifies this
      ensures Ready() && root == old(root) && MapSame(old(tables), tables, root) && Stock() == old(Stock())
      ensures PathFound(old(Count()), Count(), place, v, l0)
    {
      FitIs(tables, root, place, role, pool);
      ghost var was, before := place, |pool|;
      var l1 := Descend(Root, root, v.i2);
      if l1.None? {
        return None;
      }
      ghost var middle, between := tables, |pool|;
      l0 := Descend(Dir(v.i2), l1.value, v.i1);
      MapSameTrans(old(tables), middle, tables, root);
      PathIs(was, place, before, between, |pool|, v, l1.value, l0);
    }

    /** arch_vm_map_page */
    method MapPage(vaddr: u64, phys: bv64, writable: bool, user: bool, executable: bool) returns (ok: bool)
      requires Ready()
      modifies this
      ensures Ready() && root == old(root) && Stock() == old(Stock())
      ensures ok ==> MapSet(old(tables), tables, root, VpnOf(vaddr), Some(Mapping(phys, writable, user, executable)))
      ensures !ok ==> MapSame(old(tables), tables, root)
      ensures if vaddr % PAGE_SIZE == 0 && Aligned(phys) then Sought(old(Count()), Count(), VpnOf(vaddr), ok)
              else !ok && place == old(place) && pool == old(pool)
    {
      if vaddr % PAGE_SIZE != 0 || !Aligned(phys) {
        SameMap(tables, root);
        return false;
      }
      ok := MapAt(VpnOf(vaddr), phys, writable, user, executable);
    }

    /** The rest of arch_vm_map_page, after its checks. */
    method MapAt(v: Vpn, phys: bv64, writable: bool, user: bool, executable: bool) returns (ok: bool)
      requires Ready() && IsVpn(v) && Aligned(phys)
      modifies this
      ensures Ready() && root == old(root) && Stock() == old(Stock())
      ensures ok ==> MapSet(old(tables), tables, root, v, Some(Mapping(phys, writable, user, executable)))
      ensures !ok ==> MapSame(old(tables), tables, root)
      ensures Sought(old(Count()), Count(), v, ok)
    {
      var l0 := EnsurePath(v);
      if l0.None? {
        return false;
      }
      ghost var before, m := tables, Mapping(phys, writable, user, executable);
      SetLeaf(l0.value, v, phys, writable, user, executable);
      MapSetAfterSame(old(tables), before, tables, root, v, Some(m));
      return true;
    }

    method SetLeaf(l0: Page, v: Vpn, phys: bv64, writable: bool, user: bool, executable: bool)
      requires Ready() && IsVpn(v) && Low(v.i2, v.i1) in place && place[Low(v.i2, v.i1)] == l0 && Aligned(phys)
      modifies this`tables
      ensures Ready() && Stock() == old(Stock())
      ensures MapSet(old(tables), tables, root, v, Some(Mapping(phys, writable, user, executable)))
    {
      LeafEntryIs(phys, writable, user, executable);
      SetSlot(l0, v, LeafEntry(phys, writable, user, executable));
    }

    /** arch_vm_protect_page, and arch_vm_protect_user_page when `userOnly`. */
    method Protect(vaddr: u64, writable: bool, executable: bool, userOnly: bool) returns (ok: bool)
      requires Ready()
      modifies this`tables
      ensures Ready() && Stock() == old(Stock())
      ensures ok <==> vaddr % PAGE_SIZE == 0 && Reached(old(tables), vaddr, userOnly)
      ensures !ok ==> tables == old(tables)
      ensures ok ==> var m := Mapped(old(tables), root, VpnOf(vaddr));
                     m.Some? && MapSet(old(tables), tables, root, VpnOf(vaddr),
                                       Some(m.value.(writable := writable, executable := executable)))
    {
      var v := VpnOf(vaddr);
      FitIs(tables, root, place, role, pool);
      WalkFinds(tables, root, place, role, v);
      var l0 := Walk(tables, root, v);
      if vaddr % PAGE_SIZE != 0 || l0.None? {
        ZeroIs();
        return false;
      }
      var e := tables[l0.value][v.i0];
      if !IsLeaf(e) || (userOnly && e & U == 0) {
        return false;
      }
      assert LeafSlot(e);
      ReprotectedIs(e, writable, executable);
      SetSlot(l0.value, v, WithExec(WithWrite(e, writable), executable));
      return true;
    }

    /** Page `vaddr` is mapped, and to user programs if only those count. */
    ghost predicate Reached(s: Tables, vaddr: u64, userOnly: bool)
      reads this
    {
      var m := Mapped(s, root, VpnOf(vaddr));
      m.Some? && (userOnly ==> m.value.user)
    }

    /** arch_vm_unmap_page, and arch_vm_unmap_user_page when `userOnly`: 0 stands for a page that is not mapped. */
    method Unmap(vaddr: u64, userOnly: bool) returns (phys: bv64)
      requires Ready()
      modifies this`tables
      ensures Ready() && Stock() == old(Stock())
      ensures vaddr % PAGE_SIZE != 0 || !Reached(old(tables), vaddr, userOnly) ==> phys == 0 && tables == old(tables)
      ensures vaddr % PAGE_SIZE == 0 && Reached(old(tables), vaddr, userOnly) ==>
                && phys == Mapped(old(tables), root, VpnOf(vaddr)).value.phys
                && MapSet(old(tables), tables, root, VpnOf(vaddr), None)
    {
      var v := VpnOf(vaddr);
      FitIs(tables, root, place, role, pool);
      WalkFinds(tables, root, place, role, v);
      ZeroIs();
      var l0 := Walk(tables, root, v);
      if vaddr % PAGE_SIZE != 0 || l0.None? {
        return 0;
      }
      var e := tables[l0.value][v.i0];
      if !IsLeaf(e) || (userOnly && e & U == 0) {
        return 0;
      }
      SetSlot(l0.value, v, 0);
      return Phys(e);
    }

    /** arch_vm_translate, and arch_vm_translate_user when `userOnly`; None stands for 0. */
    method Translate(vaddr: u64, write: bool, userOnly: bool) returns (r: Option<Address>)
      requires Ready()
      ensures r.Some? <==>
              Reached(tables, vaddr, userOnly) && (write ==> Mapped(tables, root, VpnOf(vaddr)).value.writable)
      ensures r.Some? ==> r.value == Address(Mapped(tables, root, VpnOf(vaddr)).value.phys, vaddr % PAGE_SIZE)
    {
      var v := VpnOf(vaddr);
      FitIs(tables, root, place, role, pool);
      WalkFinds(tables, root, place, role, v);
      ZeroIs();
      var l0 := Walk(tables, root, v);
      if l0.None? {
        return None;
      }
      var e := tables[l0.value][v.i0];
      if !IsLeaf(e) || (userOnly && e & U == 0) || (write && e & W == 0) {
        return None;
      }
      return Some(Address(Phys(e), vaddr % PAGE_SIZE));
    }

    /** One call of the interface; `done` says whether a mapping was made. */
    method Perform(op: Op) returns (done: bool)
      requires Ready()
      modifies this
      ensures Ready() && root == old(root) && Stock() == old(Stock()) && Effected(old(tables), tables, root, op, done)
      ensures Counted(old(Count()), Count(), op, done)
    {
      match op {
        case MapOp(vaddr, phys, writable, user, executable) => done := PerformMap(op);
        case ProtectOp(vaddr, writable, executable, userOnly) => done := PerformProtect(op);
        case UnmapOp(vaddr, userOnly) => done := PerformUnmap(op);
      }
    }

    method PerformMap(op: Op) returns (done: bool)
      requires Ready() && op.MapOp?
      modifies this
      ensures Ready() && root == old(root) && Stock() == old(Stock()) && Effected(old(tables), tables, root, op, done)
      ensures Counted(old(Count()), Count(), op, done)
    {
      done := MapPage(op.vaddr, op.phys, op.writable, op.user, op.executable);
      if done {
        OneEffect(old(tables), tables, root, op, done,
                  Some(Mapping(op.phys, op.writable, op.user, op.executable)));
      } else {
        NoEffect(old(tables), tables, root, op, done);
      }
    }

    method PerformProtect(op: Op) returns (done: bool)
      requires Ready() && op.ProtectOp?
      modifies this`tables
      ensures Ready() && Stock() == old(Stock()) && Effected(old(tables), tables, root, op, done)
    {
      ghost var m := Mapped(tables, root, VpnOf(op.vaddr));
      done := Protect(op.vaddr, op.writable, op.executable, op.userOnly);
      if done {
        OneEffect(old(tables), tables, root, op, done,
                  Some(m.value.(writable := op.writable, executable := op.executable)));
      } else if op.vaddr % PAGE_SIZE != 0 {
        SameMap(tables, root);
        NoEffect(old(tables), tables, root, op, done);
      } else {
        NotReached(tables, root, op, op.userOnly, done);
      }
    }

    method PerformUnmap(op: Op) returns (done: bool)
      requires Ready() && op.UnmapOp?
      modifies this`tables
      ensures Ready() && Stock() == old(Stock()) && Effected(old(tables), tables, root, op, done)
    {
      ghost var reached := Reached(tables, op.vaddr, op.userOnly);
      var _ := Unmap(op.vaddr, op.userOnly);
      done := true;
      if op.vaddr % PAGE_SIZE != 0 {
        SameMap(tables, root);
        NoEffect(old(tables), tables, root, op, done);
      } else if reached {
        OneEffect(old(tables), tables, root, op, done, None);
      } else {
        NotReached(tables, root, op, op.userOnly, done);
      }
    }

    /**
    Any sequence of calls leaves the tables standing for the map that the calls
    describe, page by page; and which mappings are made follows from the tables
    and the pages there were before.
    */
    method PerformAll(ops: seq<Op>) returns (done: seq<bool>)
      requires Ready()
      modifies this
      ensures Ready() && root == old(root) && |done| == |ops| && Stock() == old(Stock())
      ensures Described(old(tables), tables, root, ops, done)
      ensures Made(old(Count()), ops, done) && Count() == TallyAfter(old(Count()), ops)
    {
      done := [];
      ghost var start, t := tables, Count();
      var n := 0;
      NothingPerformed(start, root, t, ops);
      while n < |ops|
        invariant Ready() && 0 <= n <= |ops| && |done| == n && root == old(root) && Stock() == old(Stock())
        invariant Performed(start, tables, root, t, Count(), ops, done, n)
      {
        ghost var before, now, done' := tables, Count(), done;
        var next := n + 1;
        var ok := Perform(ops[n]);
        done := done + [ok];
        PerformedNext(start, before, tables, root, t, now, Count(), ops, done', ok, done, n, next);
        n := next;
      }
      PerformedIs(start, tables, root, t, Count(), ops, done, n);
      assert ops[..n] == ops;
    }

    /** The root table of arch_vm_space_init. */
    method InitRoot() returns (ok: bool)
      requires forall a :: a in pool ==> Aligned(a.phys)
      modifies this
      ensures ok <==> old(pool) != {}
      ensures !ok ==> pool == old(pool)
      ensures ok ==> Ready() && Stock() == old(pool) && forall v :: IsVpn(v) ==> Mapped(tables, root, v) == None
      ensures ok ==> place.Keys == {Root} && |pool| == |old(pool)| - 1
    {
      if pool == {} {
        return false;
      }
      var a :| a in pool;
      pool := pool - {a};
      root, tables := a, map[a := ZeroTable()];
      place, role := map[Root := a], map[a := Root];
      LoneRoot(root, pool);
      assert Stock() == old(pool);
      return true;
    }

    /** One page of an identity window. */
    method MapWindowPage(windows: seq<Window>, n: nat, next: nat) returns (ok: bool)
      requires Ready() && n < |windows| && next == n + 1 && windows[n].Fits()
      requires WindowsDone(tables, root, place.Keys, windows, n)
      modifies this
      ensures Ready() && root == old(root) && Stock() == old(Stock())
      ensures ok <==> |old(pool)| + |old(place).Keys| >= |PlacesFor(VpnsOf(windows[..next]))|
      ensures ok ==> WindowsDone(tables, root, place.Keys, windows, next)
      ensures ok ==> |pool| + |place.Keys| == |old(pool)| + |old(place).Keys|
    {
      ghost var before, places := tables, place.Keys;
      var w := windows[n];
      FitIs(tables, root, place, role, pool);
      WindowsDoneIs(before, root, places, windows, n);
      PlacesGrow(places, windows, n, next);
      ok := MapPage(w.vaddr, w.phys, true, false, w.executable);
      SoughtIs(old(Count()), Count(), VpnOf(w.vaddr), ok);
      if ok {
        WindowStep(before, tables, root, places, place.Keys, windows, n, next);
      }
    }

    /** map_supervisor_identity_window, for all windows. */
    method MapWindows(windows: seq<Window>) returns (ok: bool)
      requires Ready() && WindowsDone(tables, root, place.Keys, windows, 0) && |place.Keys| == 1
      requires forall i :: 0 <= i < |windows| ==> windows[i].Fits()
      modifies this
      ensures Ready() && Stock() == old(Stock())
      ensures ok <==> |old(pool)| + 1 >= |PlacesFor(VpnsOf(windows))|
      ensures ok ==> WindowsMapped(tables, root, windows)
    {
      var n := 0;
      while n < |windows|
        invariant 0 <= n <= |windows| && Ready() && Stock() == old(Stock())
        invariant WindowsDone(tables, root, place.Keys, windows, n) && |pool| + |place.Keys| == |old(pool)| + 1
      {
        var next := n + 1;
        FewerPlaces(windows, next);
        ok := MapWindowPage(windows, n, next);
        if !ok {
          return;
        }
        n := next;
      }
      AllWindowsDone(tables, root, place.Keys, windows);
      return true;
    }

    /**
    arch_vm_space_init; `windows` are the pages of its identity windows.  It fails
    exactly if there are too few pages for the tables, and then all of them go back.
    */
    method Init(windows: seq<Window>) returns (ok: bool)
      requires forall a :: a in pool ==> Aligned(a.phys)
      requires forall i :: 0 <= i < |windows| ==> windows[i].Fits()
      modifies this
      ensures ok <==> |old(pool)| >= |PlacesFor(VpnsOf(windows))|
      ensures ok ==> Ready() && Stock() == old(pool) && WindowsMapped(tables, root, windows)
      ensures !ok ==> pool == old(pool)
    {
      HasRoot(VpnsOf(windows));
      ok := InitRoot();
      if !ok {
        return;
      }
      NoWindows(tables, root, place.Keys, windows);
      ok := MapWindows(windows);
      if !ok {
        Destroy();
      }
    }

    /** zero_table and pmm_page_free_addr: a page must not be freed twice. */
    method FreePage(a: Page)
      requires a in tables && a !in pool
      modifies this`tables, this`pool
      ensures tables == old(tables) - {a} && pool == old(pool) + {a}
    {
      tables := tables[a := ZeroTable()];
      tables, pool := tables - {a}, pool + {a};
    }

    /** free_table; `was` is what the tables held when the destruction began. */
    method FreeTable(a: Page, level: nat, ghost p: Place, ghost was: Tables)
      requires Tree(was, root, place, role) && p in place && place[p] == a && p.Level() == level
      requires Intact(was, tables, place, p) && pool !! tables.Keys
      modifies this`tables, this`pool
      ensures tables == old(tables) - Pages(place, p) && pool == old(pool) + Pages(place, p)
      decreases level
    {
      var n := 0;
      while level > 0 && n < ENTRIES
        invariant 0 <= n <= ENTRIES
        invariant tables == old(tables) - PagesBefore(place, p, n) && pool == old(pool) + PagesBefore(place, p, n)
        decreases ENTRIES - n
      {
        var next := n + 1;
        FreedNext(was, old(tables), root, place, role, p, n, next);
        var e := tables[a][n];
        if IsTable(e) {
          FreeTable(TableOf(e), level - 1, p.Child(n), was);
          MinusBoth(old(tables), PagesBefore(place, p, n), Pages(place, p.Child(n)));
        }
        n := next;
      }
      FreedLast(was, old(tables), root, place, role, p, n);
      FreePage(a);
      MinusBoth(old(tables), PagesBefore(place, p, n), {a});
    }

    /** arch_vm_space_destroy */
    method Destroy()
      requires Ready()
      modifies this`tables, this`pool
      ensures tables == map[] && pool == old(pool) + old(tables).Keys
    {
      FitIs(tables, root, place, role, pool);
      AllPages(tables, root, place, role);
      FreeTable(root, 2, Root, tables);
    }
  }

  // ----- a new space

  /** One page of an identity window; `phys` is the same address as `vaddr`. */
  datatype Window = Window(vaddr: u64, phys: bv64, executable: bool) {
    predicate Fits() {
      vaddr % PAGE_SIZE == 0 && Aligned(phys)
    }
  }

  function VpnsOf(windows: seq<Window>): seq<Vpn> {
    seq(|windows|, i requires 0 <= i < |windows| => VpnOf(windows[i].vaddr))
  }

  /** The tables that are needed to map pages. */
  ghost function PlacesFor(vs: seq<Vpn>): set<Place> {
    if vs == [] then {Root}
    else
      var v := vs[|vs| - 1];
      PlacesFor(vs[..|vs| - 1]) + {Dir(v.i2), Low(v.i2, v.i1)}
  }

  /** What page `v` is mapped to once the windows are: the last of them that has it. */
  function WindowAt(windows: seq<Window>, v: Vpn): Option<Mapping> {
    if windows == [] then None
    else
      var w := windows[|windows| - 1];
      if VpnOf(w.vaddr) == v then Some(Mapping(w.phys, true, false, w.executable))
      else WindowAt(windows[..|windows| - 1], v)
  }

  ghost predicate WindowsMapped(tables: Tables, root: Page, windows: seq<Window>) {
    forall v :: WindowMappedAt(tables, root, windows, v)
  }

  ghost predicate WindowMappedAt(tables: Tables, root: Page, windows: seq<Window>, v: Vpn) {
    IsVpn(v) ==> Mapped(tables, root, v) == WindowAt(windows, v)
  }

  /** After the first `n` windows. */
  ghost predicate WindowsDone(tables: Tables, root: Page, places: set<Place>, windows: seq<Window>, n: nat)
    requires n <= |windows|
  {
    forall v :: WindowDoneAt(tables, root, places, windows, n, v)
  }

  ghost predicate WindowDoneAt(tables: Tables, root: Page, places: set<Place>, windows: seq<Window>, n: nat, v: Vpn)
    requires n <= |windows|
  {
    places == PlacesFor(VpnsOf(windows[..n])) && WindowMappedAt(tables, root, windows[..n], v)
  }

  lemma WindowsDoneIs(tables: Tables, root: Page, places: set<Place>, windows: seq<Window>, n: nat)
    requires n <= |windows| && WindowsDone(tables, root, places, windows, n)
    ensures places == PlacesFor(VpnsOf(windows[..n])) && WindowsMapped(tables, root, windows[..n])
  {
    assert WindowDoneAt(tables, root, places, windows, n, Vpn(0, 0, 0));
    forall v
      ensures WindowMappedAt(tables, root, windows[..n], v)
    {
      assert WindowDoneAt(tables, root, places, windows, n, v);
    }
  }

  lemma AllWindowsDone(tables: Tables, root: Page, places: set<Place>, windows: seq<Window>)
    requires WindowsDone(tables, root, places, windows, |windows|)
    ensures places == PlacesFor(VpnsOf(windows)) && WindowsMapped(tables, root, windows)
  {
    assert windows[..|windows|] == windows;
    WindowsDoneIs(tables, root, places, windows, |windows|);
  }

  lemma NoWindows(tables: Tables, root: Page, places: set<Place>, windows: seq<Window>)
    requires places == {Root} && forall v :: IsVpn(v) ==> Mapped(tables, root, v) == None
    ensures WindowsDone(tables, root, places, windows, 0) && |places| == 1
  {
    assert windows[..0] == [] && VpnsOf([]) == [];
  }

  lemma WindowStep(s: Tables, t: Tables, root: Page, places: set<Place>, places': set<Place>, windows: seq<Window>,
                   n: nat, next: nat)
    requires n < |windows| && next == n + 1 && WindowsMapped(s, root, windows[..n])
    requires places' == PlacesFor(VpnsOf(windows[..next]))
    requires
      var w := windows[n];
      MapSet(s, t, root, VpnOf(w.vaddr), Some(Mapping(w.phys, true, false, w.executable)))
    ensures WindowsDone(t, root, places', windows, next)
  {
    var w, done, more := windows[n], windows[..n], windows[..next];
    assert more[..n] == done && more[n] == w;
    forall v
      ensures WindowDoneAt(t, root, places', windows, next, v)
    {
      assert MapSetAt(s, t, root, VpnOf(w.vaddr), Some(Mapping(w.phys, true, false, w.executable)), v);
      assert WindowMappedAt(s, root, done, v);
    }
  }

  lemma FewerPlaces(windows: seq<Window>, n: nat)
    requires n <= |windows|
    ensures |PlacesFor(VpnsOf(windows[..n]))| <= |PlacesFor(VpnsOf(windows))|
  {
    assert VpnsOf(windows[..n]) == VpnsOf(windows)[..n];
    PlacesWithin(VpnsOf(windows), n);
    SubsetSize(PlacesFor(VpnsOf(windows[..n])), PlacesFor(VpnsOf(windows)));
  }

  lemma {:induction false} PlacesWithin(vs: seq<Vpn>, n: nat)
    requires n <= |vs|
    ensures PlacesFor(vs[..n]) <= PlacesFor(vs)
    decreases |vs| - n
  {
    if n < |vs| {
      PlacesWithin(vs, n + 1);
      assert vs[..n + 1][..n] == vs[..n];
    } else {
      assert vs[..n] == vs;
    }
  }

  lemma {:induction false} HasRoot(vs: seq<Vpn>)
    ensures Root in PlacesFor(vs) && |PlacesFor(vs)| >= 1
  {
    if vs != [] {
      HasRoot(vs[..|vs| - 1]);
    }
    SubsetSize({Root}, PlacesFor(vs));
  }

  /** The tables that are missing for one more page. */
  lemma PlacesGrow(places: set<Place>, windows: seq<Window>, n: nat, next: nat)
    requires n < |windows| && next == n + 1 && places == PlacesFor(VpnsOf(windows[..n]))
    requires forall i, j :: Low(i, j) in places ==> Dir(i) in places
    ensures
      var v := VpnOf(windows[n].vaddr);
      && PlacesFor(VpnsOf(windows[..next])) == places + {Dir(v.i2), Low(v.i2, v.i1)}
      && |PlacesFor(VpnsOf(windows[..next]))| == |places| + Missing(places, v)
  {
    var vs, v := VpnsOf(windows[..next]), VpnOf(windows[n].vaddr);
    assert vs[..n] == VpnsOf(windows[..n]) && vs[n] == v;
    OneMorePage(places, vs, v);
  }

  lemma OneMorePage(places: set<Place>, vs: seq<Vpn>, v: Vpn)
    requires vs != [] && vs[|vs| - 1] == v && places == PlacesFor(vs[..|vs| - 1])
    requires forall i, j :: Low(i, j) in places ==> Dir(i) in places
    ensures PlacesFor(vs) == places + {Dir(v.i2), Low(v.i2, v.i1)}
    ensures |PlacesFor(vs)| == |places| + Missing(places, v)
  {
    TwoMore(places, Dir(v.i2), Low(v.i2, v.i1));
  }

  lemma TwoMore<T>(s: set<T>, x: T, y: T)
    requires x != y
    ensures x !in s && y !in s ==> |s + {x, y}| == |s| + 2
    ensures x in s && y !in s ==> |s + {x, y}| == |s| + 1
    ensures x in s && y in s ==> |s + {x, y}| == |s|
  {
    OneMore(s, x);
    OneMore(s + {x}, y);
    assert s + {x, y} == s + {x} + {y};
  }

  lemma OneMore<T>(s: set<T>, x: T)
    ensures |s + {x}| == |s| + if x in s then 0 else 1
  {
    if x in s {
      assert s + {x} == s;
    }
  }

  // ----- destruction

  /** Place `q` is in the subtree of `p`. */
  predicate Under(p: Place, q: Place) {
    match p
    case Root => true
    case Dir(i) => !q.Root? && q.i == i
    case Low(_, _) => q == p
  }

  /** Place `q` is in the subtree of one of the first `n` children of `p`. */
  predicate Before(p: Place, q: Place, n: int) {
    match p
    case Root => !q.Root? && q.i < n
    case Dir(i) => q.Low? && q.i == i && q.j < n
    case Low(_, _) => false
  }

  ghost function Pages(place: map<Place, Page>, p: Place): set<Page> {
    set q | q in place && Under(p, q) :: place[q]
  }

  ghost function PagesBefore(place: map<Place, Page>, p: Place, n: int): set<Page> {
    set q | q in place && Before(p, q, n) :: place[q]
  }

  /** The subtree of `p` is still there. */
  ghost predicate Intact(was: Tables, tables: Tables, place: map<Place, Page>, p: Place) {
    forall q :: q in place && Under(p, q) ==> place[q] in tables && place[q] in was && tables[place[q]] == was[place[q]]
  }

  lemma FreedNext(was: Tables, start: Tables, root: Page, place: map<Place, Page>, role: map<Page, Place>, p: Place,
                  n: int, next: int)
    requires Tree(was, root, place, role) && p in place && p.Level() > 0 && 0 <= n < ENTRIES && next == n + 1
    requires Intact(was, start, place, p)
    ensures
      var tables := start - PagesBefore(place, p, n);
      && place[p] in tables && tables[place[p]] == was[place[p]]
      && (IsTable(was[place[p]][n]) <==> p.Child(n) in place)
      && (p.Child(n) in place ==>
            && TableOf(was[place[p]][n]) == place[p.Child(n)]
            && Intact(was, tables, place, p.Child(n))
            && PagesBefore(place, p, next) == PagesBefore(place, p, n) + Pages(place, p.Child(n)))
      && (p.Child(n) !in place ==> PagesBefore(place, p, next) == PagesBefore(place, p, n))
  {
    assert LinkAt(was, place, p, n);
    forall q | q in place && Before(p, q, next)
      ensures Before(p, q, n) || (Under(p.Child(n), q) && p.Child(n) in place)
    {
    }
  }

  lemma MinusBoth(tables: Tables, first: set<Page>, second: set<Page>)
    ensures tables - first - second == tables - (first + second)
  {
  }

  lemma FreedLast(was: Tables, start: Tables, root: Page, place: map<Place, Page>, role: map<Page, Place>, p: Place,
                  n: int)
    requires Tree(was, root, place, role) && p in place && (p.Level() > 0 ==> n == ENTRIES)
    requires Intact(was, start, place, p)
    ensures place[p] in start - PagesBefore(place, p, n) && Pages(place, p) == PagesBefore(place, p, n) + {place[p]}
  {
    forall q | q in place && Under(p, q)
      ensures q == p || Before(p, q, n)
    {
    }
  }

  lemma AllPages(tables: Tables, root: Page, place: map<Place, Page>, role: map<Page, Place>)
    requires Tree(tables, root, place, role)
    ensures Pages(place, Root) == tables.Keys && Intact(tables, tables, place, Root)
  {
    forall a | a in tables
      ensures a in Pages(place, Root)
    {
      assert role[a] in place && Under(Root, role[a]);
    }
  }

  lemma SameMap(s: Tables, root: Page)
    ensures MapSame(s, s, root)
  {
  }

  lemma MapSameTrans(s: Tables, t: Tables, u: Tables, root: Page)
    requires MapSame(s, t, root) && MapSame(t, u, root)
    ensures MapSame(s, u, root)
  {
    forall v
      ensures MapSameAt(s, u, root, v)
    {
      assert MapSameAt(s, t, root, v) && MapSameAt(t, u, root, v);
    }
  }

  lemma MapSetAfterSame(s: Tables, t: Tables, u: Tables, root: Page, v: Vpn, m: Option<Mapping>)
    requires MapSame(s, t, root) && MapSet(t, u, root, v, m)
    ensures MapSet(s, u, root, v, m)
  {
    forall w
      ensures MapSetAt(s, u, root, v, m, w)
    {
      assert MapSameAt(s, t, root, w) && MapSetAt(t, u, root, v, m, w);
    }
  }

  // ----- which addresses share a page

  /** Addresses have the same slot exactly when they agree on bits 12 to 38. */
  lemma SameSlotIff(a: u64, b: u64)
    ensures VpnOf(a) == VpnOf(b) <==> a / PAGE_SIZE % 0x800_0000 == b / PAGE_SIZE % 0x800_0000
  {
    PageDigits(a);
    PageDigits(b);
    Digits(a / PAGE_SIZE);
    Digits(b / PAGE_SIZE);
    SameDigits(VpnOf(a), VpnOf(b));
  }

  function Number(v: Vpn): int {
    v.i2 * 0x4_0000 + v.i1 * 0x200 + v.i0
  }

  lemma SameDigits(v: Vpn, w: Vpn)
    requires IsVpn(v) && IsVpn(w)
    ensures Number(v) == Number(w) <==> v == w
  {
  }

  lemma PageDigits(a: u64)
    ensures VpnOf(a) == var p := a / PAGE_SIZE; Vpn(p / 0x4_0000 % ENTRIES, p / 0x200 % ENTRIES, p % ENTRIES)
  {
    assert a / 0x20_0000 == a / PAGE_SIZE / 0x200;
    assert a / 0x4000_0000 == a / PAGE_SIZE / 0x4_0000;
  }

  lemma Digits(p: nat)
    ensures p % 0x800_0000 == p / 0x4_0000 % ENTRIES * 0x4_0000 + p / 0x200 % ENTRIES * 0x200 + p % ENTRIES
  {
    var q := p / 0x200;
    var r := q / 0x200;
    DividedTwice(p, q, r);
    Remainder(p, q, r, r / 0x200);
  }

  lemma DividedTwice(p: nat, q: nat, r: nat)
    requires q == p / 0x200 && r == q / 0x200
    ensures r == p / 0x4_0000
  {
    assert p == 0x200 * q + p % 0x200 && q == 0x200 * r + q % 0x200;
    assert p == 0x4_0000 * r + (0x200 * (q % 0x200) + p % 0x200);
  }

  lemma Remainder(p: nat, q: nat, r: nat, t: nat)
    requires q == p / 0x200 && r == q / 0x200 && t == r / 0x200
    ensures p % 0x800_0000 == r % 0x200 * 0x4_0000 + q % 0x200 * 0x200 + p % 0x200
  {
    assert p == 0x200 * q + p % 0x200 && q == 0x200 * r + q % 0x200 && r == 0x200 * t + r % 0x200;
    assert p == 0x800_0000 * t + (0x4_0000 * (r % 0x200) + 0x200 * (q % 0x200) + p % 0x200);
  }

  /** Page-aligned addresses below 2^39 have slots of their own. */
  lemma OwnSlot(a: u64, b: u64)
    requires a < 0x80_0000_0000 && b < 0x80_0000_0000 && a % PAGE_SIZE == 0 && b % PAGE_SIZE == 0
    ensures VpnOf(a) == VpnOf(b) <==> a == b
  {
    SameSlotIff(a, b);
  }
}
