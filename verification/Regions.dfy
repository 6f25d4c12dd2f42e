/**
The per-task table of virtual-memory regions (kernel/sched.c).

The table is an unordered array that entries are coalesced into, split in,
swap-removed from and appended to while a loop runs over it.  What callers rely
on is much simpler: a map from addresses to attributes.  `At` is that map, and
every operation below is proved to change it on exactly the requested range.

Memory: `grants` is the number of table allocations the heap will satisfy
during a call before it refuses one; each operation stops at its first refusal,
so ranging over `grants` covers every way the heap can answer.
*/
module Regions {
  import opened Common

  const INITIAL_REGIONS := 32

  datatype ObjectType = NoObject | Anon | File

  datatype Attr = Attr(prot: bv32, flags: bv32, kind: nat, objectType: ObjectType, objectId: nat)

  datatype Region = Region(base: nat, len: nat, offset: u64, attr: Attr) {
    function End(): nat {
      base + len
    }

    predicate Holds(a: int) {
      base <= a < End()
    }

    /** The half-open ranges have an address in common. */
    predicate Overlaps(lo: int, hi: int) {
      base < hi && lo < End()
    }
  }

  /** The test `base + len < base` of 64-bit arithmetic. */
  predicate Wraps(base: u64, len: u64) {
    (base + len) % U64 < base
  }

  predicate BadRange(base: u64, len: u64) {
    len == 0 || Wraps(base, len)
  }

  lemma BadRangeMeaning(base: u64, len: u64)
    ensures BadRange(base, len) <==> len == 0 || base + len >= U64
  {
    if base + len >= U64 {
      assert (base + len) % U64 == base + len - U64;
    }
  }

  // ----- the table as an address map

  ghost predicate Table(rs: seq<Region>) {
    && (forall i :: 0 <= i < |rs| ==> 0 < rs[i].len && rs[i].End() < U64)
    && (forall i, j :: 0 <= i < j < |rs| ==> !rs[i].Overlaps(rs[j].base, rs[j].End()))
  }

  ghost predicate HeldAt(rs: seq<Region>, i: int, a: int) {
    0 <= i < |rs| && rs[i].Holds(a)
  }

  /** What the table records for address `a`. */
  ghost function At(rs: seq<Region>, a: int): Option<Attr> {
    if exists i :: HeldAt(rs, i, a) then
      var i :| HeldAt(rs, i, a);
      Some(rs[i].attr)
    else
      None
  }

  ghost predicate Free(rs: seq<Region>, lo: int, hi: int) {
    forall a :: lo <= a < hi ==> At(rs, a).None?
  }

  ghost predicate Covered(rs: seq<Region>, lo: int, hi: int) {
    forall a :: lo <= a < hi ==> At(rs, a).Some?
  }

  /** `now` is `was` with `[lo, hi)` set to `t`. */
  ghost predicate SetOn(was: seq<Region>, now: seq<Region>, lo: int, hi: int, t: Option<Attr>) {
    forall a :: At(now, a) == if lo <= a < hi then t else At(was, a)
  }

  function WithProt(t: Option<Attr>, prot: bv32): Option<Attr> {
    if t.Some? then Some(t.value.(prot := prot)) else None
  }

  /** `now` is `was` with the protection replaced throughout `[lo, hi)`. */
  ghost predicate ProtectedOn(was: seq<Region>, now: seq<Region>, lo: int, hi: int, prot: bv32) {
    forall a :: At(now, a) == if lo <= a < hi then WithProt(At(was, a), prot) else At(was, a)
  }

  ghost predicate SameMap(was: seq<Region>, now: seq<Region>) {
    forall a :: At(now, a) == At(was, a)
  }

  lemma OneHolder(rs: seq<Region>, i: int, j: int, a: int)
    requires Table(rs)
    requires HeldAt(rs, i, a) && HeldAt(rs, j, a)
    ensures i == j
  {
  }

  lemma AtIs(rs: seq<Region>, i: int, a: int)
    requires Table(rs)
    requires HeldAt(rs, i, a)
    ensures At(rs, a) == Some(rs[i].attr)
  {
    forall k | HeldAt(rs, k, a)
      ensures k == i
    {
      OneHolder(rs, i, k, a);
    }
  }

  lemma FreeIsNoOverlap(rs: seq<Region>, lo: int, hi: int)
    requires Table(rs) && 0 <= lo < hi
    ensures Free(rs, lo, hi) <==> forall i :: 0 <= i < |rs| ==> !rs[i].Overlaps(lo, hi)
  {
    if Free(rs, lo, hi) {
      forall i | 0 <= i < |rs|
        ensures !rs[i].Overlaps(lo, hi)
      {
        var a := if rs[i].base < lo then lo else rs[i].base;
        assert lo <= a < hi ==> At(rs, a).None? && !HeldAt(rs, i, a);
      }
    }
  }

  // ----- matching an existing entry

  predicate AppendOffsetMatches(r: Region, t: Attr, offset: u64) {
    t.objectId == 0 || t.objectType.Anon? || (r.offset + r.len) % U64 == offset
  }

  predicate PrependOffsetMatches(r: Region, base: u64, len: u64, t: Attr, offset: u64) {
    || base >= r.base
    || t.objectId == 0
    || t.objectType.Anon?
    || ((offset + (r.base - base)) % U64 == r.offset && (offset + len) % U64 >= r.offset)
  }

  /** Entry `i` ends where the new mapping begins and carries the same metadata. */
  predicate Appends(rs: seq<Region>, i: nat, base: nat, t: Attr, offset: u64)
    requires i < |rs|
  {
    rs[i].attr == t && AppendOffsetMatches(rs[i], t, offset) && rs[i].End() == base
  }

  /** Entry `i` touches or overlaps the new mapping and carries the same metadata. */
  predicate Absorbs(rs: seq<Region>, i: nat, base: u64, len: u64, t: Attr, offset: u64)
    requires i < |rs|
  {
    && rs[i].attr == t
    && PrependOffsetMatches(rs[i], base, len, t, offset)
    && rs[i].base <= base + len
    && base <= rs[i].End()
  }

  ghost predicate ClearOfOthers(rs: seq<Region>, skip: nat, lo: int, hi: int) {
    forall j :: 0 <= j < |rs| && j != skip ==> !rs[j].Overlaps(lo, hi)
  }

  /** Some entry ends where the mapping `r` begins and can take it in. */
  ghost predicate Joins(rs: seq<Region>, base: nat, t: Attr, offset: u64) {
    exists i: nat :: i < |rs| && Appends(rs, i, base, t, offset)
  }

  /** `now` is `was` with the mapping `r` joined to an entry that ends where it begins, or appended if there is none. */
  ghost predicate Added(was: seq<Region>, now: seq<Region>, r: Region) {
    if Joins(was, r.base, r.attr, r.offset) then
      exists i: nat :: i < |was| && Appends(was, i, r.base, r.attr, r.offset)
                       && now == was[i := was[i].(len := was[i].len + r.len)]
    else now == was + [r]
  }

  // ----- growing the table

  function Doubled(capacity: nat): nat {
    if capacity == 0 then INITIAL_REGIONS else 2 * capacity
  }

  /** The capacity that a table can grow to with `grants` allocations. */
  function Reach(capacity: nat, grants: nat): (r: nat)
    ensures r >= capacity
    decreases grants
  {
    if grants == 0 then capacity else Reach(Doubled(capacity), grants - 1)
  }

  // ----- effect of one table edit on the map

  /** Growing entry `i` to cover `[lo, hi)` as well, when nothing else is in the way. */
  lemma GrowEntry(rs: seq<Region>, i: nat, r: Region, lo: int, hi: int)
    requires Table(rs) && i < |rs|
    requires r.attr == rs[i].attr && 0 < r.len && r.End() < U64
    requires r.base <= rs[i].base && rs[i].End() <= r.End()
    requires forall a :: r.Holds(a) <==> rs[i].Holds(a) || lo <= a < hi
    requires ClearOfOthers(rs, i, r.base, r.End())
    ensures Table(rs[i := r])
    ensures SetOn(rs, rs[i := r], lo, hi, Some(r.attr))
  {
    var now := rs[i := r];
    forall a
      ensures At(now, a) == if lo <= a < hi then Some(r.attr) else At(rs, a)
    {
      if r.Holds(a) {
        assert HeldAt(now, i, a);
        AtIs(now, i, a);
        if rs[i].Holds(a) {
          assert HeldAt(rs, i, a);
          AtIs(rs, i, a);
        }
      } else {
        SameElsewhere(rs, now, i, a);
      }
    }
  }

  /** Changing one entry does not affect addresses neither version of it holds. */
  lemma SameElsewhere(rs: seq<Region>, now: seq<Region>, i: nat, a: int)
    requires Table(rs) && Table(now)
    requires i < |rs| <= |now|
    requires forall j :: 0 <= j < |rs| && j != i ==> now[j] == rs[j]
    requires !rs[i].Holds(a) && !now[i].Holds(a)
    requires forall j :: |rs| <= j < |now| ==> !now[j].Holds(a)
    ensures At(now, a) == At(rs, a)
  {
    assert forall k :: HeldAt(now, k, a) ==> HeldAt(rs, k, a);
    if k :| HeldAt(rs, k, a) {
      assert HeldAt(now, k, a);
      AtIs(rs, k, a);
      AtIs(now, k, a);
    }
  }

  lemma AppendEntry(rs: seq<Region>, r: Region)
    requires Table(rs) && 0 < r.len && r.End() < U64
    requires Free(rs, r.base, r.End())
    ensures Table(rs + [r])
    ensures SetOn(rs, rs + [r], r.base, r.End(), Some(r.attr))
  {
    FreeIsNoOverlap(rs, r.base, r.End());
    var now := rs + [r];
    forall a
      ensures At(now, a) == if r.Holds(a) then Some(r.attr) else At(rs, a)
    {
      assert forall k :: HeldAt(now, k, a) && k < |rs| ==> HeldAt(rs, k, a);
      if r.Holds(a) {
        assert HeldAt(now, |rs|, a);
        AtIs(now, |rs|, a);
      } else if k :| HeldAt(rs, k, a) {
        assert HeldAt(now, k, a);
        AtIs(rs, k, a);
        AtIs(now, k, a);
      }
    }
  }

  /** Deleting entry `i` by moving the last entry into its slot. */
  function SwapRemove(rs: seq<Region>, i: nat): seq<Region>
    requires i < |rs|
  {
    rs[i := rs[|rs| - 1]][..|rs| - 1]
  }

  lemma SwapRemoveEntry(rs: seq<Region>, i: nat)
    requires Table(rs) && i < |rs|
    ensures Table(SwapRemove(rs, i))
    ensures SetOn(rs, SwapRemove(rs, i), rs[i].base, rs[i].End(), None)
  {
    var now, last := SwapRemove(rs, i), |rs| - 1;
    forall a
      ensures At(now, a) == if rs[i].Holds(a) then None else At(rs, a)
    {
      if k :| HeldAt(now, k, a) {
        var j := if k == i then last else k;
        assert HeldAt(rs, j, a);
        AtIs(rs, j, a);
        AtIs(now, k, a);
        if rs[i].Holds(a) {
          OneHolder(rs, i, j, a);
        }
      } else if k :| HeldAt(rs, k, a) && k != i {
        assert HeldAt(now, if k == last then i else k, a);
      }
    }
  }

  /** Replacing entry `i` by a part of itself, possibly with other attributes. */
  lemma TrimEntry(rs: seq<Region>, i: nat, r: Region)
    requires Table(rs) && i < |rs|
    requires 0 < r.len && rs[i].base <= r.base && r.End() <= rs[i].End()
    ensures Table(rs[i := r])
    ensures forall a :: At(rs[i := r], a) ==
                        if r.Holds(a) then Some(r.attr) else if rs[i].Holds(a) then None else At(rs, a)
  {
    var now := rs[i := r];
    forall a
      ensures At(now, a) == if r.Holds(a) then Some(r.attr) else if rs[i].Holds(a) then None else At(rs, a)
    {
      if r.Holds(a) {
        assert HeldAt(now, i, a);
        AtIs(now, i, a);
      } else if rs[i].Holds(a) {
        forall k
          ensures !HeldAt(now, k, a)
        {
          if HeldAt(rs, k, a) {
            OneHolder(rs, i, k, a);
          }
        }
      } else {
        SameElsewhere(rs, now, i, a);
      }
    }
  }

  // ----- boundaries that fall inside an entry

  ghost predicate StraddledBy(rs: seq<Region>, j: int, x: int) {
    0 <= j < |rs| && rs[j].base < x < rs[j].End()
  }

  ghost predicate Straddled(rs: seq<Region>, x: int) {
    exists j :: StraddledBy(rs, j, x)
  }

  /** The number of extra entries needed to make both ends of a range entry boundaries. */
  ghost function Straddlers(rs: seq<Region>, lo: int, hi: int): nat {
    (if Straddled(rs, lo) then 1 else 0) + (if Straddled(rs, hi) then 1 else 0)
  }

  /** Some entry extends beyond both ends of the range. */
  ghost predicate PiercedBy(rs: seq<Region>, j: int, lo: int, hi: int) {
    0 <= j < |rs| && rs[j].base < lo && hi < rs[j].End()
  }

  ghost predicate Pierced(rs: seq<Region>, lo: int, hi: int) {
    exists j :: PiercedBy(rs, j, lo, hi)
  }

  /** The number of pieces a range cuts off an entry it overlaps. */
  function PiecesOf(r: Region, lo: int, hi: int): nat {
    (if r.base < lo < r.End() then 1 else 0) + (if r.base < hi < r.End() then 1 else 0)
  }

  /** The addresses of entry `i` are recorded with its attributes. */
  lemma HeldBySelf(rs: seq<Region>, i: nat)
    requires Table(rs) && i < |rs|
    ensures forall a :: rs[i].Holds(a) ==> At(rs, a) == Some(rs[i].attr)
  {
    forall a | rs[i].Holds(a)
      ensures At(rs, a) == Some(rs[i].attr)
    {
      assert HeldAt(rs, i, a);
      AtIs(rs, i, a);
    }
  }

  /** Cutting entry `i` at `x` into itself and an appended rest. */
  lemma CutEntry(rs: seq<Region>, i: nat, keep: Region, rest: Region, x: int)
    requires Table(rs) && i < |rs| && rs[i].base < x < rs[i].End()
    requires 0 < keep.len && 0 < rest.len
    requires
      || (keep.base == rs[i].base && keep.End() == x == rest.base && rest.End() == rs[i].End())
      || (rest.base == rs[i].base && rest.End() == x == keep.base && keep.End() == rs[i].End())
    ensures
      var now := rs[i := keep] + [rest];
      && Table(now)
      && (forall a :: At(now, a) == if rest.Holds(a) then Some(rest.attr)
                                    else if keep.Holds(a) then Some(keep.attr)
                                    else At(rs, a))
      && !Straddled(now, x)
      && (forall y :: y != x ==> Straddled(now, y) == Straddled(rs, y))
  {
    TrimEntry(rs, i, keep);
    AppendEntry(rs[i := keep], rest);
    CutStraddles(rs, i, keep, rest, x);
  }

  lemma CutStraddles(rs: seq<Region>, i: nat, keep: Region, rest: Region, x: int)
    requires Table(rs) && i < |rs| && rs[i].base < x < rs[i].End()
    requires
      || (keep.base == rs[i].base && keep.End() == x == rest.base && rest.End() == rs[i].End())
      || (rest.base == rs[i].base && rest.End() == x == keep.base && keep.End() == rs[i].End())
    ensures
      var now := rs[i := keep] + [rest];
      && !Straddled(now, x)
      && (forall y :: y != x ==> Straddled(now, y) == Straddled(rs, y))
  {
    var now := rs[i := keep] + [rest];
    forall j
      ensures !StraddledBy(now, j, x)
    {
      if 0 <= j < |rs| && j != i && rs[j].base < x < rs[j].End() {
        OneHolder(rs, i, j, x);
      }
    }
    forall y | y != x
      ensures Straddled(now, y) == Straddled(rs, y)
    {
      if j :| StraddledBy(rs, j, y) {
        assert StraddledBy(now, j, y) || StraddledBy(now, |rs|, y);
      }
      if j :| StraddledBy(now, j, y) {
        assert StraddledBy(rs, if j == |rs| then i else j, y);
      }
    }
  }

  class RegionTable {
    var regions: seq<Region>
    var capacity: nat

    ghost predicate Valid()
      reads this
    {
      && Table(regions)
      && |regions| <= capacity
      && (capacity == 0 || capacity >= INITIAL_REGIONS)
    }

    constructor ()
      ensures Valid() && regions == [] && capacity == 0
    {
      regions, capacity := [], 0;
    }

    /** task_grow_vm_regions_locked: double until the request fits. */
    method Grow(min: nat, grants: nat) returns (ok: bool, left: nat)
      modifies this`capacity
      ensures ok <==> old(capacity) >= min || grants > 0
      ensures ok ==> capacity >= min
      ensures old(capacity) >= min || !ok ==> capacity == old(capacity) && left == grants
      ensures old(capacity) < min && ok ==>
                && left == grants - 1
                && capacity >= 2 * old(capacity)
                && (old(capacity) == 0 ==> capacity >= INITIAL_REGIONS)
                && (min == old(capacity) + 1 ==> capacity == Doubled(old(capacity)))
    {
      if capacity >= min {
        return true, grants;
      }
      var wanted := if capacity == 0 then INITIAL_REGIONS else capacity;
      while wanted < min
        invariant wanted >= 1
        invariant || wanted in {if capacity == 0 then INITIAL_REGIONS else capacity, 2 * capacity}
                  || 4 * capacity <= wanted < 2 * min
        invariant wanted >= capacity && (capacity == 0 ==> wanted >= INITIAL_REGIONS)
        decreases min - wanted
      {
        wanted := wanted * 2;
      }
      if grants == 0 {
        return false, grants;
      }
      capacity := wanted;
      return true, grants - 1;
    }

    /** task_vm_range_overlaps_other_locked */
    method OverlapsOther(skip: nat, lo: nat, hi: nat) returns (b: bool)
      ensures b <==> !ClearOfOthers(regions, skip, lo, hi)
    {
      for i := 0 to |regions|
        invariant forall j :: 0 <= j < i && j != skip ==> !regions[j].Overlaps(lo, hi)
      {
        if i != skip && regions[i].Overlaps(lo, hi) {
          return true;
        }
      }
      return false;
    }

    /** task_add_vm_mapping: coalesce with an entry that ends at `base`, else append. */
    method Add(base: u64, len: u64, t: Attr, offset: u64, grants: nat) returns (ok: bool, left: nat)
      requires Valid()
      modifies this
      ensures Valid()
      ensures ok <==>
              && 0 < len && base + len < U64 && Free(old(regions), base, base + len)
              && (Joins(old(regions), base, t, offset) || |old(regions)| < old(capacity) || grants > 0)
      ensures ok ==> SetOn(old(regions), regions, base, base + len, Some(t))
      ensures ok ==> Added(old(regions), regions, Region(base, len, offset, t))
      ensures !ok ==> regions == old(regions)
      ensures if ok && !Joins(old(regions), base, t, offset) && |old(regions)| == old(capacity)
              then left == grants - 1 && capacity == Doubled(old(capacity))
              else left == grants && capacity == old(capacity)
    {
      BadRangeMeaning(base, len);
      left := grants;
      if BadRange(base, len) {
        return false, left;
      }
      ok := TryJoin(base, len, t, offset);
      if ok {
        return;
      }
      var clear := IsClear(base, base + len);
      if !clear {
        return false, left;
      }
      ok, left := Grow(|regions| + 1, left);
      if !ok {
        return;
      }
      AppendEntry(regions, Region(base, len, offset, t));
      regions := regions + [Region(base, len, offset, t)];
    }

    /** The first loop of task_add_vm_mapping: an entry that ends at `base` takes the mapping in. */
    method TryJoin(base: u64, len: u64, t: Attr, offset: u64) returns (ok: bool)
      requires Valid() && 0 < len && base + len < U64
      modifies this`regions
      ensures Valid()
      ensures ok <==> Joins(old(regions), base, t, offset) && Free(old(regions), base, base + len)
      ensures ok ==> SetOn(old(regions), regions, base, base + len, Some(t))
      ensures ok ==> Added(old(regions), regions, Region(base, len, offset, t))
      ensures !ok ==> regions == old(regions)
    {
      var i := 0;
      while i < |regions|
        invariant 0 <= i <= |regions| && regions == old(regions)
        invariant forall j: nat :: j < i && Appends(regions, j, base, t, offset) ==> !Free(regions, base, base + len)
      {
        if Appends(regions, i, base, t, offset) {
          var r := regions[i];
          FreeBesideEntry(regions, i, base, base + len);
          var blocked := OverlapsOther(i, r.base, r.base + (r.len + len));
          if !blocked {
            GrowEntry(regions, i, r.(len := r.len + len), base, base + len);
            regions := regions[i := r.(len := r.len + len)];
            return true;
          }
        }
        i := i + 1;
      }
      return false;
    }

    /** No entry overlaps the range. */
    method IsClear(lo: nat, hi: nat) returns (b: bool)
      requires Table(regions) && lo < hi
      ensures b <==> Free(regions, lo, hi)
    {
      FreeIsNoOverlap(regions, lo, hi);
      for i := 0 to |regions|
        invariant forall j :: 0 <= j < i ==> !regions[j].Overlaps(lo, hi)
      {
        if regions[i].Overlaps(lo, hi) {
          return false;
        }
      }
      return true;
    }

    /** task_add_or_extend_vm_mapping: widen a matching entry that touches the range, else add. */
    method AddOrExtend(base: u64, len: u64, t: Attr, offset: u64, grants: nat) returns (ok: bool, left: nat)
      requires Valid()
      modifies this
      ensures Valid()
      ensures ok ==> 0 < len && base + len < U64
      ensures ok ==> SetOn(old(regions), regions, base, base + len, Some(t))
      ensures ok ==> forall a :: base <= a < base + len ==> At(old(regions), a) in {None, Some(t)}
      ensures !ok ==> regions == old(regions) && capacity == old(capacity)
      ensures ok <==>
              && 0 < len && base + len < U64
              && (|| (exists i: nat :: i < |old(regions)| && Absorbs(old(regions), i, base, len, t, offset)
                                       && ClearOfOthers(old(regions), i, base, base + len))
                  || (Free(old(regions), base, base + len)
                      && (Joins(old(regions), base, t, offset) || |old(regions)| < old(capacity) || grants > 0)))
    {
      BadRangeMeaning(base, len);
      left := grants;
      if BadRange(base, len) {
        return false, left;
      }
      ok := TryWiden(base, len, t, offset);
      if !ok {
        ok, left := Add(base, len, t, offset, grants);
      }
    }

    /** The loop of task_add_or_extend_vm_mapping: a matching entry that touches the range is widened to it. */
    method TryWiden(base: u64, len: u64, t: Attr, offset: u64) returns (ok: bool)
      requires Valid() && 0 < len && base + len < U64
      modifies this`regions
      ensures Valid()
      ensures ok <==> exists i: nat :: i < |old(regions)| && Absorbs(old(regions), i, base, len, t, offset)
                                       && ClearOfOthers(old(regions), i, base, base + len)
      ensures ok ==> SetOn(old(regions), regions, base, base + len, Some(t))
      ensures ok ==> forall a :: base <= a < base + len ==> At(old(regions), a) in {None, Some(t)}
      ensures !ok ==> regions == old(regions)
    {
      var i := 0;
      while i < |regions|
        invariant 0 <= i <= |regions| && regions == old(regions)
        invariant forall j: nat :: j < i && Absorbs(regions, j, base, len, t, offset) ==>
                                     !ClearOfOthers(regions, j, base, base + len)
      {
        if Absorbs(regions, i, base, len, t, offset) {
          var r := regions[i];
          var newBase := if base < r.base then base else r.base;
          var newEnd := if base + len > r.End() then base + len else r.End();
          var blocked := OverlapsOther(i, newBase, newEnd);
          if !blocked {
            var wide := Region(newBase, newEnd - newBase, if newBase != r.base then offset else r.offset, r.attr);
            GrowEntry(regions, i, wide, base, base + len);
            OnlyEntry(regions, i, base, base + len);
            regions := regions[i := wide];
            return true;
          }
          ClearWiden(regions, i, base, base + len);
        }
        i := i + 1;
      }
      return false;
    }

    /** task_vm_range_is_free */
    method IsFree(base: u64, len: u64) returns (b: bool)
      requires Valid()
      ensures b <==> 0 < len && base + len < U64 && Free(regions, base, base + len)
    {
      BadRangeMeaning(base, len);
      if BadRange(base, len) {
        return false;
      }
      b := IsClear(base, base + len);
    }

    /** task_vm_range_is_covered_locked: hop from entry to entry until the end is reached. */
    method IsCovered(base: u64, len: u64) returns (b: bool)
      requires Valid() && base + len < U64
      ensures b <==> Covered(regions, base, base + len)
    {
      var end := base + len;
      var cursor := base;
      while cursor < end
        invariant base <= cursor <= end
        invariant Covered(regions, base, cursor)
        decreases end - cursor
      {
        var found := false;
        var i := 0;
        var from := cursor;
        while i < |regions| && !found
          invariant 0 <= i <= |regions|
          invariant Covered(regions, base, from)
          invariant !found ==> cursor == from && forall j :: 0 <= j < i ==> !regions[j].Holds(from)
          invariant found ==> from < cursor <= end && Covered(regions, base, cursor)
          decreases |regions| - i, !found
        {
          if regions[i].Holds(cursor) {
            var stop := if regions[i].End() < end then regions[i].End() else end;
            HeldBySelf(regions, i);
            cursor := stop;
            found := true;
          } else {
            i := i + 1;
          }
        }
        if !found {
          assert forall j :: !HeldAt(regions, j, from);
          assert At(regions, from).None?;
          return false;
        }
      }
      return true;
    }

    /** task_append_vm_region_locked */
    method Append(r: Region, grants: nat) returns (ok: bool, left: nat)
      modifies this
      ensures ok <==> |old(regions)| < old(capacity) || grants > 0
      ensures regions == if ok then old(regions) + [r] else old(regions)
      ensures |old(regions)| < old(capacity) || !ok ==> capacity == old(capacity) && left == grants
      ensures ok ==> capacity > |old(regions)|
      ensures |old(regions)| >= old(capacity) && ok ==>
                && left == grants - 1
                && capacity >= 2 * old(capacity)
                && (old(capacity) == 0 ==> capacity >= INITIAL_REGIONS)
    {
      ok, left := Grow(|regions| + 1, grants);
      if ok {
        regions := regions + [r];
      }
    }

    /** An entry that both boundaries cut: shrink it, append the middle and the right piece. */
    method ProtectMiddle(i: nat, base: nat, end: nat, prot: bv32, grants: nat) returns (ok: bool, left: nat)
      requires Valid() && i < |regions| && regions[i].base < base < end < regions[i].End()
      modifies this
      ensures Valid()
      ensures ok <==> |old(regions)| + PiecesOf(old(regions)[i], base, end) <= old(capacity) || grants > 0
      ensures ok ==> PartProtected(old(regions), regions, i, base, end, prot)
      ensures PiecesOf(old(regions)[i], base, end) <= Straddlers(old(regions), base, end)
      ensures (capacity == old(capacity) && left == grants) || (grants > 0 && |old(regions)| + 2 <= capacity)
      ensures !ok ==> exists a :: HeldAt(old(regions), i, a) && At(regions, a).None?
      ensures !ok && |old(regions)| == old(capacity) ==> At(regions, base).None?
    {
      var r := regions[i];
      ghost var before := regions;
      var middle := Region(base, end - base, r.offset, r.attr.(prot := prot));
      var right := r.(base := end, len := r.End() - end);
      var keep := r.(len := base - r.base);
      HeldBySelf(before, i);
      TrimEntry(before, i, keep);
      CutTwice(before, i, keep, middle, right);
      regions := regions[i := keep];
      ok, left := Append(middle, grants);
      if !ok {
        assert HeldAt(before, i, base) && At(regions, base).None?;
        return;
      }
      ok, left := Append(right, left);
      assert ok ==> regions == before[i := keep] + [middle, right];
      assert !ok ==> HeldAt(before, i, end) && At(regions, end).None?;
    }

    /** One entry that a boundary of `[base, end)` cuts: shrink it, append the cut-off pieces. */
    method ProtectPart(i: nat, base: nat, end: nat, prot: bv32, grants: nat) returns (ok: bool, left: nat)
      requires Valid() && i < |regions|
      requires regions[i].Overlaps(base, end) && base < end
      requires regions[i].base < base || end < regions[i].End()
      modifies this
      ensures Valid()
      ensures ok <==> |old(regions)| + PiecesOf(old(regions)[i], base, end) <= old(capacity) || grants > 0
      ensures ok ==> PartProtected(old(regions), regions, i, base, end, prot)
      ensures PiecesOf(old(regions)[i], base, end) <= Straddlers(old(regions), base, end)
      ensures (capacity == old(capacity) && left == grants) || (grants > 0 && |old(regions)| + 2 <= capacity)
      ensures !ok ==> exists a :: HeldAt(old(regions), i, a) && At(regions, a).None?
      ensures !ok && |old(regions)| == old(capacity) && old(regions)[i].base < base ==> At(regions, base).None?
    {
      var r := regions[i];
      ghost var before := regions;
      var protectBase := if base > r.base then base else r.base;
      var protectEnd := if end < r.End() then end else r.End();
      var middle := Region(protectBase, protectEnd - protectBase, r.offset, r.attr.(prot := prot));
      HeldBySelf(before, i);
      if protectBase == r.base {
        var rest := r.(base := protectEnd, len := r.End() - protectEnd);
        TrimEntry(before, i, rest);
        CutEntry(before, i, rest, middle, end);
        assert StraddledBy(before, i, end);
        regions := regions[i := rest];
        ok, left := Append(middle, grants);
        assert !ok ==> HeldAt(before, i, protectBase) && At(regions, protectBase).None?;
      } else if protectEnd == r.End() {
        var keep := r.(len := protectBase - r.base);
        TrimEntry(before, i, keep);
        CutEntry(before, i, keep, middle, base);
        assert StraddledBy(before, i, base);
        regions := regions[i := keep];
        ok, left := Append(middle, grants);
        assert !ok ==> HeldAt(before, i, protectBase) && At(regions, protectBase).None?;
      } else {
        ok, left := ProtectMiddle(i, base, end, prot, grants);
      }
    }

    /** One pass of the protection loop over an entry that overlaps the range. */
    method ProtectEntry(i: nat, base: nat, end: nat, prot: bv32, ghost was: seq<Region>, grants: nat)
      returns (ok: bool, left: nat)
      requires Valid() && i < |regions|
      requires regions[i].Overlaps(base, end) && base < end
      requires PartlyProtected(was, regions, i, base, end, prot)
      modifies this
      ensures Valid()
      ensures ok <==> |old(regions)| + PiecesOf(old(regions)[i], base, end) <= old(capacity) || grants > 0
      ensures PiecesOf(old(regions)[i], base, end) <= Straddlers(old(regions), base, end)
      ensures ok ==> |regions| == |old(regions)| + PiecesOf(old(regions)[i], base, end)
      ensures ok ==> Straddlers(regions, base, end) + PiecesOf(old(regions)[i], base, end)
                     == Straddlers(old(regions), base, end)
      ensures (capacity == old(capacity) && left == grants) || (grants > 0 && |old(regions)| + 2 <= capacity)
      ensures ok ==> PartlyProtected(was, regions, i + 1, base, end, prot)
      ensures !ok ==> exists a :: At(was, a).Some? && At(regions, a).None?
      ensures !ok && |old(regions)| == old(capacity) && old(regions)[i].base < base ==> At(regions, base).None?
    {
      var r := regions[i];
      ghost var before := regions;
      var protectBase := if base > r.base then base else r.base;
      var protectEnd := if end < r.End() then end else r.End();
      if protectBase == r.base && protectEnd == r.End() {
        var whole := r.(attr := r.attr.(prot := prot));
        TrimEntry(before, i, whole);
        HeldBySelf(before, i);
        ProtectStep(was, before, before[i := whole], i, whole, base, end, prot);
        SameStraddlers(before, i, whole, base, end);
        regions := regions[i := whole];
        ok, left := true, grants;
      } else {
        ok, left := ProtectPart(i, base, end, prot, grants);
        if ok {
          ghost var middle := Region(protectBase, protectEnd - protectBase, r.offset, r.attr.(prot := prot));
          ProtectStep(was, before, regions, i, middle, base, end, prot);
        } else {
          LostToCaller(was, before, regions, i, base, end, prot);
        }
      }
    }

    /**
    task_protect_vm_region.  Entries that a range boundary cuts are shrunk first
    and the pieces appended afterwards, so running out of memory in between
    loses addresses.
    */
    method Protect(base: u64, len: u64, prot: bv32, grants: nat) returns (ok: bool, left: nat)
      requires Valid()
      modifies this
      ensures Valid()
      ensures ok <==>
              && 0 < len && base + len < U64
              && Covered(old(regions), base, base + len)
              && (|old(regions)| + Straddlers(old(regions), base, base + len) <= old(capacity) || grants > 0)
      ensures ok ==> ProtectedOn(old(regions), regions, base, base + len, prot)
      ensures ok ==> |regions| == |old(regions)| + Straddlers(old(regions), base, base + len)
      ensures !ok && (len == 0 || base + len >= U64 || !Covered(old(regions), base, base + len)) ==>
                regions == old(regions) && capacity == old(capacity)
      ensures !ok && 0 < len && base + len < U64 && Covered(old(regions), base, base + len) ==>
                exists a :: At(old(regions), a).Some? && At(regions, a).None?
      ensures !ok && 0 < len && Pierced(old(regions), base, base + len) && |old(regions)| == old(capacity) ==>
                At(regions, base).None?
    {
      BadRangeMeaning(base, len);
      left := grants;
      if BadRange(base, len) {
        return false, left;
      }
      var covered := IsCovered(base, len);
      if !covered {
        PiercedIsCovered(regions, base, base + len);
        return false, left;
      }
      ok, left := ProtectAll(base, base + len, prot, grants);
    }

    /** The loop of task_protect_vm_region. */
    method ProtectAll(base: nat, end: nat, prot: bv32, grants: nat) returns (ok: bool, left: nat)
      requires Valid() && base < end
      modifies this
      ensures Valid()
      ensures ok <==> |old(regions)| + Straddlers(old(regions), base, end) <= old(capacity) || grants > 0
      ensures ok ==> ProtectedOn(old(regions), regions, base, end, prot)
      ensures ok ==> |regions| == |old(regions)| + Straddlers(old(regions), base, end)
      ensures !ok ==> exists a :: At(old(regions), a).Some? && At(regions, a).None?
      ensures !ok && Pierced(old(regions), base, end) && |old(regions)| == old(capacity) ==> At(regions, base).None?
    {
      left := grants;
      ghost var was := regions;
      var i := 0;
      NothingProtected(was, base, end, prot);
      while i < |regions|
        invariant 0 <= i <= |regions| && Valid()
        invariant |regions| + Straddlers(regions, base, end) == |was| + Straddlers(was, base, end)
        invariant
          || (capacity == old(capacity) && left == grants)
          || (|regions| + Straddlers(regions, base, end) <= capacity && grants > 0)
        invariant PartlyProtected(was, regions, i, base, end, prot)
        invariant Pierced(was, base, end) && |was| == old(capacity) && grants == 0 ==> regions == was && left == 0
        decreases Straddlers(regions, base, end), |regions| - i
      {
        if regions[i].Overlaps(base, end) {
          OnlyPiercer(regions, i, base, end);
          ok, left := ProtectEntry(i, base, end, prot, was, left);
          if !ok {
            return;
          }
        } else {
          ProtectOver(was, regions, i, base, end, prot, i + 1);
        }
        i := i + 1;
      }
      AllProtected(was, regions, base, end, prot);
      ok := true;
    }

    /**
    One pass of the removal loop over an entry that overlaps the range: delete
    it, trim it, or split it.  `next` is the index the loop continues with.
    */
    method RemoveEntry(i: nat, base: nat, end: nat, ghost was: seq<Region>, grants: nat)
      returns (ok: bool, left: nat, next: nat)
      requires Valid() && i < |regions|
      requires regions[i].Overlaps(base, end) && base < end
      requires PartlyRemoved(was, regions, i, base, end)
      modifies this
      ensures Valid()
      ensures ok <==> !PiercedBy(old(regions), i, base, end) || |old(regions)| < old(capacity) || grants > 0
      ensures ok ==> next <= |regions| && PartlyRemoved(was, regions, next, base, end)
      ensures ok ==> !Pierced(regions, base, end)
      ensures ok && !PiercedBy(old(regions), i, base, end) ==>
                !Pierced(old(regions), base, end) && |regions| - next < |old(regions)| - i
      ensures ok && Within(old(regions)[i], base, end) ==> regions == SwapRemove(old(regions), i) && next == i
      ensures !ok ==> regions == old(regions) && capacity == old(capacity)
    {
      var r := regions[i];
      var removeBase := if base > r.base then base else r.base;
      var removeEnd := if end < r.End() then end else r.End();
      OnlyPiercer(regions, i, base, end);
      left, next := grants, i + 1;
      if removeBase == r.base && removeEnd == r.End() {
        SwapOut(i, base, end, was);
        return true, left, i;
      }
      if removeBase == r.base {
        Shrink(i, r.(base := removeEnd, len := r.End() - removeEnd), base, end, was, next);
        return true, left, next;
      }
      if removeEnd == r.End() {
        Shrink(i, r.(len := removeBase - r.base), base, end, was, next);
        return true, left, next;
      }
      ok, left := SplitEntry(i, base, end, was, left);
    }

    /** An entry inside the removed range goes. */
    method SwapOut(i: nat, base: nat, end: nat, ghost was: seq<Region>)
      requires Valid() && i < |regions| && Within(regions[i], base, end) && base < end
      requires PartlyRemoved(was, regions, i, base, end) && !Pierced(regions, base, end)
      modifies this`regions
      ensures Valid() && regions == SwapRemove(old(regions), i)
      ensures PartlyRemoved(was, regions, i, base, end) && !Pierced(regions, base, end)
    {
      RemoveWhole(was, regions, i, base, end);
      regions := regions[i := regions[|regions| - 1]][..|regions| - 1];
    }

    /** An entry that sticks out of the removed range on one side keeps that side. */
    method Shrink(i: nat, piece: Region, base: nat, end: nat, ghost was: seq<Region>, ghost next: nat)
      requires Valid() && i < |regions| && base < end && next == i + 1
      requires PartlyRemoved(was, regions, i, base, end) && !Pierced(regions, base, end)
      requires SideOf(regions[i], piece, base, end)
      modifies this`regions
      ensures Valid() && |regions| == |old(regions)|
      ensures PartlyRemoved(was, regions, next, base, end) && !Pierced(regions, base, end)
    {
      RemoveSide(was, regions, i, piece, base, end, next);
      regions := regions[i := piece];
    }

    /** An entry that the removed range pierces becomes two. */
    method SplitEntry(i: nat, base: nat, end: nat, ghost was: seq<Region>, grants: nat) returns (ok: bool, left: nat)
      requires Valid() && i < |regions| && regions[i].base < base < end < regions[i].End()
      requires PartlyRemoved(was, regions, i, base, end)
      modifies this
      ensures Valid()
      ensures ok <==> |old(regions)| < old(capacity) || grants > 0
      ensures ok ==> |old(regions)| < |regions| && PartlyRemoved(was, regions, i + 1, base, end)
      ensures ok ==> !Pierced(regions, base, end)
      ensures !ok ==> regions == old(regions) && capacity == old(capacity)
    {
      var r := regions[i];
      var keep := r.(len := base - r.base);
      var right := r.(base := end, len := r.End() - end);
      SplitInTwo(was, regions, i, keep, right, base, end, i + 1);
      ok, left := Grow(|regions| + 1, grants);
      if ok {
        regions := regions[i := keep] + [right];
      }
    }

    /** task_remove_vm_region */
    method Remove(base: u64, len: u64, grants: nat) returns (ok: bool, left: nat)
      requires Valid()
      modifies this
      ensures Valid()
      ensures ok <==>
              && 0 < len && base + len < U64
              && (!Pierced(old(regions), base, base + len) || |old(regions)| < old(capacity) || grants > 0)
      ensures ok ==> SetOn(old(regions), regions, base, base + len, None)
      ensures !ok ==> regions == old(regions) && capacity == old(capacity)
      ensures forall k :: 0 <= k < |old(regions)| && old(regions)[k].base == base && old(regions)[k].len == len ==>
                            ok && regions == SwapRemove(old(regions), k)
    {
      BadRangeMeaning(base, len);
      left := grants;
      if BadRange(base, len) {
        return false, left;
      }
      ok, left := RemoveAll(base, base + len, grants);
    }

    /** The loop of task_remove_vm_region. */
    method RemoveAll(base: nat, end: nat, grants: nat) returns (ok: bool, left: nat)
      requires Valid() && base < end
      modifies this
      ensures Valid()
      ensures ok <==> !Pierced(old(regions), base, end) || |old(regions)| < old(capacity) || grants > 0
      ensures ok ==> SetOn(old(regions), regions, base, end, None)
      ensures !ok ==> regions == old(regions) && capacity == old(capacity)
      ensures forall k :: Exact(old(regions), k, base, end) ==> ok && regions == SwapRemove(old(regions), k)
    {
      ghost var was, changed := regions, false;
      var i := 0;
      left := grants;
      NothingRemoved(was, base, end);
      while i < |regions|
        invariant 0 <= i <= |regions| && Valid()
        invariant PartlyRemoved(was, regions, i, base, end) && TakenOut(was, regions, changed, i, base, end)
        invariant !changed ==> regions == was && capacity == old(capacity) && left == grants
        invariant changed ==> !Pierced(regions, base, end)
        invariant changed ==> !Pierced(was, base, end) || |was| < old(capacity) || grants > 0
        decreases Pierced(regions, base, end), |regions| - i
      {
        ghost var now, at := regions, i;
        if regions[i].Overlaps(base, end) {
          ok, left, i := RemoveEntry(i, base, end, was, left);
          if !ok {
            NoneTakenOut(was, now, changed, at, base, end);
            return;
          }
          TakeEntry(was, now, regions, changed, at, base, end, i);
          changed := true;
        } else {
          i := i + 1;
          PassOver(was, regions, at, base, end, i);
          PassEntry(was, regions, changed, at, base, end, i);
        }
      }
      AllRemoved(was, regions, base, end);
      AllTakenOut(was, regions, changed, base, end);
      ok := true;
    }

    /**
    The clearing loop of server_task_clear and task_teardown: as long as there is
    an entry, remove the range of the first one.  Each pass takes out exactly that
    entry and needs no memory.
    */
    method ClearAll()
      requires Valid()
      modifies this
      ensures Valid() && regions == []
    {
      while |regions| != 0
        invariant Valid()
        decreases |regions|
      {
        var base, len := regions[0].base, regions[0].len;
        ghost var was := regions;
        var ok, _ := Remove(base, len, 0);
        assert was[0].base == base && ok && regions == SwapRemove(was, 0);
      }
    }

    /** server_task_clone_vm_metadata: replay a parent's entries into a new task's table. */
    method CloneFrom(parent: RegionTable, grants: nat) returns (ok: bool, left: nat)
      requires Valid() && parent.Valid() && parent != this && regions == []
      modifies this
      ensures Valid()
      ensures ok ==> SameMap(parent.regions, regions) && |regions| == Heads(parent.regions, |parent.regions|)
      ensures ok <==> Heads(parent.regions, |parent.regions|) <= Reach(old(capacity), grants)
    {
      left := grants;
      var i := 0;
      NothingReplayed(parent.regions);
      while i < |parent.regions|
        invariant 0 <= i <= |parent.regions| && Valid()
        invariant Replayed(parent.regions, i, regions) && Reach(capacity, left) == Reach(old(capacity), grants)
      {
        var next := i + 1;
        ok, left := ReplayEntry(parent.regions[i], left, parent.regions, i, next);
        if !ok {
          HeadsGrow(parent.regions, next, |parent.regions|);
          return;
        }
        i := next;
      }
      assert parent.regions[..i] == parent.regions;
      ok := true;
    }

    /** One task_add_vm_mapping of a replay. */
    method ReplayEntry(r: Region, grants: nat, ghost from: seq<Region>, ghost i: nat, ghost next: nat)
      returns (ok: bool, left: nat)
      requires Valid() && Table(from) && i < |from| && next == i + 1 && r == from[i] && Replayed(from, i, regions)
      modifies this
      ensures Valid()
      ensures ok <==> Heads(from, next) <= Reach(old(capacity), grants)
      ensures ok ==> Replayed(from, next, regions) && Reach(capacity, left) == Reach(old(capacity), grants)
      ensures !ok ==> regions == old(regions)
    {
      NextEntry(from, i);
      ghost var before := regions;
      assert At(from[..i], r.base).None?;
      ok, left := Add(r.base, r.len, r.attr, r.offset, grants);
      if ok {
        ReplayStep(from, i, next, before, regions);
      }
    }
  }

  /** A range next to entry `i` is free exactly if the two together are clear of the other entries. */
  lemma FreeBesideEntry(rs: seq<Region>, i: nat, lo: nat, hi: nat)
    requires Table(rs) && i < |rs| && lo < hi && rs[i].End() == lo
    ensures ClearOfOthers(rs, i, rs[i].base, hi) <==> Free(rs, lo, hi)
  {
    FreeIsNoOverlap(rs, lo, hi);
    assert forall j :: 0 <= j < |rs| && j != i ==>
                         (rs[j].Overlaps(rs[i].base, hi) <==> rs[j].Overlaps(lo, hi) || rs[j].Overlaps(rs[i].base, lo));
  }

  lemma OnlyEntry(rs: seq<Region>, i: nat, lo: nat, hi: nat)
    requires Table(rs) && i < |rs|
    requires ClearOfOthers(rs, i, lo, hi)
    ensures forall a :: lo <= a < hi ==> At(rs, a) in {None, Some(rs[i].attr)}
  {
    forall a | lo <= a < hi
      ensures At(rs, a) in {None, Some(rs[i].attr)}
    {
      if k :| HeldAt(rs, k, a) {
        AtIs(rs, k, a);
        assert rs[k].Overlaps(lo, hi);
      }
    }
  }

  /** If entry `i` joined with the range collides with another entry, the range alone does. */
  lemma ClearWiden(rs: seq<Region>, i: nat, lo: nat, hi: nat)
    requires Table(rs) && i < |rs| && lo < hi
    requires rs[i].base <= hi && lo <= rs[i].End()
    requires !ClearOfOthers(rs, i, if lo < rs[i].base then lo else rs[i].base,
                            if hi > rs[i].End() then hi else rs[i].End())
    ensures !ClearOfOthers(rs, i, lo, hi)
  {
  }

  lemma PiercedIsCovered(rs: seq<Region>, lo: int, hi: int)
    requires Table(rs)
    ensures Pierced(rs, lo, hi) ==> Covered(rs, lo, hi)
  {
    if j :| PiercedBy(rs, j, lo, hi) {
      HeldBySelf(rs, j);
    }
  }

  predicate Settled(r: Region, lo: int, hi: int, prot: bv32) {
    r.attr.prot == prot && lo <= r.base && r.End() <= hi
  }

  /** Entry `i` gave up its part inside `[lo, hi)` to a new entry with the new protection. */
  ghost predicate PartProtected(was: seq<Region>, now: seq<Region>, i: nat, lo: nat, hi: nat, prot: bv32)
    requires i < |was|
  {
    && |now| == |was| + PiecesOf(was[i], lo, hi) && !now[i].Overlaps(lo, hi)
    && (forall a ::
          At(now, a) == if lo <= a < hi && was[i].Holds(a) then Some(was[i].attr.(prot := prot)) else At(was, a))
    && (forall j :: 0 <= j < |was| && j != i ==> now[j] == was[j])
    && Straddlers(now, lo, hi) + PiecesOf(was[i], lo, hi) == Straddlers(was, lo, hi)
  }

  /** Entries before `i` are done; every address has its old or its new attributes. */
  ghost predicate PartlyProtected(was: seq<Region>, now: seq<Region>, i: nat, lo: int, hi: int, prot: bv32) {
    forall x :: PartlyProtectedAt(was, now, i, lo, hi, prot, x)
  }

  /** Of entry `x` and of address `x`. */
  ghost predicate PartlyProtectedAt(was: seq<Region>, now: seq<Region>, i: nat, lo: int, hi: int, prot: bv32, x: int) {
    && (0 <= x < i && x < |now| && now[x].Overlaps(lo, hi) ==> Settled(now[x], lo, hi, prot))
    && (At(now, x) == At(was, x) || (lo <= x < hi && At(now, x) == WithProt(At(was, x), prot)))
  }

  lemma NothingProtected(rs: seq<Region>, lo: int, hi: int, prot: bv32)
    ensures PartlyProtected(rs, rs, 0, lo, hi, prot)
  {
  }

  lemma ProtectOver(was: seq<Region>, rs: seq<Region>, i: nat, lo: int, hi: int, prot: bv32, next: nat)
    requires PartlyProtected(was, rs, i, lo, hi, prot) && next == i + 1 && i < |rs| && !rs[i].Overlaps(lo, hi)
    ensures PartlyProtected(was, rs, next, lo, hi, prot)
  {
    forall x
      ensures PartlyProtectedAt(was, rs, next, lo, hi, prot, x)
    {
      assert PartlyProtectedAt(was, rs, i, lo, hi, prot, x);
    }
  }

  /** Losing an address of entry `i` loses it for the caller. */
  lemma LostToCaller(was: seq<Region>, before: seq<Region>, now: seq<Region>, i: nat, lo: int, hi: int, prot: bv32)
    requires Table(before) && PartlyProtected(was, before, i, lo, hi, prot)
    requires exists a :: HeldAt(before, i, a) && At(now, a).None?
    ensures exists a :: At(was, a).Some? && At(now, a).None?
  {
    var a :| HeldAt(before, i, a) && At(now, a).None?;
    AtIs(before, i, a);
    assert PartlyProtectedAt(was, before, i, lo, hi, prot, a);
  }

  /** Protecting the part `mid` of entry `i` is one step of the loop. */
  lemma ProtectStep(was: seq<Region>, before: seq<Region>, now: seq<Region>, i: nat, mid: Region,
                    lo: int, hi: int, prot: bv32)
    requires Table(before) && i < |before| <= |now|
    requires PartlyProtected(was, before, i, lo, hi, prot)
    requires before[i].base <= mid.base && mid.End() <= before[i].End()
    requires lo <= mid.base && mid.End() <= hi
    requires mid.attr == before[i].attr.(prot := prot)
    requires forall a :: At(now, a) == if mid.Holds(a) then Some(mid.attr) else At(before, a)
    requires forall j :: 0 <= j < i ==> now[j] == before[j]
    requires now[i].Overlaps(lo, hi) ==> Settled(now[i], lo, hi, prot)
    ensures PartlyProtected(was, now, i + 1, lo, hi, prot)
  {
    var next := i + 1;
    forall x
      ensures PartlyProtectedAt(was, now, next, lo, hi, prot, x)
    {
      assert PartlyProtectedAt(was, before, i, lo, hi, prot, x);
      if mid.Holds(x) {
        assert HeldAt(before, i, x);
        AtIs(before, i, x);
      }
    }
  }

  lemma AllProtected(was: seq<Region>, now: seq<Region>, lo: int, hi: int, prot: bv32)
    requires Table(now) && lo < hi
    requires PartlyProtected(was, now, |now|, lo, hi, prot)
    ensures ProtectedOn(was, now, lo, hi, prot)
    ensures Straddlers(now, lo, hi) == 0
  {
    forall a
      ensures At(now, a) == if lo <= a < hi then WithProt(At(was, a), prot) else At(was, a)
    {
      assert PartlyProtectedAt(was, now, |now|, lo, hi, prot, a);
      if k :| lo <= a < hi && HeldAt(now, k, a) {
        AtIs(now, k, a);
        assert PartlyProtectedAt(was, now, |now|, lo, hi, prot, k);
      }
    }
    forall j
      ensures !StraddledBy(now, j, lo) && !StraddledBy(now, j, hi)
    {
      assert PartlyProtectedAt(was, now, |now|, lo, hi, prot, j);
    }
  }

  lemma SameStraddlers(rs: seq<Region>, i: nat, r: Region, lo: int, hi: int)
    requires i < |rs| && r.base == rs[i].base && r.End() == rs[i].End()
    ensures Straddlers(rs[i := r], lo, hi) == Straddlers(rs, lo, hi)
  {
    var now := rs[i := r];
    assert forall j, x :: StraddledBy(now, j, x) == StraddledBy(rs, j, x);
  }

  /** Cutting entry `i` into three, the last two pieces appended in order. */
  lemma CutTwice(rs: seq<Region>, i: nat, keep: Region, middle: Region, right: Region)
    requires Table(rs) && i < |rs|
    requires 0 < keep.len && 0 < middle.len && 0 < right.len
    requires rs[i].base == keep.base && keep.End() == middle.base
    requires middle.End() == right.base && right.End() == rs[i].End()
    requires keep.attr == right.attr == rs[i].attr
    ensures
      var now := rs[i := keep] + [middle, right];
      && Table(rs[i := keep] + [middle])
      && At(rs[i := keep] + [middle], right.base).None?
      && Table(now)
      && (forall a :: At(now, a) == if middle.Holds(a) then Some(middle.attr) else At(rs, a))
      && Straddlers(now, middle.base, middle.End()) == 0
      && Straddlers(rs, middle.base, middle.End()) == 2
  {
    var rest := rs[i].(base := middle.base, len := rs[i].End() - middle.base);
    var once := rs[i := keep] + [rest];
    CutEntry(rs, i, keep, rest, middle.base);
    CutEntry(once, |rs|, middle, right, middle.End());
    assert once[|rs| := middle] + [right] == rs[i := keep] + [middle, right];
    assert once[|rs| := middle] == rs[i := keep] + [middle];
    TrimEntry(once, |rs|, middle);
    assert StraddledBy(rs, i, middle.base) && StraddledBy(rs, i, middle.End());
    forall a
      ensures At(rs[i := keep] + [middle, right], a) == if middle.Holds(a) then Some(middle.attr) else At(rs, a)
    {
      if rs[i].Holds(a) {
        assert HeldAt(rs, i, a);
        AtIs(rs, i, a);
      }
    }
  }

  predicate Within(r: Region, lo: int, hi: int) {
    lo <= r.base && r.End() <= hi
  }

  /** Entries before `i` are clear of the range; every address keeps its attributes or, inside it, loses them. */
  ghost predicate PartlyRemoved(was: seq<Region>, now: seq<Region>, i: nat, lo: int, hi: int) {
    forall x :: PartlyRemovedAt(was, now, i, lo, hi, x)
  }

  /** Of entry `x` and of address `x`. */
  ghost predicate PartlyRemovedAt(was: seq<Region>, now: seq<Region>, i: nat, lo: int, hi: int, x: int) {
    && (0 <= x < i && x < |now| ==> !now[x].Overlaps(lo, hi))
    && (At(now, x) == At(was, x) || (lo <= x < hi && At(now, x) == None))
  }

  lemma NothingRemoved(rs: seq<Region>, lo: int, hi: int)
    ensures PartlyRemoved(rs, rs, 0, lo, hi)
  {
  }

  /** An entry outside the range is passed over. */
  lemma PassOver(was: seq<Region>, rs: seq<Region>, i: nat, lo: int, hi: int, next: nat)
    requires PartlyRemoved(was, rs, i, lo, hi) && next == i + 1 && i < |rs| && !rs[i].Overlaps(lo, hi)
    ensures PartlyRemoved(was, rs, next, lo, hi)
  {
    forall x
      ensures PartlyRemovedAt(was, rs, next, lo, hi, x)
    {
      assert PartlyRemovedAt(was, rs, i, lo, hi, x);
    }
  }

  /** An entry inside the range is swapped out. */
  lemma RemoveWhole(was: seq<Region>, rs: seq<Region>, i: nat, lo: nat, hi: nat)
    requires Table(rs) && i < |rs| && PartlyRemoved(was, rs, i, lo, hi) && lo < hi
    requires Within(rs[i], lo, hi) && !Pierced(rs, lo, hi)
    ensures Table(SwapRemove(rs, i)) && PartlyRemoved(was, SwapRemove(rs, i), i, lo, hi)
    ensures !Pierced(SwapRemove(rs, i), lo, hi)
  {
    SwapRemoveEntry(rs, i);
    var now := SwapRemove(rs, i);
    assert forall j :: PiercedBy(now, j, lo, hi) ==> PiercedBy(rs, if j == i then |rs| - 1 else j, lo, hi);
    forall x
      ensures PartlyRemovedAt(was, now, i, lo, hi, x)
    {
      assert PartlyRemovedAt(was, rs, i, lo, hi, x);
    }
  }

  /** `piece` is the part of `r` on one side of the range. */
  ghost predicate SideOf(r: Region, piece: Region, lo: int, hi: int) {
    && 0 < piece.len && piece.attr == r.attr && !piece.Overlaps(lo, hi)
    && r.base <= piece.base && piece.End() <= r.End()
    && forall a :: r.Holds(a) ==> piece.Holds(a) || lo <= a < hi
  }

  /** An entry that sticks out of the range on one side keeps that side. */
  lemma RemoveSide(was: seq<Region>, rs: seq<Region>, i: nat, piece: Region, lo: nat, hi: nat, next: nat)
    requires Table(rs) && i < |rs| && PartlyRemoved(was, rs, i, lo, hi) && lo < hi && next == i + 1
    requires SideOf(rs[i], piece, lo, hi) && !Pierced(rs, lo, hi)
    ensures Table(rs[i := piece]) && PartlyRemoved(was, rs[i := piece], next, lo, hi)
    ensures !Pierced(rs[i := piece], lo, hi)
  {
    var now := rs[i := piece];
    TrimEntry(rs, i, piece);
    HeldBySelf(rs, i);
    forall j
      ensures !PiercedBy(now, j, lo, hi)
    {
      assert !PiercedBy(rs, j, lo, hi);
    }
    forall x
      ensures PartlyRemovedAt(was, now, next, lo, hi, x)
    {
      assert PartlyRemovedAt(was, rs, i, lo, hi, x);
    }
  }

  /** An entry that the range pierces keeps both sides. */
  lemma SplitInTwo(was: seq<Region>, rs: seq<Region>, i: nat, keep: Region, right: Region, lo: nat, hi: nat, next: nat)
    requires Table(rs) && i < |rs| && PartlyRemoved(was, rs, i, lo, hi) && lo < hi && next == i + 1
    requires rs[i].base < lo && hi < rs[i].End()
    requires keep == rs[i].(len := lo - rs[i].base) && right == rs[i].(base := hi, len := rs[i].End() - hi)
    ensures Table(rs[i := keep] + [right]) && PartlyRemoved(was, rs[i := keep] + [right], next, lo, hi)
    ensures !Pierced(rs[i := keep] + [right], lo, hi)
  {
    var now := rs[i := keep] + [right];
    OnlyPiercer(rs, i, lo, hi);
    TrimEntry(rs, i, keep);
    HeldBySelf(rs, i);
    AppendEntry(rs[i := keep], right);
    forall j
      ensures !PiercedBy(now, j, lo, hi)
    {
      assert j != i ==> !PiercedBy(rs, j, lo, hi);
    }
    forall x
      ensures PartlyRemovedAt(was, now, next, lo, hi, x)
    {
      assert PartlyRemovedAt(was, rs, i, lo, hi, x);
    }
  }

  lemma AllRemoved(was: seq<Region>, now: seq<Region>, lo: int, hi: int)
    requires Table(now) && 0 <= lo < hi
    requires PartlyRemoved(was, now, |now|, lo, hi)
    ensures SetOn(was, now, lo, hi, None)
    ensures !Pierced(now, lo, hi)
  {
    forall x
      ensures 0 <= x < |now| ==> !now[x].Overlaps(lo, hi)
      ensures At(now, x) == At(was, x) || (lo <= x < hi && At(now, x) == None)
    {
      assert PartlyRemovedAt(was, now, |now|, lo, hi, x);
    }
    FreeIsNoOverlap(now, lo, hi);
  }

  /** When an entry overlaps the range without piercing it, no entry pierces it; and a piercing entry is alone. */
  lemma OnlyPiercer(rs: seq<Region>, i: nat, lo: int, hi: int)
    requires Table(rs) && i < |rs| && lo < hi && rs[i].Overlaps(lo, hi)
    ensures forall j :: PiercedBy(rs, j, lo, hi) ==> j == i
  {
    forall j | PiercedBy(rs, j, lo, hi)
      ensures j == i
    {
      var a := if rs[i].base < lo then lo else rs[i].base;
      OneHolder(rs, i, j, a);
    }
  }

  /** Entry `k` is exactly the range. */
  ghost predicate Exact(rs: seq<Region>, k: int, lo: int, hi: int) {
    0 <= k < |rs| && rs[k].base == lo && rs[k].End() == hi
  }

  /** An entry that is exactly the range lies ahead, or is all that was taken out. */
  ghost predicate TakenOut(was: seq<Region>, now: seq<Region>, changed: bool, i: nat, lo: int, hi: int) {
    forall k :: TakenOutAt(was, now, changed, i, lo, hi, k)
  }

  ghost predicate TakenOutAt(was: seq<Region>, now: seq<Region>, changed: bool, i: nat, lo: int, hi: int, k: int) {
    Exact(was, k, lo, hi) ==> if changed then now == SwapRemove(was, k) else now == was && i <= k
  }

  /** While an entry overlaps the range, one that is exactly the range is that entry, and nothing changed. */
  lemma OnlyOverlap(was: seq<Region>, now: seq<Region>, changed: bool, i: nat, lo: int, hi: int, k: int)
    requires Table(was) && Table(now) && i < |now| && now[i].Overlaps(lo, hi) && lo < hi && Exact(was, k, lo, hi)
    requires PartlyRemoved(was, now, i, lo, hi) && TakenOut(was, now, changed, i, lo, hi)
    ensures !changed && k == i && now == was
  {
    var a := if now[i].base < lo then lo else now[i].base;
    assert HeldAt(now, i, a) && HeldAt(was, k, a) && TakenOutAt(was, now, changed, i, lo, hi, k);
    if changed {
      SwapRemoveEntry(was, k);
      AtIs(now, i, a);
    } else {
      OneHolder(was, i, k, a);
    }
  }

  lemma TakeEntry(was: seq<Region>, now: seq<Region>, now': seq<Region>, changed: bool, i: nat, lo: int, hi: int,
                  next: nat)
    requires Table(was) && Table(now) && i < |now| && now[i].Overlaps(lo, hi) && lo < hi
    requires PartlyRemoved(was, now, i, lo, hi) && TakenOut(was, now, changed, i, lo, hi)
    requires Within(now[i], lo, hi) ==> now' == SwapRemove(now, i)
    ensures TakenOut(was, now', true, next, lo, hi)
  {
    forall k
      ensures TakenOutAt(was, now', true, next, lo, hi, k)
    {
      if Exact(was, k, lo, hi) {
        OnlyOverlap(was, now, changed, i, lo, hi, k);
      }
    }
  }

  lemma PassEntry(was: seq<Region>, now: seq<Region>, changed: bool, i: nat, lo: int, hi: int, next: nat)
    requires i < |now| && !now[i].Overlaps(lo, hi) && lo < hi && next == i + 1
    requires TakenOut(was, now, changed, i, lo, hi)
    ensures TakenOut(was, now, changed, next, lo, hi)
  {
    forall k
      ensures TakenOutAt(was, now, changed, next, lo, hi, k)
    {
      assert TakenOutAt(was, now, changed, i, lo, hi, k);
    }
  }

  lemma NoneTakenOut(was: seq<Region>, now: seq<Region>, changed: bool, i: nat, lo: int, hi: int)
    requires Table(was) && Table(now) && i < |now| && PiercedBy(now, i, lo, hi) && lo < hi
    requires PartlyRemoved(was, now, i, lo, hi) && TakenOut(was, now, changed, i, lo, hi)
    ensures forall k :: !Exact(was, k, lo, hi)
  {
    forall k
      ensures !Exact(was, k, lo, hi)
    {
      if Exact(was, k, lo, hi) {
        OnlyOverlap(was, now, changed, i, lo, hi, k);
      }
    }
  }

  lemma AllTakenOut(was: seq<Region>, now: seq<Region>, changed: bool, lo: int, hi: int)
    requires TakenOut(was, now, changed, |now|, lo, hi)
    ensures forall k :: Exact(was, k, lo, hi) ==> now == SwapRemove(was, k)
  {
    forall k | Exact(was, k, lo, hi)
      ensures now == SwapRemove(was, k)
    {
      assert TakenOutAt(was, now, changed, |now|, lo, hi, k);
    }
  }

  // ----- replaying a table into an empty one

  /** How many of the first `i` entries do not continue an earlier one. */
  ghost function Heads(rs: seq<Region>, i: nat): nat
    requires i <= |rs|
  {
    if i == 0 then 0
    else Heads(rs, i - 1) + if Joins(rs[..i - 1], rs[i - 1].base, rs[i - 1].attr, rs[i - 1].offset) then 0 else 1
  }

  lemma {:induction false} HeadsGrow(rs: seq<Region>, i: nat, j: nat)
    requires i <= j <= |rs|
    ensures Heads(rs, i) <= Heads(rs, j)
    decreases j
  {
    if i < j {
      HeadsGrow(rs, i, j - 1);
    }
  }

  /** At addresses that are not recorded, the same mappings would be joined to `now` and to `was`. */
  ghost predicate SameJoins(was: seq<Region>, now: seq<Region>) {
    forall b: nat, t, o: u64 :: At(was, b).None? ==> (Joins(now, b, t, o) <==> Joins(was, b, t, o))
  }

  /** `now` is the result of adding the first `i` entries of `from` to an empty table. */
  ghost predicate Replayed(from: seq<Region>, i: nat, now: seq<Region>)
    requires i <= |from|
  {
    SameMap(from[..i], now) && SameJoins(from[..i], now) && |now| == Heads(from, i)
  }

  lemma NothingReplayed(from: seq<Region>)
    ensures Replayed(from, 0, [])
  {
    assert from[..0] == [];
  }

  /** What joins a table with `r` at its end: what joined it before, and what continues `r`. */
  lemma JoinsAppended(rs: seq<Region>, r: Region, b: nat, t: Attr, o: u64)
    ensures Joins(rs + [r], b, t, o) <==>
            Joins(rs, b, t, o) || (r.attr == t && AppendOffsetMatches(r, t, o) && r.End() == b)
  {
    var now := rs + [r];
    assert Appends(now, |rs|, b, t, o) <==> r.attr == t && AppendOffsetMatches(r, t, o) && r.End() == b;
    if i: nat :| i < |rs| && Appends(rs, i, b, t, o) {
      assert Appends(now, i, b, t, o);
    }
    if i: nat :| i < |now| && Appends(now, i, b, t, o) {
      assert i < |rs| ==> Appends(rs, i, b, t, o);
    }
  }

  /** An entry extended by `r` offers the same continuation as `r` itself. */
  lemma JoinsExtended(rs: seq<Region>, i: nat, r: Region, b: nat, t: Attr, o: u64)
    requires i < |rs| && Appends(rs, i, r.base, r.attr, r.offset) && b != r.base
    ensures
      Joins(rs[i := rs[i].(len := rs[i].len + r.len)], b, t, o) <==>
      Joins(rs, b, t, o) || (r.attr == t && AppendOffsetMatches(r, t, o) && r.End() == b)
  {
    var e := rs[i].(len := rs[i].len + r.len);
    var now := rs[i := e];
    SameContinuation(rs[i], r, t, o);
    assert Appends(now, i, b, t, o) <==> r.attr == t && AppendOffsetMatches(r, t, o) && r.End() == b;
    if j: nat :| j < |rs| && Appends(rs, j, b, t, o) {
      assert Appends(now, j, b, t, o);
    }
    if j: nat :| j < |now| && Appends(now, j, b, t, o) {
      assert j != i ==> Appends(rs, j, b, t, o);
    }
  }

  lemma SameContinuation(e: Region, r: Region, t: Attr, o: u64)
    requires AppendOffsetMatches(e, r.attr, r.offset)
    ensures r.attr == t ==>
              (AppendOffsetMatches(e.(len := e.len + r.len), t, o) <==> AppendOffsetMatches(r, t, o))
  {
    var a, b := e.offset + e.len, r.len;
    assert (a + b) % U64 == (a % U64 + b) % U64 by {
      ModAdd(a, b);
    }
  }

  lemma ModAdd(a: nat, b: nat)
    ensures (a + b) % U64 == (a % U64 + b) % U64
  {
    assert a == a / U64 * U64 + a % U64;
    var x := a % U64 + b;
    assert a + b == a / U64 * U64 + x;
    assert x == x / U64 * U64 + x % U64;
    assert a + b == (a / U64 + x / U64) * U64 + x % U64;
  }

  lemma JoinsStep(pre: seq<Region>, r: Region, was: seq<Region>, now: seq<Region>, b: nat, t: Attr, o: u64)
    requires SameJoins(pre, was) && Added(was, now, r) && At(pre, b).None? && b != r.base
    ensures Joins(now, b, t, o) <==> Joins(pre + [r], b, t, o)
  {
    JoinsAppended(pre, r, b, t, o);
    if Joins(was, r.base, r.attr, r.offset) {
      var j: nat :| j < |was| && Appends(was, j, r.base, r.attr, r.offset)
                    && now == was[j := was[j].(len := was[j].len + r.len)];
      JoinsExtended(was, j, r, b, t, o);
    } else {
      JoinsAppended(was, r, b, t, o);
    }
  }

  lemma AddedJoins(pre: seq<Region>, post: seq<Region>, r: Region, was: seq<Region>, now: seq<Region>)
    requires 0 < r.len && post == pre + [r] && SetOn(pre, post, r.base, r.End(), Some(r.attr))
    requires SameJoins(pre, was) && Added(was, now, r)
    ensures SameJoins(post, now)
  {
    assert At(post, r.base).Some?;
    forall b: nat, t, o: u64 | At(post, b).None?
      ensures Joins(now, b, t, o) <==> Joins(post, b, t, o)
    {
      assert At(pre, b).None?;
      JoinsStep(pre, r, was, now, b, t, o);
    }
  }

  lemma ReplayStep(from: seq<Region>, i: nat, next: nat, was: seq<Region>, now: seq<Region>)
    requires Table(from) && i < |from| && next == i + 1 && Replayed(from, i, was) && Added(was, now, from[i])
    requires SetOn(was, now, from[i].base, from[i].End(), Some(from[i].attr))
    ensures Replayed(from, next, now)
  {
    var r := from[i];
    NextEntry(from, i);
    assert from[..next] == from[..i] + [r] && from[..next - 1] == from[..i];
    assert At(from[..i], r.base).None?;
    AddedJoins(from[..i], from[..next], r, was, now);
  }

  /** A table is its prefixes with the entries appended one by one. */
  lemma NextEntry(rs: seq<Region>, i: nat)
    requires Table(rs) && i < |rs|
    ensures Table(rs[..i]) && Table(rs[..i + 1])
    ensures Free(rs[..i], rs[i].base, rs[i].End())
    ensures SetOn(rs[..i], rs[..i + 1], rs[i].base, rs[i].End(), Some(rs[i].attr))
  {
    FreeIsNoOverlap(rs[..i], rs[i].base, rs[i].End());
    AppendEntry(rs[..i], rs[i]);
    assert rs[..i] + [rs[i]] == rs[..i + 1];
  }

  // ----- a table that loses an address

  /** Three pages, with a gap behind them. */
  function Block(n: nat): Region {
    Region((n + 1) * 0x10000, 3 * PAGE_SIZE, 0, Attr(1, 0, 0, Anon, 0))
  }

  ghost predicate Blocks(rs: seq<Region>) {
    forall i :: 0 <= i < |rs| ==> rs[i] == Block(i)
  }

  lemma NextBlock(rs: seq<Region>)
    requires Table(rs) && Blocks(rs)
    ensures
      var r := Block(|rs|);
      Free(rs, r.base, r.End()) && !Joins(rs, r.base, r.attr, r.offset)
  {
    var r := Block(|rs|);
    FreeIsNoOverlap(rs, r.base, r.End());
    assert forall i :: 0 <= i < |rs| ==> rs[i].End() < r.base;
  }

  /** One more block; the table grows when it is full and may. */
  method AddBlock(table: RegionTable, grants: nat)
    requires table.Valid() && Blocks(table.regions) && |table.regions| < INITIAL_REGIONS
    requires |table.regions| < table.capacity || grants > 0
    modifies table
    ensures table.Valid() && Blocks(table.regions) && |table.regions| == |old(table.regions)| + 1
    ensures table.capacity == if |old(table.regions)| == old(table.capacity) then Doubled(old(table.capacity))
                              else old(table.capacity)
  {
    var r := Block(|table.regions|);
    NextBlock(table.regions);
    var ok, left := table.Add(r.base, r.len, r.attr, r.offset, grants);
  }

  /** A table filled with as many blocks as it holds before it grows for the second time. */
  method FullTable() returns (table: RegionTable)
    ensures fresh(table) && table.Valid() && Blocks(table.regions)
    ensures |table.regions| == table.capacity == INITIAL_REGIONS
  {
    table := new RegionTable();
    var n := 0;
    while n < INITIAL_REGIONS
      invariant 0 <= n <= INITIAL_REGIONS && fresh(table) && table.Valid()
      invariant |table.regions| == n && Blocks(table.regions)
      invariant table.capacity == if n == 0 then 0 else INITIAL_REGIONS
    {
      AddBlock(table, if n == 0 then 1 else 0);
      n := n + 1;
    }
  }

  /** Protecting the middle page of its first entry without memory fails, and the table records that page no more. */
  method LosingProtect(table: RegionTable) returns (ok: bool)
    requires table.Valid() && Blocks(table.regions) && |table.regions| == table.capacity == INITIAL_REGIONS
    modifies table
    ensures !ok && table.Valid()
    ensures At(old(table.regions), 0x11000) == Some(Block(0).attr) && At(table.regions, 0x11000).None?
  {
    assert PiercedBy(table.regions, 0, 0x11000, 0x12000);
    assert StraddledBy(table.regions, 0, 0x11000);
    AtIs(table.regions, 0, 0x11000);
    var left;
    ok, left := table.Protect(0x11000, PAGE_SIZE, 3, 0);
  }
}
