/**
What programs in different address spaces can do to each other (kernel/vm.c):
nothing.  A run is any sequence of stores, fresh mappings, copies, shares,
copy-on-write shares and faults, changes of rights and unmaps.  Reference-counted
frames refine private memories: what all programs see is what they would see if
every page of every space were a cell of its own.
*/
module Isolation {
  import opened AddressSpaces
  import opened Common

  /** One page of each operation; `k` is the slot it maps, writes or unmaps, `from` the slot it copies or shares. */
  datatype Step =
    | StoreTo(k: Slot, page: Page)
    | MapZero(k: Slot, frame: Frame, writable: bool, executable: bool)
    | CloneOne(k: Slot, from: Slot, frame: Frame, writable: bool, executable: bool)
    | ShareOne(k: Slot, from: Slot, executable: bool)
    | ShareCowOne(k: Slot, from: Slot, executable: bool)
    | Fault(k: Slot, frame: Frame, executable: bool)
    | ChangeRights(k: Slot, writable: bool, executable: bool)
    | UnmapOne(k: Slot)

  predicate Enabled(s: State, step: Step) {
    match step
    case StoreTo(k, page) => k in s.ptes && s.ptes[k].writable && |page| == PAGE_SIZE
    case MapZero(k, f, _, _) => k !in s.ptes && f !in s.refs
    case CloneOne(k, from, f, _, _) => k !in s.ptes && from in s.ptes && f !in s.refs
    case ShareOne(k, from, _) => k !in s.ptes && from in s.ptes && !s.ptes[from].writable
    case ShareCowOne(k, from, _) => k !in s.ptes && from in s.ptes
    case Fault(k, f, _) => k in s.ptes && f !in s.refs
    case ChangeRights(k, writable, _) =>
      k in s.ptes && (writable ==> s.ptes[k].frame in s.refs && s.refs[s.ptes[k].frame] == 1)
    case UnmapOne(_) => true
  }

  ghost function Apply(s: State, step: Step): State
    requires Inv(s) && Enabled(s, step)
  {
    match step
    case StoreTo(k, page) => Store(s, k, page)
    case MapZero(k, f, writable, executable) => MapFresh(s, k, Pte(f, writable, executable), ZeroPage())
    case CloneOne(k, from, f, writable, executable) =>
      MapFresh(s, k, Pte(f, writable, executable), s.mem[s.ptes[from].frame])
    case ShareOne(k, from, executable) => MapShared(s, k, Pte(s.ptes[from].frame, false, executable))
    case ShareCowOne(k, from, executable) => CowPair(s, k, from, executable)
    case Fault(k, f, executable) => Cow(s, k, f, executable)
    case ChangeRights(k, writable, executable) => SetRights(s, k, writable, executable)
    case UnmapOne(k) => Unmap(s, k)
  }

  // ----- private memories

  type Memory = map<Slot, Page>

  /** Everything that programs see. */
  ghost function MemoryOf(s: State): Memory
    requires Backed(s)
  {
    map k | k in s.ptes :: s.mem[s.ptes[k].frame]
  }

  /** What a step does to memories in which every slot is a cell of its own. */
  function PrivateStep(v: Memory, step: Step): Memory {
    match step
    case StoreTo(k, page) => v[k := page]
    case MapZero(k, _, _, _) => v[k := ZeroPage()]
    case CloneOne(k, from, _, _, _) => Copied(v, k, from)
    case ShareOne(k, from, _) => Copied(v, k, from)
    case ShareCowOne(k, from, _) => Copied(v, k, from)
    case Fault(_, _, _) => v
    case ChangeRights(_, _, _) => v
    case UnmapOne(k) => v - {k}
  }

  function Copied(v: Memory, k: Slot, from: Slot): Memory {
    if from in v then v[k := v[from]] else v
  }

  function PrivateRun(v: Memory, steps: seq<Step>): Memory {
    if steps == [] then v else PrivateStep(PrivateRun(v, steps[..|steps| - 1]), steps[|steps| - 1])
  }

  /** A step that shows in one slot changes one cell. */
  lemma OneCell(s: State, s': State, k: Slot, page: Page)
    requires Backed(s) && Backed(s') && OthersSame(s, s', k) && Sees(s', k) == Some(page)
    ensures MemoryOf(s') == MemoryOf(s)[k := page]
  {
    forall l
      ensures l in s'.ptes <==> l == k || l in s.ptes
      ensures l in s'.ptes ==> s'.mem[s'.ptes[l].frame] == if l == k then page else s.mem[s.ptes[l].frame]
    {
      assert l != k ==> Sees(s', l) == Sees(s, l);
    }
  }

  lemma SameCells(s: State, s': State)
    requires Backed(s) && Backed(s') && AllSame(s, s')
    ensures MemoryOf(s') == MemoryOf(s)
  {
    forall l
      ensures l in s'.ptes <==> l in s.ptes
      ensures l in s.ptes ==> s'.mem[s'.ptes[l].frame] == s.mem[s.ptes[l].frame]
    {
      assert Sees(s', l) == Sees(s, l);
    }
  }

  lemma LostCell(s: State, s': State, k: Slot)
    requires Backed(s) && Backed(s') && OthersSame(s, s', k) && Sees(s', k) == None
    ensures MemoryOf(s') == MemoryOf(s) - {k}
  {
    forall l
      ensures l in s'.ptes <==> l != k && l in s.ptes
      ensures l in s'.ptes ==> s'.mem[s'.ptes[l].frame] == s.mem[s.ptes[l].frame]
    {
      assert l != k ==> Sees(s', l) == Sees(s, l);
    }
  }

  /** A page that appears in a new slot: zero, copied, or shared. */
  lemma MapRefines(s: State, step: Step)
    requires Inv(s) && Enabled(s, step) && (step.MapZero? || step.CloneOne? || step.ShareOne?)
    ensures Inv(Apply(s, step))
    ensures MemoryOf(Apply(s, step)) == PrivateStep(MemoryOf(s), step)
  {
    var k, s' := step.k, Apply(s, step);
    match step
    case MapZero(_, f, writable, executable) =>
      MapFreshKeeps(s, k, Pte(f, writable, executable), ZeroPage());
      OneCell(s, s', k, ZeroPage());
    case CloneOne(_, from, f, writable, executable) =>
      MapFreshKeeps(s, k, Pte(f, writable, executable), s.mem[s.ptes[from].frame]);
      OneCell(s, s', k, s.mem[s.ptes[from].frame]);
    case ShareOne(_, from, executable) =>
      ReadOnlyEntry(s, from);
      MapSharedKeeps(s, k, Pte(s.ptes[from].frame, false, executable));
      OneCell(s, s', k, s.mem[s.ptes[from].frame]);
  }

  lemma ShareCowRefines(s: State, k: Slot, from: Slot, executable: bool)
    requires Inv(s) && k !in s.ptes && from in s.ptes
    ensures Inv(CowPair(s, k, from, executable))
    ensures MemoryOf(CowPair(s, k, from, executable)) == MemoryOf(s)[k := s.mem[s.ptes[from].frame]]
  {
    CowPairEffect(s, k, from, executable);
    OneCell(s, CowPair(s, k, from, executable), k, s.mem[s.ptes[from].frame]);
  }

  /** Shared frames refine private memories, one step at a time. */
  lemma StepRefines(s: State, step: Step)
    requires Inv(s) && Enabled(s, step)
    ensures Inv(Apply(s, step))
    ensures MemoryOf(Apply(s, step)) == PrivateStep(MemoryOf(s), step)
  {
    match step
    case StoreTo(k, page) =>
      StoreKeeps(s, k, page);
      OneCell(s, Store(s, k, page), k, page);
    case Fault(k, f, executable) =>
      CowKeeps(s, k, f, executable);
      SameCells(s, Cow(s, k, f, executable));
    case ChangeRights(k, writable, executable) =>
      SetRightsKeeps(s, k, writable, executable);
      SetRightsIff(s, k, writable, executable);
      SameCells(s, SetRights(s, k, writable, executable));
    case UnmapOne(k) =>
      UnmapKeeps(s, k);
      LostCell(s, Unmap(s, k), k);
    case ShareCowOne(k, from, executable) => ShareCowRefines(s, k, from, executable);
    case _ => MapRefines(s, step);
  }

  // ----- runs

  ghost predicate Follows(s: State, step: Step, s': State) {
    Inv(s) ==> Enabled(s, step) && s' == Apply(s, step)
  }

  ghost predicate IsRun(ss: seq<State>, steps: seq<Step>) {
    && |ss| == |steps| + 1
    && Inv(ss[0])
    && forall i :: 0 <= i < |steps| ==> Follows(ss[i], steps[i], ss[i + 1])
  }

  lemma {:induction false} RunRefines(ss: seq<State>, steps: seq<Step>, n: nat)
    requires IsRun(ss, steps) && n < |ss|
    ensures Inv(ss[0]) && Inv(ss[n])
    ensures MemoryOf(ss[n]) == PrivateRun(MemoryOf(ss[0]), steps[..n])
  {
    if n == 0 {
      assert steps[..0] == [];
    } else {
      RunRefines(ss, steps, n - 1);
      assert Follows(ss[n - 1], steps[n - 1], ss[n - 1 + 1]);
      StepRefines(ss[n - 1], steps[n - 1]);
      assert steps[..n][..n - 1] == steps[..n - 1];
    }
  }

  /** Along every run a frame's reference count is the number of its mappings, and a frame without one is free. */
  lemma RunCountsFrames(ss: seq<State>, steps: seq<Step>, n: nat, f: Frame)
    requires IsRun(ss, steps) && n < |ss|
    ensures f in ss[n].refs ==> ss[n].refs[f] == |Users(ss[n].ptes, f)| && Users(ss[n].ptes, f) != {}
    ensures f !in ss[n].refs ==> Users(ss[n].ptes, f) == {}
  {
    RunRefines(ss, steps, n);
    if f in ss[n].refs {
      HasUser(ss[n], f);
    }
  }

  // ----- one space among others

  function InSpace(v: Memory, y: Sid): Memory {
    map k | k in v && k.0 == y :: v[k]
  }

  /** The steps that map, write or unmap pages of `y`. */
  function Own(steps: seq<Step>, y: Sid): seq<Step> {
    if steps == [] then []
    else
      var before, last := Own(steps[..|steps| - 1], y), steps[|steps| - 1];
      if last.k.0 == y then before + [last] else before
  }

  /** Nothing is copied or shared into `y` from another space. */
  predicate Local(step: Step, y: Sid) {
    (step.CloneOne? || step.ShareOne? || step.ShareCowOne?) && step.k.0 == y ==> step.from.0 == y
  }

  lemma ProjectStep(v: Memory, step: Step, y: Sid)
    requires Local(step, y)
    ensures InSpace(PrivateStep(v, step), y)
         == if step.k.0 == y then PrivateStep(InSpace(v, y), step) else InSpace(v, y)
  {
  }

  /** A space sees what its own steps make of what it saw. */
  lemma {:induction false} ProjectRun(v: Memory, steps: seq<Step>, y: Sid)
    requires forall i :: 0 <= i < |steps| ==> Local(steps[i], y)
    ensures InSpace(PrivateRun(v, steps), y) == PrivateRun(InSpace(v, y), Own(steps, y))
  {
    if steps != [] {
      var before, last := steps[..|steps| - 1], steps[|steps| - 1];
      ProjectRun(v, before, y);
      ProjectStep(PrivateRun(v, before), last, y);
      var own := Own(before, y);
      assert (own + [last])[..|own + [last]| - 1] == own;
    }
  }

  /**
  Isolation.  In every run in which nothing is copied or shared into space `y`,
  `y` sees at every point exactly what its own steps would have made of its memory
  had no other space been there.
  */
  lemma RunIsolated(ss: seq<State>, steps: seq<Step>, n: nat, y: Sid)
    requires IsRun(ss, steps) && n < |ss|
    requires forall i :: 0 <= i < n ==> Local(steps[i], y)
    ensures Inv(ss[0]) && Inv(ss[n])
    ensures InSpace(MemoryOf(ss[n]), y) == PrivateRun(InSpace(MemoryOf(ss[0]), y), Own(steps[..n], y))
  {
    RunRefines(ss, steps, n);
    ProjectRun(MemoryOf(ss[0]), steps[..n], y);
  }
}
