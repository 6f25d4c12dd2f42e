/**
Scheduler-policy capabilities and task handles (kernel/sched.c).

A policy capability bounds the scheduling states that its holder may set.  New
ones are made from old ones by grants that may only narrow them.  Handles carry
rights to kernel objects from task to task.  The theorems are about whole runs:
no grant and no transfer ever widens what was there before.
*/
module Delegation {
  const TARGET_TASK := 1
  const TARGET_THREAD := 2
  const TARGET_SYSTEM := 5
  const RIGHT_DELEGATE: bv32 := 32
  const ALL_RIGHTS: bv32 := 63
  const ALL_CLASSES: bv64 := 62
  const MAX_DEPTH := 8

  // ----- policy capabilities

  datatype Cap = Cap(rights: bv32, depth: nat, kind: nat, id: nat, classes: bv64, minPriority: nat, maxPriority: nat,
                     minWeight: nat, maxWeight: nat, cpus: bv64)

  /** A scheduling state that somebody asks for. */
  datatype Wanted = Wanted(kind: nat, id: nat, sclass: nat, priority: nat, weight: nat, cpus: bv64)

  function ClassBit(sclass: nat): bv64 {
    match sclass
    case 1 => 2
    case 2 => 4
    case 3 => 8
    case 4 => 16
    case 5 => 32
    case _ => 0
  }

  predicate ValidMask(mask: bv64, all: bv64) {
    mask != 0 && mask & !all == 0
  }

  /** sched_policy_cap_create_system */
  function SystemCap(online: bv64): Cap {
    Cap(ALL_RIGHTS, MAX_DEPTH, TARGET_SYSTEM, 0, ALL_CLASSES, 0, 255, 1, 65535, online)
  }

  /** sched_policy_cap_allows_target */
  predicate AllowsTarget(cap: Cap, kind: nat, id: nat) {
    if cap.kind == TARGET_SYSTEM then kind == TARGET_TASK || kind == TARGET_THREAD || kind == TARGET_SYSTEM
    else cap.kind == kind && cap.id == id
  }

  /** sched_policy_is_attenuated */
  predicate Attenuated(parent: Cap, child: Cap, online: bv64) {
    && parent.rights & RIGHT_DELEGATE != 0 && parent.depth != 0 && child.depth < parent.depth
    && child.rights & !parent.rights == 0 && child.classes & !parent.classes == 0
    && parent.minPriority <= child.minPriority <= child.maxPriority <= parent.maxPriority
    && parent.minWeight <= child.minWeight <= child.maxWeight <= parent.maxWeight
    && child.cpus & !parent.cpus == 0
    && ValidMask(child.classes, ALL_CLASSES) && ValidMask(child.cpus, online)
    && AllowsTarget(parent, child.kind, child.id)
  }

  /** sched_policy_state_allowed */
  predicate Allows(cap: Cap, w: Wanted, online: bv64) {
    && AllowsTarget(cap, w.kind, w.id)
    && 1 <= w.sclass <= 5 && cap.classes & ClassBit(w.sclass) != 0
    && cap.minPriority <= w.priority <= cap.maxPriority
    && cap.minWeight <= w.weight <= cap.maxWeight
    && ValidMask(w.cpus, online) && w.cpus & !cap.cpus == 0
  }

  lemma SubsetMeets(a: bv64, b: bv64, c: bv64)
    requires a & !b == 0
    ensures a & c != 0 ==> b & c != 0
    ensures c & !a == 0 ==> c & !b == 0
  {
  }

  lemma SubsetRights(a: bv32, b: bv32, c: bv32)
    requires a & !b == 0 && b & !c == 0
    ensures a & !c == 0
  {
  }

  /** What a grant allows, its giver allows. */
  lemma GrantNarrows(parent: Cap, child: Cap, w: Wanted, online: bv64)
    requires Attenuated(parent, child, online) && Allows(child, w, online)
    ensures Allows(parent, w, online)
  {
    SubsetMeets(child.classes, parent.classes, ClassBit(w.sclass));
    SubsetMeets(child.cpus, parent.cpus, w.cpus);
  }

  /** A capability made so far, and the one it was granted from. */
  datatype Granted = First(cap: Cap) | From(cap: Cap, parent: nat)

  /** Every capability was made by the kernel or attenuated from an earlier one. */
  ghost predicate History(gs: seq<Granted>, online: bv64) {
    forall i :: 0 <= i < |gs| ==> WellMade(gs, i, online)
  }

  ghost predicate WellMade(gs: seq<Granted>, i: nat, online: bv64)
    requires i < |gs|
  {
    match gs[i]
    case First(cap) => cap == SystemCap(online)
    case From(cap, p) => p < i && Attenuated(gs[p].cap, cap, online)
  }

  /** The number of grants between capability `i` and the system capability. */
  ghost function Chain(gs: seq<Granted>, i: nat): nat
    decreases i
  {
    if i >= |gs| || gs[i].First? || gs[i].parent >= i then 0 else 1 + Chain(gs, gs[i].parent)
  }

  ghost predicate Ancestor(gs: seq<Granted>, a: nat, i: nat)
    decreases i
  {
    i < |gs| && (a == i || (gs[i].From? && gs[i].parent < i && Ancestor(gs, a, gs[i].parent)))
  }

  /** sched_policy_grant: the request is granted if it is attenuated. */
  function Grant(gs: seq<Granted>, authority: nat, requested: Cap, target: nat, online: bv64): seq<Granted>
    requires authority < |gs|
  {
    var child := if requested.kind == TARGET_TASK && requested.id == 0 then requested.(id := target) else requested;
    if Attenuated(gs[authority].cap, child, online) then gs + [From(child, authority)] else gs
  }

  lemma GrantKeepsHistory(gs: seq<Granted>, authority: nat, requested: Cap, target: nat, online: bv64)
    requires History(gs, online) && authority < |gs|
    ensures History(Grant(gs, authority, requested, target, online), online)
  {
    var gs' := Grant(gs, authority, requested, target, online);
    forall i | 0 <= i < |gs'|
      ensures WellMade(gs', i, online)
    {
      if i < |gs| {
        assert WellMade(gs, i, online);
      }
    }
  }

  /** `child` allows, and may do, no more than `parent`. */
  ghost predicate NoWider(child: Cap, parent: Cap, online: bv64) {
    forall w :: NoWiderFor(child, parent, w, online)
  }

  ghost predicate NoWiderFor(child: Cap, parent: Cap, w: Wanted, online: bv64) {
    && (Allows(child, w, online) ==> Allows(parent, w, online))
    && child.rights & !parent.rights == 0
  }

  lemma NoWiderSelf(cap: Cap, online: bv64)
    ensures NoWider(cap, cap, online)
  {
  }

  lemma NoWiderStep(child: Cap, parent: Cap, top: Cap, online: bv64)
    requires Attenuated(parent, child, online) && NoWider(parent, top, online)
    ensures NoWider(child, top, online)
  {
    forall w
      ensures NoWiderFor(child, top, w, online)
    {
      assert NoWiderFor(parent, top, w, online);
      SubsetRights(child.rights, parent.rights, top.rights);
      if Allows(child, w, online) {
        GrantNarrows(parent, child, w, online);
      }
    }
  }

  /** No capability allows, or may do, more than any of its ancestors. */
  lemma {:induction false} OnlyNarrows(gs: seq<Granted>, a: nat, i: nat, online: bv64)
    requires History(gs, online) && Ancestor(gs, a, i) && a < |gs|
    ensures NoWider(gs[i].cap, gs[a].cap, online)
    decreases i
  {
    if a != i {
      assert WellMade(gs, i, online);
      OnlyNarrows(gs, a, gs[i].parent, online);
      NoWiderStep(gs[i].cap, gs[gs[i].parent].cap, gs[a].cap, online);
    } else {
      NoWiderSelf(gs[i].cap, online);
    }
  }

  /** No chain of grants is longer than the depth of the system capability. */
  lemma {:induction false} ChainBounded(gs: seq<Granted>, i: nat, online: bv64)
    requires History(gs, online) && i < |gs|
    ensures Chain(gs, i) + gs[i].cap.depth <= MAX_DEPTH
    decreases i
  {
    assert WellMade(gs, i, online);
    if gs[i].From? {
      ChainBounded(gs, gs[i].parent, online);
    }
  }

  // ----- handles

  const INITIAL_HANDLES := 16
  const RIGHT_SEND: bv32 := 1
  const RIGHT_DUP: bv32 := 4
  const PORT := 1

  datatype Object = Object(kind: nat, id: nat)

  datatype Rights = Rights(bits: bv32) {
    predicate Within(other: Rights) {
      bits & !other.bits == 0
    }

    predicate MayCopy() {
      bits & RIGHT_DUP != 0
    }

    predicate MaySend() {
      bits & RIGHT_SEND != 0
    }
  }

  lemma WithinSelf(r: Rights)
    ensures r.Within(r)
  {
  }

  lemma SendWithin(r: Rights)
    requires r.MaySend()
    ensures Rights(RIGHT_SEND).Within(r)
  {
  }

  lemma WithinTrans(a: Rights, b: Rights, c: Rights)
    requires a.Within(b) && b.Within(c)
    ensures a.Within(c)
  {
  }

  datatype Handle = Empty | Held(target: Object, rights: Rights)

  /** The first empty slot, or the length if there is none. */
  function FirstEmpty(hs: seq<Handle>): (n: nat)
    ensures n <= |hs|
  {
    if hs == [] || hs[0].Empty? then 0 else 1 + FirstEmpty(hs[1..])
  }

  /** task_grow_handles_locked by one: the table doubles. */
  function Grown(hs: seq<Handle>): seq<Handle> {
    hs + seq(if hs == [] then INITIAL_HANDLES else |hs|, _ => Empty)
  }

  /** Where a granted handle goes: a slot that already holds it, the first empty one, or a grown table. */
  function Placed(hs: seq<Handle>, h: Handle): seq<Handle> {
    if h in hs then hs
    else if FirstEmpty(hs) < |hs| then hs[FirstEmpty(hs) := h]
    else Grown(hs)[|hs| := h]
  }

  lemma {:induction false} FirstEmptyIs(hs: seq<Handle>, n: nat)
    requires n <= |hs| && (forall i :: 0 <= i < n ==> !hs[i].Empty?) && (n < |hs| ==> hs[n].Empty?)
    ensures FirstEmpty(hs) == n
  {
    if n > 0 {
      FirstEmptyIs(hs[1..], n - 1);
    }
  }

  /** The searches of task_grant_port and its siblings; 0 is returned when the table cannot grow. */
  method Place(hs: seq<Handle>, h: Handle, canGrow: bool) returns (hs': seq<Handle>, handle: nat)
    requires h.Held?
    ensures handle == 0 ==> hs' == hs && h !in hs && !canGrow
    ensures handle != 0 ==> hs' == Placed(hs, h) && handle <= |hs'| && hs'[handle - 1] == h
  {
    var i := 0;
    while i < |hs|
      invariant 0 <= i <= |hs| && h !in hs[..i]
    {
      if hs[i] == h {
        return hs, i + 1;
      }
      i := i + 1;
    }
    assert hs[..i] == hs;
    i := 0;
    while i < |hs|
      invariant 0 <= i <= |hs| && forall j :: 0 <= j < i ==> !hs[j].Empty?
    {
      if hs[i].Empty? {
        FirstEmptyIs(hs, i);
        return hs[i := h], i + 1;
      }
      i := i + 1;
    }
    FirstEmptyIs(hs, |hs|);
    if !canGrow {
      return hs, 0;
    }
    return Grown(hs)[|hs| := h], |hs| + 1;
  }

  lemma PlacedHolds(hs: seq<Handle>, h: Handle, i: nat)
    requires i < |Placed(hs, h)|
    ensures Placed(hs, h)[i] in hs || Placed(hs, h)[i] == h || Placed(hs, h)[i] == Empty
  {
  }

  type Tables = map<int, seq<Handle>>

  /**
  Handing a handle on, by inheritance or in a message; handing on the reply port of
  a message; creating an object; and closing a handle.
  */
  datatype Step =
    | Pass(dst: int, src: int, slot: int, rights: Rights)
    | Reply(dst: int, src: int, slot: int)
    | Create(task: int, target: Object, rights: Rights)
    | Close(task: int, slot: int)

  predicate IsHeld(ts: Tables, task: int, slot: int) {
    task in ts && 0 <= slot < |ts[task]| && ts[task][slot].Held?
  }

  /** task_grant_inherited_handle, and task_export_cap as message sending calls it. */
  predicate Enabled(ts: Tables, step: Step) {
    match step
    case Pass(dst, src, slot, rights) =>
      dst in ts && IsHeld(ts, src, slot) && ts[src][slot].rights.MayCopy() && rights.Within(ts[src][slot].rights)
    case Reply(dst, src, slot) =>
      dst in ts && IsHeld(ts, src, slot) && ts[src][slot].target.kind == PORT && ts[src][slot].rights.MaySend()
    case Create(task, target, _) =>
      task in ts && forall t, i :: t in ts && 0 <= i < |ts[t]| && ts[t][i].Held? ==> ts[t][i].target != target
    case Close(task, slot) => IsHeld(ts, task, slot)
  }

  /** What a step puts into a table. */
  function Gives(ts: Tables, step: Step): Handle
    requires Enabled(ts, step)
  {
    match step
    case Pass(_, src, slot, rights) => Held(ts[src][slot].target, rights)
    case Reply(_, src, slot) => Held(ts[src][slot].target, Rights(RIGHT_SEND))
    case Create(_, target, rights) => Held(target, rights)
    case Close(_, _) => Empty
  }

  function Apply(ts: Tables, step: Step): Tables
    requires Enabled(ts, step)
  {
    match step
    case Pass(dst, _, _, _) => ts[dst := Placed(ts[dst], Gives(ts, step))]
    case Reply(dst, _, _) => ts[dst := Placed(ts[dst], Gives(ts, step))]
    case Create(task, _, _) => ts[task := Placed(ts[task], Gives(ts, step))]
    case Close(task, slot) => ts[task := ts[task][slot := Empty]]
  }

  /** The handle in a slot is to the same object as `h`, with at least its rights. */
  ghost predicate Backs(ts: Tables, task: int, slot: int, h: Handle)
    requires h.Held?
  {
    IsHeld(ts, task, slot) && ts[task][slot].target == h.target && h.rights.Within(ts[task][slot].rights)
  }

  /** The step made the object that `h` is to, and gave at least its rights. */
  predicate Creates(step: Step, h: Handle)
    requires h.Held?
  {
    step.Create? && step.target == h.target && h.rights.Within(step.rights)
  }

  lemma StepBacked(ts: Tables, step: Step, task: int, slot: int) returns (t: int, s: int)
    requires Enabled(ts, step) && IsHeld(Apply(ts, step), task, slot)
    ensures Creates(step, Apply(ts, step)[task][slot]) || Backs(ts, t, s, Apply(ts, step)[task][slot])
  {
    var h := Apply(ts, step)[task][slot];
    WithinSelf(h.rights);
    t, s := task, slot;
    var receiver := if step.Pass? || step.Reply? then step.dst else step.task;
    if !step.Close? && task == receiver {
      PlacedHolds(ts[task], Gives(ts, step), slot);
      if h == Gives(ts, step) {
        t, s := GiverBacks(ts, step, h);
      } else {
        var i :| 0 <= i < |ts[task]| && ts[task][i] == h;
        s := i;
      }
    }
  }

  lemma GiverBacks(ts: Tables, step: Step, h: Handle) returns (t: int, s: int)
    requires Enabled(ts, step) && !step.Close? && h == Gives(ts, step)
    ensures Creates(step, h) || Backs(ts, t, s, h)
  {
    WithinSelf(h.rights);
    if step.Create? {
      t, s := 0, 0;
    } else {
      t, s := step.src, step.slot;
      if step.Reply? {
        SendWithin(ts[t][s].rights);
      }
    }
  }

  ghost predicate IsRun(states: seq<Tables>, steps: seq<Step>) {
    && |states| == |steps| + 1
    && forall i :: 0 <= i < |steps| ==> Follows(states[i], steps[i], states[i + 1])
  }

  ghost predicate Follows(ts: Tables, step: Step, ts': Tables) {
    Enabled(ts, step) && ts' == Apply(ts, step)
  }

  /**
  In every run, whatever rights a task has to an object, some task had at least
  those at the start, or got them when the object was created, in step `c`.
  */
  lemma {:induction false} RunOnlyNarrows(states: seq<Tables>, steps: seq<Step>, n: nat, task: int, slot: int)
    returns (t: int, s: int, c: nat)
    requires IsRun(states, steps) && n < |states| && IsHeld(states[n], task, slot)
    ensures (c < n && Creates(steps[c], states[n][task][slot])) || Backs(states[0], t, s, states[n][task][slot])
    decreases n
  {
    var h := states[n][task][slot];
    c := n;
    if n == 0 {
      WithinSelf(h.rights);
      t, s := task, slot;
    } else {
      assert Follows(states[n - 1], steps[n - 1], states[n - 1 + 1]);
      var mt, ms := StepBacked(states[n - 1], steps[n - 1], task, slot);
      if Creates(steps[n - 1], h) {
        return mt, ms, n - 1;
      }
      t, s, c := RunOnlyNarrows(states, steps, n - 1, mt, ms);
      var g := states[n - 1][mt][ms];
      if c < n - 1 && Creates(steps[c], g) {
        WithinTrans(h.rights, g.rights, steps[c].rights);
      } else {
        WithinTrans(h.rights, g.rights, states[0][t][s].rights);
      }
    }
  }
}
