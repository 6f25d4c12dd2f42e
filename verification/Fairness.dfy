/**
Bounded bypass on one CPU (kernel/sched.c).

While a thread waits in the run queue with virtual deadline `D`, how often can
other threads be dispatched before it?  Every charged stop of a running thread
adds at least one unit to its virtual runtime and raises the queue's virtual time
accordingly, and every thread re-enters the queue at exactly that virtual time.
So each competitor has a quota that each of its dispatches uses up and that only
a stop without a charge refills, by one.

The charge is skipped for a thread that was dispatched while the tick counter
was still zero.  While it is zero there is no bound: `TickZeroStarves`.
*/
module Fairness {
  import opened RunQueues
  import opened Scheduler
  import opened Common

  // ----- virtual times

  /** Virtual times on one CPU: nobody is ahead of the queue's clock. */
  predicate TimesOk(minVruntime: nat, th: Thr) {
    && th.vruntime <= minVruntime
    && (th.run.Ready? ==> th.eligible == th.vruntime && th.deadline > th.eligible)
  }

  ghost predicate Timed(s: State) {
    && Inv(s) && |s.cpus| == 1
    && forall t :: t in s.threads ==> TimesOk(s.cpus[0].minVruntime, s.threads[t])
  }

  /**
  On one CPU a thread always enters the queue at exactly the queue's virtual
  time; in particular the wake-up credit never has an effect there.
  */
  lemma EntersAtMin(cpu: Cpu, th: Thr, wakeup: bool, now: nat)
    requires th.vruntime <= cpu.minVruntime
    ensures EntryVruntime(cpu, th, wakeup, now) == cpu.minVruntime
    ensures Prepared(cpu, 0, th, wakeup, now).eligible == cpu.minVruntime
    ensures TimesOk(cpu.minVruntime, Prepared(cpu, 0, th, wakeup, now))
  {
  }

  function Gap(hi: nat, lo: nat): nat {
    if lo < hi then hi - lo else 0
  }

  /** How many more times a thread can be dispatched ahead of a waiter with deadline `D`. */
  function QuotaOf(minVruntime: nat, D: nat, th: Thr): nat {
    match th.run
    case Ready => if th.eligible < D then 1 + Gap(D, Max(minVruntime, th.eligible + 1)) else 0
    case Running => Gap(D, Max(minVruntime, th.vruntime + 1))
    case Blocked => Gap(D, minVruntime)
  }

  /** A thread that does not exist may still be created. */
  function Quota(s: State, D: nat, x: Tid): nat
    requires |s.cpus| == 1
  {
    if x in s.threads then QuotaOf(s.cpus[0].minVruntime, D, s.threads[x]) else Gap(D, s.cpus[0].minVruntime)
  }

  // ----- what a step does to quotas

  /** The step gives the CPU to the head of the queue, `x`. */
  ghost predicate Dispatches(s: State, step: Step, x: Tid) {
    step.Dispatch? && !step.killed && step.c < |s.cpus| && s.cpus[step.c].queue != [] && s.cpus[step.c].queue[0] == x
  }

  /** The step stops the running thread of its CPU, and charges it as `chargeMin` says. */
  function StopOf(step: Step): Option<bool> {
    match step
    case Yield(_, _, _) => Some(true)
    case Preempt(_, _, _) => Some(false)
    case Block(_, _) => Some(true)
    case HandOff(_, _, _, _) => Some(true)
    case Exit(_, _) => Some(true)
    case _ => None
  }

  /** The step stops thread `x` without charging it for its turn. */
  ghost predicate StopsUncharged(s: State, step: Step, x: Tid) {
    && StopOf(step).Some? && step.c < |s.cpus| && s.cpus[step.c].current == Some(x) && x in s.threads
    && ChargedTicks(s.threads[x], step.now, StopOf(step).value).None?
  }

  /**
  When a stop goes uncharged: after a dispatch at tick zero, or at a preemption within the
  tick of the last charge.
  */
  lemma UnchargedIff(s: State, step: Step, x: Tid)
    requires StopOf(step).Some? && step.c < |s.cpus| && s.cpus[step.c].current == Some(x) && x in s.threads
    ensures StopsUncharged(s, step, x) <==>
            s.threads[x].execStart == 0 || (step.Preempt? && step.now <= s.threads[x].execStart)
  {
  }

  ghost predicate QuotaLaw(s: State, step: Step, s': State, D: nat, x: Tid)
    requires |s.cpus| == 1 && |s'.cpus| == 1
  {
    Quota(s', D, x) + (if Dispatches(s, step, x) then 1 else 0)
    <= Quota(s, D, x) + (if StopsUncharged(s, step, x) then 1 else 0)
  }

  /** A thread that is not touched loses nothing but quota when the clock advances. */
  lemma ClockOnly(m: nat, m': nat, D: nat, th: Thr)
    requires m <= m'
    ensures QuotaOf(m', D, th) <= QuotaOf(m, D, th)
    ensures TimesOk(m, th) ==> TimesOk(m', th)
  {
  }

  /** What charging does to the running thread and to the clock. */
  lemma ChargeLaw(cpu: Cpu, th: Thr, now: nat, chargeMin: bool, D: nat)
    requires th.run.Running? && th.vruntime <= cpu.minVruntime
    ensures
      var th' := AccountThread(th, now, chargeMin);
      var m, m' := cpu.minVruntime, AccountCpu(cpu, th, now, chargeMin).minVruntime;
      && th'.run.Running? && TimesOk(m', th') && m <= m'
      && QuotaOf(m', D, th') <= QuotaOf(m, D, th)
      && Gap(D, m') <= QuotaOf(m, D, th) + if ChargedTicks(th, now, chargeMin).None? then 1 else 0
  {
  }

  /** After charging, and after the charged thread has left the CPU. */
  lemma StoppedLaw(s: State, chargeMin: bool, now: nat, D: nat)
    requires Timed(s) && Occupied(s, 0)
    ensures
      var t := s.cpus[0].current.value;
      var charged, stopped := Account(s, 0, now, chargeMin), Stopped(s, 0, chargeMin, now);
      && |charged.cpus| == 1 && |stopped.cpus| == 1
      && (forall x :: x in charged.threads ==> TimesOk(charged.cpus[0].minVruntime, charged.threads[x]))
      && (forall x :: x in stopped.threads ==> TimesOk(stopped.cpus[0].minVruntime, stopped.threads[x]))
      && (forall x :: Quota(charged, D, x) <= Quota(s, D, x))
      && (forall x :: x != t ==> Quota(stopped, D, x) <= Quota(s, D, x))
      && Quota(stopped, D, t) == Gap(D, stopped.cpus[0].minVruntime)
      && Quota(stopped, D, t) <= Quota(s, D, t) + if ChargedTicks(s.threads[t], now, chargeMin).None? then 1 else 0
  {
    var t := s.cpus[0].current.value;
    assert CurrentOk(s.threads, s.cpus[0].current, 0);
    ChargeLaw(s.cpus[0], s.threads[t], now, chargeMin, D);
    var m, m' := s.cpus[0].minVruntime, Account(s, 0, now, chargeMin).cpus[0].minVruntime;
    forall x | x in s.threads && x != t
      ensures TimesOk(m', s.threads[x]) && QuotaOf(m', D, s.threads[x]) <= QuotaOf(m, D, s.threads[x])
    {
      ClockOnly(m, m', D, s.threads[x]);
    }
  }

  /** A stopped thread enters the queue at the clock, with the quota it had. */
  lemma EnqueueLaw(stopped: State, t: Tid, now: nat, D: nat)
    requires Inv(stopped) && |stopped.cpus| == 1 && t in stopped.threads && stopped.threads[t].run.Blocked?
    requires forall x :: x in stopped.threads ==> TimesOk(stopped.cpus[0].minVruntime, stopped.threads[x])
    ensures
      var s' := EnqueueOn(stopped, 0, t, false, now);
      && |s'.cpus| == 1
      && (forall x :: x in s'.threads ==> TimesOk(s'.cpus[0].minVruntime, s'.threads[x]))
      && (forall x :: Quota(s', D, x) == Quota(stopped, D, x))
  {
    EntersAtMin(stopped.cpus[0], stopped.threads[t], false, now);
  }

  lemma RequeueLaw(s: State, target: nat, chargeMin: bool, now: nat, D: nat)
    requires Timed(s) && Occupied(s, 0) && target == 0
    ensures
      var t, s' := s.cpus[0].current.value, Requeued(s, 0, target, chargeMin, now);
      && |s'.cpus| == 1
      && (forall x :: x in s'.threads ==> TimesOk(s'.cpus[0].minVruntime, s'.threads[x]))
      && (forall x :: x != t ==> Quota(s', D, x) <= Quota(s, D, x))
      && Quota(s', D, t) <= Quota(s, D, t) + if ChargedTicks(s.threads[t], now, chargeMin).None? then 1 else 0
  {
    var t, stopped := s.cpus[0].current.value, Stopped(s, 0, chargeMin, now);
    StoppedLaw(s, chargeMin, now, D);
    RequeueKeeps(s, 0, 0, chargeMin, now);
    EnqueueLaw(stopped, t, now, D);
  }

  /** All virtual times stay in order, and quotas shrink as the law says. */
  ghost predicate TimesLaw(s: State, step: Step, s': State, D: nat, w: Tid) {
    && |s.cpus| == 1 && |s'.cpus| == 1
    && (forall x :: x in s'.threads ==> TimesOk(s'.cpus[0].minVruntime, s'.threads[x]))
    && (forall x :: x != w ==> QuotaLaw(s, step, s', D, x))
  }

  /** The head of the queue is due no later than a thread that stays queued behind it. */
  lemma HeadIsDueFirst(threads: map<Tid, Thr>, q: seq<Tid>, w: Tid)
    requires QueueOk(threads, q, 0) && q != [] && w in RemoveAt(q, 0)
    ensures w != q[0] && threads[q[0]].deadline <= threads[w].deadline
  {
    RemoveQueueOk(threads, q, 0, 0);
    var j :| 0 <= j < |RemoveAt(q, 0)| && RemoveAt(q, 0)[j] == w;
    var keys := KeysOf(threads, q);
    assert After(keys[j + 1], keys[0]);
  }

  /** A dispatched thread uses up one of its turns. */
  lemma TurnUsed(m: nat, D: nat, th: Thr, now: nat)
    requires th.run.Ready? && TimesOk(m, th) && (th.eligible < D || D <= m)
    ensures
      var started := th.(run := Running, cpu := 0, execStart := now);
      && QuotaOf(Max(m, th.vruntime), D, started) + (if th.eligible < D then 1 else 0) <= QuotaOf(m, D, th)
      && TimesOk(Max(m, th.vruntime), started)
      && Gap(D, Max(m, th.vruntime)) <= QuotaOf(m, D, th)
  {
  }

  lemma DispatchLaw(s: State, c: nat, killed: bool, now: nat, D: nat, w: Tid)
    requires Timed(s) && Enabled(s, Dispatch(c, killed, now))
    requires s.threads[s.cpus[0].queue[0]].eligible < D
    ensures TimesLaw(s, Dispatch(c, killed, now), Apply(s, Dispatch(c, killed, now)), D, w)
  {
    var q := s.cpus[0].queue;
    var s' := Apply(s, Dispatch(c, killed, now));
    assert QueueOk(s.threads, q, 0);
    var x := q[0];
    var m, m' := s.cpus[0].minVruntime, s'.cpus[0].minVruntime;
    assert TimesOk(m, s.threads[x]);
    TurnUsed(m, D, s.threads[x], now);
    forall y | y in s.threads && y != x
      ensures TimesOk(m', s.threads[y]) && QuotaOf(m', D, s.threads[y]) <= QuotaOf(m, D, s.threads[y])
    {
      ClockOnly(m, m', D, s.threads[y]);
    }
  }

  lemma OneCpuPlace(s: State, mask: set<nat>, target: nat)
    requires |s.cpus| == 1 && ValidMask(s, mask) && Placed(s, 0, mask, target)
    ensures target == 0
  {
    var c :| c in mask;
    assert c == 0;
  }

  lemma WakeLaw(s: State, t: Tid, target: nat, now: nat, D: nat, w: Tid)
    requires Timed(s) && Enabled(s, Wake(t, target, now))
    ensures TimesLaw(s, Wake(t, target, now), Apply(s, Wake(t, target, now)), D, w)
  {
    assert ThrOk(s.cpus, t, s.threads[t]);
    OneCpuPlace(s, s.threads[t].mask, target);
    EntersAtMin(s.cpus[0], s.threads[t], true, now);
  }

  lemma CreateLaw(s: State, step: Step, D: nat, w: Tid)
    requires Timed(s) && Enabled(s, step) && step.Create?
    ensures TimesLaw(s, step, Apply(s, step), D, w)
  {
    OneCpuPlace(s, step.mask, step.target);
    EntersAtMin(s.cpus[0], FreshThr(step.target, step.cls, step.mask), false, step.now);
  }

  lemma TickLaw(s: State, now: nat, D: nat, w: Tid)
    requires Timed(s) && Enabled(s, Charge(0, now))
    ensures TimesLaw(s, Charge(0, now), Apply(s, Charge(0, now)), D, w)
  {
    StoppedLaw(s, false, now, D);
  }

  lemma BlockLaw(s: State, c: nat, now: nat, D: nat, w: Tid)
    requires Timed(s) && Enabled(s, Block(c, now))
    ensures TimesLaw(s, Block(c, now), Apply(s, Block(c, now)), D, w)
  {
    assert CurrentOk(s.threads, s.cpus[0].current, 0);
    StoppedLaw(s, true, now, D);
  }

  lemma ExitLaw(s: State, c: nat, now: nat, D: nat, w: Tid)
    requires Timed(s) && Enabled(s, Exit(c, now))
    ensures TimesLaw(s, Exit(c, now), Apply(s, Exit(c, now)), D, w)
  {
    assert CurrentOk(s.threads, s.cpus[0].current, 0);
    StoppedLaw(s, true, now, D);
  }

  lemma YieldLaw(s: State, step: Step, D: nat, w: Tid)
    requires Timed(s) && Enabled(s, step) && (step.Yield? || step.Preempt?)
    ensures TimesLaw(s, step, Apply(s, step), D, w)
  {
    assert CurrentOk(s.threads, s.cpus[0].current, 0);
    OneCpuPlace(s, s.threads[s.cpus[0].current.value].mask, step.target);
    RequeueLaw(s, step.target, step.Yield?, step.now, D);
  }

  /** Starting a blocked thread at once costs none of the others a turn. */
  lemma StartLaw(s: State, t: Tid, now: nat, D: nat)
    requires |s.cpus| == 1 && t in s.threads && s.threads[t].run.Blocked?
    requires forall x :: x in s.threads ==> TimesOk(s.cpus[0].minVruntime, s.threads[x])
    ensures
      var s' := Start(SetThr(s, t, s.threads[t].(blockedSince := 0)), 0, t, now);
      && |s'.cpus| == 1
      && (forall x :: x in s'.threads ==> TimesOk(s'.cpus[0].minVruntime, s'.threads[x]))
      && (forall x :: Quota(s', D, x) <= Quota(s, D, x))
  {
    assert TimesOk(s.cpus[0].minVruntime, s.threads[t]);
  }

  lemma HandOffLaw(s: State, c: nat, t: Tid, target: nat, now: nat, D: nat, w: Tid)
    requires Timed(s) && Enabled(s, HandOff(c, t, target, now))
    ensures TimesLaw(s, HandOff(c, t, target, now), Apply(s, HandOff(c, t, target, now)), D, w)
  {
    assert CurrentOk(s.threads, s.cpus[0].current, 0);
    OneCpuPlace(s, s.threads[s.cpus[0].current.value].mask, target);
    RequeueLaw(s, target, true, now, D);
    StartLaw(Requeued(s, 0, 0, true, now), t, now, D);
  }

  lemma PlainLaw(s: State, step: Step, D: nat, w: Tid)
    requires Timed(s) && Enabled(s, step) && (step.CancelReady? || step.SetPolicy?)
    ensures TimesLaw(s, step, Apply(s, step), D, w)
  {
    assert QueueOk(s.threads, s.cpus[0].queue, 0);
    if step.CancelReady? {
      assert TimesOk(s.cpus[0].minVruntime, s.threads[s.cpus[0].queue[step.n]]);
    }
  }

  /** Every step on one CPU. */
  lemma StepTimes(s: State, step: Step, D: nat, w: Tid)
    requires Timed(s) && Enabled(s, step)
    requires step.Dispatch? ==> s.threads[s.cpus[0].queue[0]].eligible < D
    ensures TimesLaw(s, step, Apply(s, step), D, w)
  {
    match step
    case Dispatch(c, killed, now) => DispatchLaw(s, c, killed, now, D, w);
    case Yield(_, _, _) => YieldLaw(s, step, D, w);
    case Preempt(_, _, _) => YieldLaw(s, step, D, w);
    case Charge(_, now) => TickLaw(s, now, D, w);
    case Block(c, now) => BlockLaw(s, c, now, D, w);
    case Exit(c, now) => ExitLaw(s, c, now, D, w);
    case Wake(t, target, now) => WakeLaw(s, t, target, now, D, w);
    case Create(_, _, _, _, _, _) => CreateLaw(s, step, D, w);
    case HandOff(c, t, target, now) => HandOffLaw(s, c, t, target, now, D, w);
    case CancelReady(_, _) => PlainLaw(s, step, D, w);
    case SetPolicy(_, _, _, _) => PlainLaw(s, step, D, w);
  }

  // ----- every run on one CPU

  lemma StepKeepsTimed(s: State, step: Step)
    requires Timed(s) && Enabled(s, step)
    ensures Timed(Apply(s, step))
  {
    StepKeepsInv(s, step);
    var D := if step.Dispatch? then s.threads[s.cpus[0].queue[0]].eligible + 1 else 0;
    StepTimes(s, step, D, 0);
  }

  lemma {:induction false} RunTimed(ss: seq<State>, steps: seq<Step>, n: nat)
    requires IsRun(ss, steps) && |ss[0].cpus| == 1 && n < |ss|
    ensures Timed(ss[n])
  {
    if n > 0 {
      RunTimed(ss, steps, n - 1);
      assert Follows(ss[n - 1], steps[n - 1], ss[n - 1 + 1]);
      StepKeepsTimed(ss[n - 1], steps[n - 1]);
    }
  }

  /** `s'` is what a step on one CPU makes of `s`. */
  ghost predicate Next(s: State, step: Step, s': State) {
    Timed(s) && Enabled(s, step) && s' == Apply(s, step)
  }

  lemma NextInRun(ss: seq<State>, steps: seq<Step>, n: nat, next: nat)
    requires IsRun(ss, steps) && |ss[0].cpus| == 1 && n < |steps| && next == n + 1
    ensures Next(ss[n], steps[n], ss[next])
  {
    RunTimed(ss, steps, n);
    assert Follows(ss[n], steps[n], ss[n + 1]);
  }

  /** Thread `w` is in the queue from position `a` of the run to position `b`. */
  ghost predicate Waits(ss: seq<State>, w: Tid, a: nat, b: nat) {
    a <= b < |ss| && forall i :: a <= i <= b ==> |ss[i].cpus| == 1 && w in ss[i].cpus[0].queue
  }

  /** How many times a queued thread is given the CPU. */
  function Dispatched(steps: seq<Step>, a: nat, b: nat): nat
    requires a <= b <= |steps|
    decreases b
  {
    if a == b then 0
    else Dispatched(steps, a, b - 1) + if steps[b - 1].Dispatch? && !steps[b - 1].killed then 1 else 0
  }

  ghost predicate UnchargedStop(s: State, step: Step) {
    exists x :: StopsUncharged(s, step, x)
  }

  /** How many stops go uncharged. */
  ghost function Uncharged(ss: seq<State>, steps: seq<Step>, a: nat, b: nat): nat
    requires a <= b <= |steps| && |ss| == |steps| + 1
    decreases b
  {
    if a == b then 0
    else Uncharged(ss, steps, a, b - 1) + if UnchargedStop(ss[b - 1], steps[b - 1]) then 1 else 0
  }

  /** A thread that stays in the queue keeps its deadline, and whoever is dispatched before it is due before it. */
  ghost predicate WaiterLaw(s: State, step: Step, s': State, w: Tid) {
    && |s.cpus| == 1 && w in s.threads && w in s'.threads && s'.threads[w].deadline == s.threads[w].deadline
    && (step.Dispatch? && s.cpus[0].queue != [] ==>
          s.cpus[0].queue[0] != w && s.cpus[0].queue[0] in s.threads
          && s.threads[s.cpus[0].queue[0]].eligible < s.threads[w].deadline)
  }

  lemma WaiterDispatch(s: State, c: nat, killed: bool, now: nat, w: Tid)
    requires Timed(s) && Enabled(s, Dispatch(c, killed, now))
    requires w in s.cpus[0].queue && w in Apply(s, Dispatch(c, killed, now)).cpus[0].queue
    ensures WaiterLaw(s, Dispatch(c, killed, now), Apply(s, Dispatch(c, killed, now)), w)
  {
    assert QueueOk(s.threads, s.cpus[0].queue, 0);
    HeadIsDueFirst(s.threads, s.cpus[0].queue, w);
    assert TimesOk(s.cpus[0].minVruntime, s.threads[s.cpus[0].queue[0]]);
  }

  lemma WaiterCancel(s: State, c: nat, n: nat, w: Tid)
    requires Timed(s) && Enabled(s, CancelReady(c, n))
    requires w in s.cpus[0].queue && w in Apply(s, CancelReady(c, n)).cpus[0].queue
    ensures WaiterLaw(s, CancelReady(c, n), Apply(s, CancelReady(c, n)), w)
  {
    assert QueueOk(s.threads, s.cpus[0].queue, 0);
    RemoveQueueOk(s.threads, s.cpus[0].queue, 0, n);
  }

  /** A thread that the step does not take out of the queue keeps its record. */
  lemma WaiterRequeue(s: State, step: Step, w: Tid)
    requires Timed(s) && Enabled(s, step) && (step.Yield? || step.Preempt?) && w in s.cpus[0].queue
    ensures WaiterLaw(s, step, Apply(s, step), w)
  {
    assert QueueOk(s.threads, s.cpus[0].queue, 0) && CurrentOk(s.threads, s.cpus[0].current, 0);
    TargetInRange(s, step);
  }

  lemma WaiterHandOff(s: State, step: Step, w: Tid)
    requires Timed(s) && Enabled(s, step) && step.HandOff? && w in s.cpus[0].queue
    ensures WaiterLaw(s, step, Apply(s, step), w)
  {
    assert QueueOk(s.threads, s.cpus[0].queue, 0) && CurrentOk(s.threads, s.cpus[0].current, 0);
    TargetInRange(s, step);
  }

  lemma WaiterOther(s: State, step: Step, w: Tid)
    requires Timed(s) && Enabled(s, step) && w in s.cpus[0].queue
    requires step.Create? || step.Charge? || step.Block? || step.Wake? || step.Exit? || step.SetPolicy?
    ensures WaiterLaw(s, step, Apply(s, step), w)
  {
    assert QueueOk(s.threads, s.cpus[0].queue, 0) && CurrentOk(s.threads, s.cpus[0].current, 0);
    TargetInRange(s, step);
  }

  lemma WaiterStays(s: State, step: Step, s': State, w: Tid)
    requires Next(s, step, s') && w in s.cpus[0].queue && |s'.cpus| == 1 && w in s'.cpus[0].queue
    ensures WaiterLaw(s, step, s', w)
  {
    match step
    case Dispatch(c, killed, now) => WaiterDispatch(s, c, killed, now, w);
    case CancelReady(c, n) => WaiterCancel(s, c, n, w);
    case Yield(_, _, _) => WaiterRequeue(s, step, w);
    case Preempt(_, _, _) => WaiterRequeue(s, step, w);
    case HandOff(_, _, _, _) => WaiterHandOff(s, step, w);
    case _ => WaiterOther(s, step, w);
  }

  function Total(s: State, D: nat, xs: seq<Tid>): nat
    requires |s.cpus| == 1
  {
    if xs == [] then 0 else Quota(s, D, xs[0]) + Total(s, D, xs[1..])
  }

  lemma {:induction false} TotalCharged(s: State, step: Step, s': State, D: nat, w: Tid, xs: seq<Tid>)
    requires TimesLaw(s, step, s', D, w) && w !in xs
    requires forall i :: 0 <= i < |xs| ==> !StopsUncharged(s, step, xs[i])
    ensures Total(s', D, xs) <= Total(s, D, xs)
    ensures forall x :: x in xs && Dispatches(s, step, x) ==> Total(s', D, xs) + 1 <= Total(s, D, xs)
  {
    if xs != [] {
      assert QuotaLaw(s, step, s', D, xs[0]);
      TotalCharged(s, step, s', D, w, xs[1..]);
    }
  }

  lemma {:induction false} TotalUncharged(s: State, step: Step, s': State, D: nat, w: Tid, xs: seq<Tid>)
    requires TimesLaw(s, step, s', D, w) && w !in xs && Distinct(xs)
    ensures Total(s', D, xs) <= Total(s, D, xs) + 1
  {
    if xs != [] {
      assert QuotaLaw(s, step, s', D, xs[0]);
      if StopsUncharged(s, step, xs[0]) {
        forall i | 0 <= i < |xs[1..]|
          ensures !StopsUncharged(s, step, xs[1..][i])
        {
          assert xs[1..][i] == xs[i + 1] != xs[0];
        }
        TotalCharged(s, step, s', D, w, xs[1..]);
      } else {
        TotalUncharged(s, step, s', D, w, xs[1..]);
      }
    }
  }

  lemma {:induction false} TotalBound(s: State, D: nat, xs: seq<Tid>)
    requires |s.cpus| == 1
    ensures Total(s, D, xs) <= |xs| * (1 + Gap(D, s.cpus[0].minVruntime))
  {
    if xs != [] {
      TotalBound(s, D, xs[1..]);
      OneMore(|xs[1..]|, 1 + Gap(D, s.cpus[0].minVruntime));
    }
  }

  lemma OneMore(n: nat, q: nat)
    ensures (n + 1) * q == n * q + q
  {
  }

  /** The other threads that exist between positions `a` and `b` are among `others`. */
  ghost predicate Among(ss: seq<State>, w: Tid, a: nat, b: nat, others: seq<Tid>)
    requires a <= b < |ss|
  {
    && Distinct(others) && w !in others
    && forall i, x :: a <= i <= b && x in ss[i].threads && x != w ==> x in others
  }

  lemma AmongFor(ss: seq<State>, w: Tid, a: nat, b: nat, c: nat, others: seq<Tid>)
    requires Waits(ss, w, a, b) && Among(ss, w, a, b, others) && a <= c <= b
    ensures Waits(ss, w, a, c) && Among(ss, w, a, c, others)
    ensures forall x :: x in ss[c].threads && x != w ==> x in others
  {
  }

  lemma StepWithinTotal(s: State, step: Step, s': State, w: Tid, others: seq<Tid>)
    requires Next(s, step, s') && w in s.cpus[0].queue && |s'.cpus| == 1 && w in s'.cpus[0].queue
    requires Distinct(others) && w !in others && forall x :: x in s.threads && x != w ==> x in others
    ensures WaiterLaw(s, step, s', w)
    ensures Total(s', s.threads[w].deadline, others) + (if step.Dispatch? && !step.killed then 1 else 0)
            <= Total(s, s.threads[w].deadline, others) + (if UnchargedStop(s, step) then 1 else 0)
  {
    WaiterStays(s, step, s', w);
    var D := s.threads[w].deadline;
    StepTimes(s, step, D, w);
    if UnchargedStop(s, step) {
      TotalUncharged(s, step, s', D, w, others);
    } else {
      TotalCharged(s, step, s', D, w, others);
      if step.Dispatch? && !step.killed {
        assert Dispatches(s, step, s.cpus[0].queue[0]) && s.cpus[0].queue[0] in others;
      }
    }
  }

  lemma {:induction false} BypassesWithinTotal(ss: seq<State>, steps: seq<Step>, w: Tid, a: nat, b: nat,
                                               others: seq<Tid>)
    requires IsRun(ss, steps) && |ss[0].cpus| == 1 && Waits(ss, w, a, b) && Among(ss, w, a, b, others)
    ensures w in ss[a].threads && w in ss[b].threads && ss[b].threads[w].deadline == ss[a].threads[w].deadline
    ensures Dispatched(steps, a, b) + Total(ss[b], ss[a].threads[w].deadline, others)
            <= Total(ss[a], ss[a].threads[w].deadline, others) + Uncharged(ss, steps, a, b)
    decreases b
  {
    RunTimed(ss, steps, b);
    assert QueueOk(ss[b].threads, ss[b].cpus[0].queue, 0);
    if a < b {
      var c := b - 1;
      AmongFor(ss, w, a, b, c, others);
      BypassesWithinTotal(ss, steps, w, a, c, others);
      NextInRun(ss, steps, c, b);
      StepWithinTotal(ss[c], steps[c], ss[b], w, others);
    }
  }

  /**
  Bounded bypass, in every run on one CPU.  While thread `w` waits in the queue,
  the other threads are together dispatched at most once each, plus once each for
  every unit of virtual time between the queue's clock and `w`'s deadline, plus
  once for every stop that went uncharged.
  */
  lemma BoundedBypass(ss: seq<State>, steps: seq<Step>, w: Tid, a: nat, b: nat, others: seq<Tid>)
    requires IsRun(ss, steps) && |ss[0].cpus| == 1 && Waits(ss, w, a, b) && Among(ss, w, a, b, others)
    ensures w in ss[a].threads
    ensures Dispatched(steps, a, b) <=
            |others| * (1 + Gap(ss[a].threads[w].deadline, ss[a].cpus[0].minVruntime)) + Uncharged(ss, steps, a, b)
  {
    BypassesWithinTotal(ss, steps, w, a, b, others);
    TotalBound(ss[a], ss[a].threads[w].deadline, others);
  }

  // ----- hand-offs, which pass by the queue

  function HandOffs(steps: seq<Step>, a: nat, b: nat): nat
    requires a <= b <= |steps|
    decreases b
  {
    if a == b then 0 else HandOffs(steps, a, b - 1) + if steps[b - 1].HandOff? then 1 else 0
  }

  function IsBlocked(s: State, x: Tid): nat {
    if x in s.threads && s.threads[x].run.Blocked? then 1 else 0
  }

  function BlockedAmong(s: State, xs: seq<Tid>): nat {
    if xs == [] then 0 else IsBlocked(s, xs[0]) + BlockedAmong(s, xs[1..])
  }

  function IsBusy(s: State): nat {
    if |s.cpus| == 1 && s.cpus[0].current.Some? then 1 else 0
  }

  /** The blocked threads, and the running one, which may block next. */
  function Parked(s: State, xs: seq<Tid>): nat {
    BlockedAmong(s, xs) + IsBusy(s)
  }

  /** The step blocks the running thread, `x`. */
  ghost predicate Blocks(s: State, step: Step, x: Tid) {
    step.Block? && |s.cpus| == 1 && s.cpus[0].current == Some(x)
  }

  /** Only a block adds a blocked thread, and a hand-off takes one. */
  ghost predicate BlockedLaw(s: State, step: Step, s': State, x: Tid) {
    IsBlocked(s', x) + (if step.HandOff? && step.t == x then 1 else 0)
    <= IsBlocked(s, x) + (if Blocks(s, step, x) then 1 else 0)
  }

  lemma StopBlocksOne(s: State, step: Step, x: Tid)
    requires Timed(s) && Enabled(s, step) && (step.Block? || step.Exit? || step.Charge?)
    ensures BlockedLaw(s, step, Apply(s, step), x)
  {
    assert CurrentOk(s.threads, s.cpus[0].current, 0);
  }

  lemma RequeueBlocksOne(s: State, step: Step, x: Tid)
    requires Timed(s) && Enabled(s, step) && (step.Yield? || step.Preempt?)
    ensures BlockedLaw(s, step, Apply(s, step), x)
  {
    assert CurrentOk(s.threads, s.cpus[0].current, 0);
    TargetInRange(s, step);
  }

  lemma HandOffBlocksOne(s: State, step: Step, x: Tid)
    requires Timed(s) && Enabled(s, step) && step.HandOff?
    ensures BlockedLaw(s, step, Apply(s, step), x)
  {
    assert CurrentOk(s.threads, s.cpus[0].current, 0);
    TargetInRange(s, step);
  }

  lemma LeaveBlocksOne(s: State, step: Step, x: Tid)
    requires Timed(s) && Enabled(s, step) && (step.Dispatch? || step.CancelReady?)
    ensures BlockedLaw(s, step, Apply(s, step), x)
  {
    assert QueueOk(s.threads, s.cpus[0].queue, 0);
  }

  lemma EnterBlocksOne(s: State, step: Step, x: Tid)
    requires Timed(s) && Enabled(s, step) && (step.Create? || step.Wake? || step.SetPolicy?)
    ensures BlockedLaw(s, step, Apply(s, step), x)
  {
    TargetInRange(s, step);
  }

  lemma StepBlocksOne(s: State, step: Step, x: Tid)
    requires Timed(s) && Enabled(s, step)
    ensures BlockedLaw(s, step, Apply(s, step), x)
  {
    match step
    case Block(_, _) => StopBlocksOne(s, step, x);
    case Exit(_, _) => StopBlocksOne(s, step, x);
    case Charge(_, _) => StopBlocksOne(s, step, x);
    case Yield(_, _, _) => RequeueBlocksOne(s, step, x);
    case Preempt(_, _, _) => RequeueBlocksOne(s, step, x);
    case HandOff(_, _, _, _) => HandOffBlocksOne(s, step, x);
    case Dispatch(_, _, _) => LeaveBlocksOne(s, step, x);
    case CancelReady(_, _) => LeaveBlocksOne(s, step, x);
    case _ => EnterBlocksOne(s, step, x);
  }

  lemma StepBlocks(s: State, step: Step)
    requires Timed(s) && Enabled(s, step)
    ensures forall x :: BlockedLaw(s, step, Apply(s, step), x)
  {
    forall x
      ensures BlockedLaw(s, step, Apply(s, step), x)
    {
      StepBlocksOne(s, step, x);
    }
  }

  ghost predicate BusyLaw(s: State, step: Step, s': State) {
    IsBusy(s') + (if step.Block? then 1 else 0) <= IsBusy(s) + (if step.Dispatch? && !step.killed then 1 else 0)
  }

  /** Steps after which the running thread waits in a queue. */
  lemma RequeueStep(s: State, step: Step)
    requires Timed(s) && Enabled(s, step) && (step.Yield? || step.Preempt? || step.HandOff?)
    ensures BusyLaw(s, step, Apply(s, step))
  {
    TargetInRange(s, step);
  }

  /** The other steps of a running thread. */
  lemma BusyStep(s: State, step: Step)
    requires Timed(s) && Enabled(s, step) && (step.Block? || step.Exit? || step.Charge?)
    ensures BusyLaw(s, step, Apply(s, step))
  {
  }

  lemma IdleStep(s: State, step: Step)
    requires Timed(s) && Enabled(s, step)
    requires step.Create? || step.Dispatch? || step.Wake? || step.CancelReady? || step.SetPolicy?
    ensures BusyLaw(s, step, Apply(s, step))
  {
    TargetInRange(s, step);
  }

  lemma StepBusy(s: State, step: Step)
    requires Timed(s) && Enabled(s, step)
    ensures BusyLaw(s, step, Apply(s, step))
  {
    if step.Create? || step.Dispatch? || step.Wake? || step.CancelReady? || step.SetPolicy? {
      IdleStep(s, step);
    } else if step.Yield? || step.Preempt? || step.HandOff? {
      RequeueStep(s, step);
    } else {
      BusyStep(s, step);
    }
  }

  lemma {:induction false} NoneBlocks(s: State, step: Step, s': State, xs: seq<Tid>)
    requires forall x :: BlockedLaw(s, step, s', x)
    requires forall i :: 0 <= i < |xs| ==> !Blocks(s, step, xs[i])
    ensures BlockedAmong(s', xs) <= BlockedAmong(s, xs)
    ensures step.HandOff? && step.t in xs ==> BlockedAmong(s', xs) + 1 <= BlockedAmong(s, xs)
  {
    if xs != [] {
      assert BlockedLaw(s, step, s', xs[0]);
      NoneBlocks(s, step, s', xs[1..]);
    }
  }

  lemma {:induction false} OneBlocks(s: State, step: Step, s': State, xs: seq<Tid>)
    requires (forall x :: BlockedLaw(s, step, s', x)) && Distinct(xs)
    ensures BlockedAmong(s', xs) <= BlockedAmong(s, xs) + 1
  {
    if xs != [] {
      assert BlockedLaw(s, step, s', xs[0]);
      if Blocks(s, step, xs[0]) {
        forall i | 0 <= i < |xs[1..]|
          ensures !Blocks(s, step, xs[1..][i])
        {
          assert xs[1..][i] == xs[i + 1] != xs[0];
        }
        NoneBlocks(s, step, s', xs[1..]);
      } else {
        OneBlocks(s, step, s', xs[1..]);
      }
    }
  }

  lemma {:induction false} BlockedBound(s: State, xs: seq<Tid>)
    ensures BlockedAmong(s, xs) <= |xs|
  {
    if xs != [] {
      BlockedBound(s, xs[1..]);
    }
  }

  /** A hand-off uses up a blocked thread, and only a dispatch makes room for another to block. */
  lemma StepHandsOff(s: State, step: Step, s': State, w: Tid, others: seq<Tid>)
    requires Next(s, step, s') && w in s.cpus[0].queue
    requires Distinct(others) && w !in others && forall x :: x in s.threads && x != w ==> x in others
    ensures Parked(s', others) + (if step.HandOff? then 1 else 0)
            <= Parked(s, others) + (if step.Dispatch? && !step.killed then 1 else 0)
  {
    StepBlocks(s, step);
    StepBusy(s, step);
    assert QueueOk(s.threads, s.cpus[0].queue, 0);
    if step.Block? {
      OneBlocks(s, step, s', others);
    } else {
      NoneBlocks(s, step, s', others);
    }
  }

  lemma RunHandsOff(ss: seq<State>, steps: seq<Step>, n: nat, next: nat, w: Tid, others: seq<Tid>)
    requires IsRun(ss, steps) && |ss[0].cpus| == 1 && n < |steps| && next == n + 1
    requires |ss[n].cpus| == 1 && w in ss[n].cpus[0].queue
    requires Distinct(others) && w !in others && forall x :: x in ss[n].threads && x != w ==> x in others
    ensures Parked(ss[next], others) + (if steps[n].HandOff? then 1 else 0)
            <= Parked(ss[n], others) + (if steps[n].Dispatch? && !steps[n].killed then 1 else 0)
  {
    NextInRun(ss, steps, n, next);
    StepHandsOff(ss[n], steps[n], ss[next], w, others);
  }

  lemma {:induction false} HandOffsBounded(ss: seq<State>, steps: seq<Step>, w: Tid, a: nat, b: nat, others: seq<Tid>)
    requires IsRun(ss, steps) && |ss[0].cpus| == 1 && Waits(ss, w, a, b) && Among(ss, w, a, b, others)
    ensures HandOffs(steps, a, b) + Parked(ss[b], others) <= Parked(ss[a], others) + Dispatched(steps, a, b)
    decreases b
  {
    if a < b {
      var c := b - 1;
      AmongFor(ss, w, a, b, c, others);
      HandOffsBounded(ss, steps, w, a, c, others);
      RunHandsOff(ss, steps, c, b, w, others);
    }
  }

  /** All the ways in which others get the CPU while `w` waits: dispatches and hand-offs together. */
  lemma TurnsBounded(ss: seq<State>, steps: seq<Step>, w: Tid, a: nat, b: nat, others: seq<Tid>)
    requires IsRun(ss, steps) && |ss[0].cpus| == 1 && Waits(ss, w, a, b) && Among(ss, w, a, b, others)
    ensures w in ss[a].threads
    ensures
      var gap := Gap(ss[a].threads[w].deadline, ss[a].cpus[0].minVruntime);
      var bound := |others| * (1 + gap) + Uncharged(ss, steps, a, b);
      Dispatched(steps, a, b) + HandOffs(steps, a, b) <= 2 * bound + |others| + 1
  {
    BoundedBypass(ss, steps, w, a, b, others);
    HandOffsBounded(ss, steps, w, a, b, others);
    BlockedBound(ss[a], others);
  }

  // ----- without a tick there is no bound

  function Busy(n: nat, run: Run): Thr {
    Thr(run, 0, BASE_WEIGHT, UserClass, {0}, 0, 5, 0, n, 0, 0)
  }

  const WAITER := Thr(Ready, 0, 1, UserClass, {0}, 0, 5120, 0, 2, 0, 0)

  /** Thread 1 is queued ahead of the light-weight thread 2. */
  function BothQueued(n: nat): State {
    State([Cpu([1, 2], None, 0, n)], map[1 := Busy(n, Ready), 2 := WAITER])
  }

  function OneRuns(n: nat): State {
    State([Cpu([2], Some(1), 0, n)], map[1 := Busy(n, Running), 2 := WAITER])
  }

  lemma BothQueuedInv(n: nat)
    ensures Inv(BothQueued(n)) && Enabled(BothQueued(n), Dispatch(0, false, 0))
  {
    var s := BothQueued(n);
    assert KeysOf(s.threads, [1, 2]) == [Key(5, 0, n, 1), Key(5120, 0, 2, 2)];
    assert 0 in s.threads[1].mask && 0 in s.threads[2].mask;
  }

  lemma BothQueuedOk(n: nat)
    ensures Inv(BothQueued(n)) && Enabled(BothQueued(n), Dispatch(0, false, 0))
    ensures Apply(BothQueued(n), Dispatch(0, false, 0)) == OneRuns(n)
  {
    BothQueuedInv(n);
    assert RemoveAt([1, 2], 0) == [2];
    assert Apply(BothQueued(n), Dispatch(0, false, 0)).threads == OneRuns(n).threads;
  }

  lemma OneRunsInv(n: nat)
    ensures Inv(OneRuns(n)) && Enabled(OneRuns(n), Yield(0, 0, 0))
  {
    var s := OneRuns(n);
    assert KeysOf(s.threads, [2]) == [Key(5120, 0, 2, 2)];
    assert 0 in s.threads[1].mask && 0 in s.threads[2].mask;
  }

  lemma OneRunsOk(n: nat)
    ensures Inv(OneRuns(n)) && Enabled(OneRuns(n), Yield(0, 0, 0))
    ensures Apply(OneRuns(n), Yield(0, 0, 0)) == BothQueued(n + 1)
  {
    OneRunsInv(n);
    var s := OneRuns(n);
    var stopped := Stop(Account(s, 0, 0, true), 0);
    assert stopped.cpus[0].queue == [2] && stopped.cpus[0].minVruntime == 0;
    var th := Prepared(stopped.cpus[0], 0, stopped.threads[1], false, 0);
    assert th == Busy(n + 1, Ready);
    assert KeysOf(stopped.threads, [2]) == [Key(5120, 0, 2, 2)];
    assert InsertAt([2], 0, 1) == [1, 2];
    assert Apply(s, Yield(0, 0, 0)).threads == BothQueued(n + 1).threads;
  }

  // The run that leads there from start-up, all of it at tick zero.

  const STARTUP := State([Cpu([], None, 0, 0)], map[])

  function TwoAlone(run: Run, weight: nat, deadline: nat, seqNo: nat): State {
    State([Cpu(if run.Ready? then [2] else [], if run.Running? then Some(2) else None, 0, seqNo)],
          map[2 := Thr(run, 0, weight, UserClass, {0}, 0, deadline, 0, seqNo, 0, 0)])
  }

  lemma TwoAloneInv(run: Run, weight: nat, deadline: nat, seqNo: nat)
    ensures Inv(TwoAlone(run, weight, deadline, seqNo))
  {
    var s := TwoAlone(run, weight, deadline, seqNo);
    assert run.Ready? ==> [2][0] == 2;
    assert 0 in s.threads[2].mask;
    assert Sorted(KeysOf(s.threads, s.cpus[0].queue));
  }

  const FIRST_STEPS := [Create(2, 0, UserClass, {0}, 0, 0), SetPolicy(2, 1, UserClass, {0}), Dispatch(0, false, 0),
                        Yield(0, 0, 0), Create(1, 0, UserClass, {0}, 0, 0)]

  const FIRST_STATES := [STARTUP, TwoAlone(Ready, BASE_WEIGHT, 5, 1), TwoAlone(Ready, 1, 5, 1),
                         TwoAlone(Running, 1, 5, 1), TwoAlone(Ready, 1, 5120, 2), BothQueued(3)]

  lemma CreateTwo()
    ensures Follows(STARTUP, FIRST_STEPS[0], TwoAlone(Ready, BASE_WEIGHT, 5, 1))
  {
    var added := SetThr(STARTUP, 2, FreshThr(0, UserClass, {0}));
    assert 0 in {0};
    assert InsertAt([], 0, 2) == [2];
    assert KeysOf(added.threads, []) == [];
    assert Apply(STARTUP, FIRST_STEPS[0]).threads == TwoAlone(Ready, BASE_WEIGHT, 5, 1).threads;
  }

  lemma LightenTwo()
    ensures Follows(TwoAlone(Ready, BASE_WEIGHT, 5, 1), FIRST_STEPS[1], TwoAlone(Ready, 1, 5, 1))
  {
    TwoAloneInv(Ready, BASE_WEIGHT, 5, 1);
    assert 0 in {0};
    assert Apply(TwoAlone(Ready, BASE_WEIGHT, 5, 1), FIRST_STEPS[1]).threads == TwoAlone(Ready, 1, 5, 1).threads;
  }

  lemma RunTwo()
    ensures Follows(TwoAlone(Ready, 1, 5, 1), FIRST_STEPS[2], TwoAlone(Running, 1, 5, 1))
  {
    TwoAloneInv(Ready, 1, 5, 1);
    assert RemoveAt([2], 0) == [];
    assert Apply(TwoAlone(Ready, 1, 5, 1), FIRST_STEPS[2]).threads == TwoAlone(Running, 1, 5, 1).threads;
  }

  lemma YieldTwo()
    ensures Follows(TwoAlone(Running, 1, 5, 1), FIRST_STEPS[3], TwoAlone(Ready, 1, 5120, 2))
  {
    var s := TwoAlone(Running, 1, 5, 1);
    TwoAloneInv(Running, 1, 5, 1);
    assert 0 in s.threads[2].mask;
    var stopped := Stop(Account(s, 0, 0, true), 0);
    assert stopped.cpus[0].queue == [] && KeysOf(stopped.threads, []) == [] && InsertAt([], 0, 2) == [2];
    assert Apply(s, FIRST_STEPS[3]).threads == TwoAlone(Ready, 1, 5120, 2).threads;
  }

  lemma CreateOne()
    ensures Follows(TwoAlone(Ready, 1, 5120, 2), FIRST_STEPS[4], BothQueued(3))
  {
    var s := TwoAlone(Ready, 1, 5120, 2);
    TwoAloneInv(Ready, 1, 5120, 2);
    assert 0 in {0};
    var added := SetThr(s, 1, FreshThr(0, UserClass, {0}));
    assert KeysOf(added.threads, [2]) == [Key(5120, 0, 2, 2)] && InsertAt([2], 0, 1) == [1, 2];
    assert Apply(s, FIRST_STEPS[4]).threads == BothQueued(3).threads;
  }

  /** A run from start-up to `last` in which, from position 5 on, thread 2 waits and `k` threads are dispatched. */
  ghost predicate Starving(ss: seq<State>, steps: seq<Step>, last: State, k: nat) {
    && IsRun(ss, steps) && |ss[0].cpus| == 1 && |steps| >= 5 && ss[|steps|] == last
    && Waits(ss, 2, 5, |steps|) && Dispatched(steps, 5, |steps|) == k
  }

  lemma Extend(ss: seq<State>, steps: seq<Step>, s: State, k: nat, step: Step, s': State)
    requires Starving(ss, steps, s, k)
    requires Follows(s, step, s') && |s'.cpus| == 1 && 2 in s'.cpus[0].queue
    ensures Starving(ss + [s'], steps + [step], s', k + if step.Dispatch? && !step.killed then 1 else 0)
  {
    SamePrefix(steps, steps + [step], 5, |steps|);
  }

  lemma {:induction false} SamePrefix(steps: seq<Step>, more: seq<Step>, a: nat, b: nat)
    requires a <= b <= |steps| <= |more| && more[..b] == steps[..b]
    ensures Dispatched(more, a, b) == Dispatched(steps, a, b)
    decreases b
  {
    if a < b {
      assert more[..b - 1] == more[..b][..b - 1] && steps[..b - 1] == steps[..b][..b - 1];
      assert more[b - 1] == more[..b][b - 1] == steps[b - 1];
      SamePrefix(steps, more, a, b - 1);
    }
  }

  /** Five steps make a run. */
  lemma FirstRun(ss: seq<State>, steps: seq<Step>)
    requires |ss| == 6 && |steps| == 5 && Initial(ss[0]) && |ss[0].cpus| == 1
    requires Follows(ss[0], steps[0], ss[1]) && Follows(ss[1], steps[1], ss[2]) && Follows(ss[2], steps[2], ss[3])
    requires Follows(ss[3], steps[3], ss[4]) && Follows(ss[4], steps[4], ss[5])
    requires |ss[5].cpus| == 1 && 2 in ss[5].cpus[0].queue
    ensures Starving(ss, steps, ss[5], 0)
  {
  }

  lemma Round(ss: seq<State>, steps: seq<Step>, k: nat, s: State, t: State, u: State)
    requires Starving(ss, steps, s, k)
    requires Follows(s, Dispatch(0, false, 0), t) && |t.cpus| == 1 && 2 in t.cpus[0].queue
    requires Follows(t, Yield(0, 0, 0), u) && |u.cpus| == 1 && 2 in u.cpus[0].queue
    ensures Starving(ss + [t] + [u], steps + [Dispatch(0, false, 0)] + [Yield(0, 0, 0)], u, k + 1)
  {
    Extend(ss, steps, s, k, Dispatch(0, false, 0), t);
    Extend(ss + [t], steps + [Dispatch(0, false, 0)], t, k + 1, Yield(0, 0, 0), u);
  }

  lemma FirstSteps() returns (ss: seq<State>, steps: seq<Step>)
    ensures Starving(ss, steps, BothQueued(3), 0)
  {
    CreateTwo();
    LightenTwo();
    RunTwo();
    YieldTwo();
    CreateOne();
    assert [1, 2][1] == 2;
    ss, steps := FIRST_STATES, FIRST_STEPS;
    FirstRun(ss, steps);
  }

  /**
  From start-up, as long as the tick counter is zero, a thread that only yields is
  dispatched any number of times ahead of a queued thread: none of its stops is
  charged.
  */
  lemma {:induction false} TickZeroStarves(k: nat) returns (ss: seq<State>, steps: seq<Step>)
    ensures Starving(ss, steps, BothQueued(3 + k), k)
  {
    if k == 0 {
      ss, steps := FirstSteps();
    } else {
      var ss', steps' := TickZeroStarves(k - 1);
      OneRound(2 + k);
      Round(ss', steps', k - 1, BothQueued(2 + k), OneRuns(2 + k), BothQueued(3 + k));
      ss, steps := ss' + [OneRuns(2 + k)] + [BothQueued(3 + k)], steps' + [Dispatch(0, false, 0)] + [Yield(0, 0, 0)];
    }
  }

  lemma OneRound(n: nat)
    ensures Follows(BothQueued(n), Dispatch(0, false, 0), OneRuns(n)) && 2 in OneRuns(n).cpus[0].queue
    ensures Follows(OneRuns(n), Yield(0, 0, 0), BothQueued(n + 1)) && 2 in BothQueued(n + 1).cpus[0].queue
  {
    BothQueuedOk(n);
    OneRunsOk(n);
    assert [2][0] == 2 && [1, 2][1] == 2;
  }
}
