/**
The scheduler of kernel/sched.c over all CPUs: where each thread is, and in
which order threads are queued.  Each scheduler operation is one step; a timer
tick is `Charge` or `Preempt`, whichever the running thread's quantum calls for.

Time (`now`) is a parameter of the steps; 64-bit counters are taken not to wrap.
A thread that has exited and been reaped is no longer in `threads`.  The
per-CPU scheduler thread is `None` in `current`.
*/
module Scheduler {
  import opened RunQueues
  import opened Common

  const BASE_WEIGHT := 1024
  const BASE_SLICE := 5
  const WAKE_BONUS_MAX := 20
  const PULL_MIN_SOURCE := 2

  type Tid = nat

  datatype Run = Ready | Running | Blocked

  datatype Thr = Thr(
    run: Run,
    cpu: nat,
    weight: nat,
    cls: SchedClass,
    mask: set<nat>,
    vruntime: nat,
    deadline: nat,
    eligible: nat,
    seqNo: nat,
    execStart: nat,
    blockedSince: nat)

  datatype Cpu = Cpu(queue: seq<Tid>, current: Option<Tid>, minVruntime: nat, seqNo: nat)

  datatype State = State(cpus: seq<Cpu>, threads: map<Tid, Thr>)

  // ----- virtual time

  /** sched_scale_delta */
  function ScaleDelta(delta: nat, weight: nat): (r: nat)
    ensures delta >= 1 ==> r >= 1
    ensures delta == 0 ==> r == 0
  {
    var w := if weight == 0 then BASE_WEIGHT else weight;
    var num := delta * BASE_WEIGHT + w - 1;
    assert delta >= 1 ==> num >= w;
    num / w
  }

  function Slice(weight: nat): (r: nat)
    ensures r >= 1
  {
    ScaleDelta(BASE_SLICE, weight)
  }

  function Max(a: nat, b: nat): nat {
    if a < b then b else a
  }

  /** sched_refresh_deadline */
  function Refresh(th: Thr): Thr {
    th.(eligible := th.vruntime, deadline := th.vruntime + Slice(th.weight))
  }

  /** The ticks sched_account_runtime charges; `None` when it returns without charging. */
  function ChargedTicks(th: Thr, now: nat, chargeMin: bool): Option<nat> {
    if th.execStart == 0 then None
    else if now <= th.execStart then (if chargeMin then Some(1) else None)
    else Some(now - th.execStart)
  }

  function AccountThread(th: Thr, now: nat, chargeMin: bool): Thr {
    match ChargedTicks(th, now, chargeMin)
    case None => if th.execStart == 0 then th.(execStart := now) else th
    case Some(delta) =>
      Refresh(th.(execStart := now, vruntime := th.vruntime + ScaleDelta(delta, th.weight)))
  }

  function AccountCpu(cpu: Cpu, th: Thr, now: nat, chargeMin: bool): Cpu {
    match ChargedTicks(th, now, chargeMin)
    case None => cpu
    case Some(delta) => cpu.(minVruntime := Max(cpu.minVruntime, th.vruntime + ScaleDelta(delta, th.weight)))
  }

  function SleptTicks(th: Thr, now: nat): nat {
    var slept := if th.blockedSince != 0 && now > th.blockedSince then now - th.blockedSince else 0;
    if slept > WAKE_BONUS_MAX then WAKE_BONUS_MAX else slept
  }

  /** The virtual runtime sched_prepare_enqueue_locked gives a thread. */
  function EntryVruntime(cpu: Cpu, th: Thr, wakeup: bool, now: nat): nat {
    var v := Max(th.vruntime, cpu.minVruntime);
    var w := if th.weight == 0 then BASE_WEIGHT else th.weight;
    if wakeup && SleptTicks(th, now) > 0 then
      var credit := ScaleDelta(SleptTicks(th, now), w);
      if v > cpu.minVruntime + credit then v - credit else cpu.minVruntime
    else v
  }

  /** sched_prepare_enqueue_locked, with the state and CPU set by sched_enqueue_on_reason. */
  function Prepared(cpu: Cpu, c: nat, th: Thr, wakeup: bool, now: nat): Thr {
    Refresh(th.(run := Ready,
                cpu := c,
                weight := if th.weight == 0 then BASE_WEIGHT else th.weight,
                vruntime := EntryVruntime(cpu, th, wakeup, now),
                blockedSince := if wakeup then 0 else th.blockedSince,
                seqNo := cpu.seqNo + 1))
  }

  // ----- queues

  function KeyOf(threads: map<Tid, Thr>, t: Tid): Key
    requires t in threads
  {
    Key(threads[t].deadline, threads[t].eligible, threads[t].seqNo, t)
  }

  function KeysOf(threads: map<Tid, Thr>, q: seq<Tid>): (keys: seq<Key>)
    requires forall i :: 0 <= i < |q| ==> q[i] in threads
    ensures |keys| == |q|
    ensures forall i :: 0 <= i < |q| ==> keys[i] == KeyOf(threads, q[i])
  {
    seq(|q|, i requires 0 <= i < |q| => KeyOf(threads, q[i]))
  }

  /** Make `t` the record `th` and insert it into queue `c` in key order. */
  function Insert(s: State, c: nat, t: Tid, th: Thr): State
    requires c < |s.cpus|
    requires forall i :: 0 <= i < |s.cpus[c].queue| ==> s.cpus[c].queue[i] in s.threads
  {
    var q := s.cpus[c].queue;
    var n := InsertPos(KeysOf(s.threads, q), Key(th.deadline, th.eligible, th.seqNo, t));
    State(s.cpus[c := s.cpus[c].(queue := InsertAt(q, n, t))], s.threads[t := th])
  }

  function SetCurrent(s: State, c: nat, t: Option<Tid>): State
    requires c < |s.cpus|
  {
    s.(cpus := s.cpus[c := s.cpus[c].(current := t)])
  }

  function SetThr(s: State, t: Tid, th: Thr): State {
    s.(threads := s.threads[t := th])
  }

  function Dequeue(s: State, c: nat, n: nat): State
    requires c < |s.cpus| && n < |s.cpus[c].queue|
  {
    s.(cpus := s.cpus[c := s.cpus[c].(queue := RemoveAt(s.cpus[c].queue, n))])
  }

  // ----- the invariant

  ghost predicate QueueOk(threads: map<Tid, Thr>, q: seq<Tid>, c: nat) {
    && (forall i :: 0 <= i < |q| ==> q[i] in threads && threads[q[i]].run.Ready? && threads[q[i]].cpu == c)
    && Sorted(KeysOf(threads, q))
  }

  ghost predicate CurrentOk(threads: map<Tid, Thr>, current: Option<Tid>, c: nat) {
    current.Some? ==>
      current.value in threads && threads[current.value].run.Running? && threads[current.value].cpu == c
  }

  ghost predicate ThrOk(cpus: seq<Cpu>, t: Tid, th: Thr) {
    && th.cpu < |cpus|
    && (th.run.Ready? ==> t in cpus[th.cpu].queue)
    && (th.run.Running? ==> cpus[th.cpu].current == Some(t))
  }

  /** sched_policy_valid_cpu_mask */
  predicate ValidMask(s: State, mask: set<nat>) {
    mask != {} && forall c :: c in mask ==> c < |s.cpus|
  }

  ghost predicate Inv(s: State) {
    && (forall c :: 0 <= c < |s.cpus| ==> QueueOk(s.threads, s.cpus[c].queue, c))
    && (forall c :: 0 <= c < |s.cpus| ==> CurrentOk(s.threads, s.cpus[c].current, c))
    && (forall t :: t in s.threads ==> ThrOk(s.cpus, t, s.threads[t]))
    && (forall t :: t in s.threads ==> ValidMask(s, s.threads[t].mask))
  }

  /** `t` is in no queue and current nowhere. */
  ghost predicate Nowhere(s: State, t: Tid) {
    && (forall c :: 0 <= c < |s.cpus| ==> t !in s.cpus[c].queue)
    && (forall c :: 0 <= c < |s.cpus| ==> s.cpus[c].current != Some(t))
  }

  // ----- what the placement primitives keep

  /** A queue is unaffected by changes to a thread that is not in it. */
  lemma QueueFrame(threads: map<Tid, Thr>, q: seq<Tid>, c: nat, t: Tid, th: Thr)
    requires QueueOk(threads, q, c) && t !in q
    ensures QueueOk(threads[t := th], q, c)
  {
    assert KeysOf(threads[t := th], q) == KeysOf(threads, q);
  }

  lemma InsertMembers(threads: map<Tid, Thr>, q: seq<Tid>, n: nat, t: Tid, th: Thr)
    requires n <= |q| && t !in q
    requires forall i :: 0 <= i < |q| ==> q[i] in threads
    ensures
      var q', threads' := InsertAt(q, n, t), threads[t := th];
      && (forall i :: 0 <= i < |q'| ==> q'[i] == t || (q'[i] in q && q'[i] in threads))
      && (forall i :: 0 <= i < |q'| ==> q'[i] in threads')
      && KeysOf(threads', q') == InsertAt(KeysOf(threads, q), n, Key(th.deadline, th.eligible, th.seqNo, t))
  {
    var q' := InsertAt(q, n, t);
    assert forall i :: 0 <= i < n ==> q'[i] == q[i];
    assert forall i :: n < i < |q'| ==> q'[i] == q[i - 1];
  }

  lemma InsertQueueOk(threads: map<Tid, Thr>, q: seq<Tid>, c: nat, t: Tid, th: Thr)
    requires QueueOk(threads, q, c) && t !in q && th.run.Ready? && th.cpu == c
    ensures QueueOk(threads[t := th],
                    InsertAt(q, InsertPos(KeysOf(threads, q), Key(th.deadline, th.eligible, th.seqNo, t)), t), c)
  {
    var key, keys := Key(th.deadline, th.eligible, th.seqNo, t), KeysOf(threads, q);
    InsertKeepsSorted(keys, key);
    InsertMembers(threads, q, InsertPos(keys, key), t, th);
  }

  lemma RemoveQueueOk(threads: map<Tid, Thr>, q: seq<Tid>, c: nat, n: nat)
    requires QueueOk(threads, q, c) && n < |q|
    ensures QueueOk(threads, RemoveAt(q, n), c)
    ensures q[n] !in RemoveAt(q, n)
    ensures forall t :: t in q && t != q[n] ==> t in RemoveAt(q, n)
  {
    var keys, q' := KeysOf(threads, q), RemoveAt(q, n);
    assert forall i :: 0 <= i < n ==> q'[i] == q[i];
    assert forall i :: n <= i < |q'| ==> q'[i] == q[i + 1];
    RemoveKeepsSorted(keys, n);
    assert KeysOf(threads, q') == RemoveAt(keys, n);
    forall t | t in q && t != q[n]
      ensures t in q'
    {
      var k :| 0 <= k < |q| && q[k] == t;
      assert q'[if k < n then k else k - 1] == t;
    }
    QueuedOnce(threads, q, c);
  }

  lemma QueuedOnce(threads: map<Tid, Thr>, q: seq<Tid>, c: nat)
    requires QueueOk(threads, q, c)
    ensures forall i, j :: 0 <= i < j < |q| ==> q[i] != q[j]
  {
    var keys := KeysOf(threads, q);
    forall i, j | 0 <= i < j < |q|
      ensures q[i] != q[j]
    {
      assert After(keys[j], keys[i]);
    }
  }

  lemma InsertHas(q: seq<Tid>, n: nat, t: Tid)
    requires n <= |q|
    ensures forall x :: x in InsertAt(q, n, t) <==> x in q || x == t
  {
    var q' := InsertAt(q, n, t);
    forall x | x in q
      ensures x in q'
    {
      var k :| 0 <= k < |q| && q[k] == x;
      assert q'[if k < n then k else k + 1] == x;
    }
    assert q'[n] == t;
  }

  /** Putting a thread that is nowhere into a queue. */
  lemma InsertKeeps(s: State, c: nat, t: Tid, th: Thr)
    requires Inv(s) && c < |s.cpus| && Nowhere(s, t)
    requires th.run.Ready? && th.cpu == c && ValidMask(s, th.mask)
    ensures Inv(Insert(s, c, t, th))
  {
    var q := s.cpus[c].queue;
    var s' := Insert(s, c, t, th);
    InsertQueueOk(s.threads, q, c, t, th);
    InsertHas(q, InsertPos(KeysOf(s.threads, q), Key(th.deadline, th.eligible, th.seqNo, t)), t);
    forall d | 0 <= d < |s.cpus| && d != c
      ensures QueueOk(s'.threads, s'.cpus[d].queue, d)
    {
      QueueFrame(s.threads, s.cpus[d].queue, d, t, th);
    }
  }

  /** Changing the record of a thread that is nowhere, to any state that needs no place. */
  lemma SetThrKeeps(s: State, t: Tid, th: Thr)
    requires Inv(s) && Nowhere(s, t) && th.run.Blocked? && th.cpu < |s.cpus| && ValidMask(s, th.mask)
    ensures Inv(SetThr(s, t, th)) && Nowhere(SetThr(s, t, th), t)
  {
    forall d | 0 <= d < |s.cpus|
      ensures QueueOk(SetThr(s, t, th).threads, s.cpus[d].queue, d)
    {
      QueueFrame(s.threads, s.cpus[d].queue, d, t, th);
    }
  }

  /** Taking a thread off a queue and making it blocked leaves it nowhere. */
  lemma DequeueKeeps(s: State, c: nat, n: nat, th: Thr)
    requires Inv(s) && c < |s.cpus| && n < |s.cpus[c].queue|
    requires th.run.Blocked? && th.cpu < |s.cpus| && ValidMask(s, th.mask)
    ensures
      var t := s.cpus[c].queue[n];
      var s' := SetThr(Dequeue(s, c, n), t, th);
      Inv(s') && Nowhere(s', t)
  {
    var q := s.cpus[c].queue;
    var t := q[n];
    var s' := SetThr(Dequeue(s, c, n), t, th);
    RemoveQueueOk(s.threads, q, c, n);
    QueueFrame(s.threads, RemoveAt(q, n), c, t, th);
    forall d | 0 <= d < |s.cpus| && d != c
      ensures t !in s.cpus[d].queue && QueueOk(s'.threads, s'.cpus[d].queue, d)
    {
      assert s.threads[t].cpu == c;
      QueueFrame(s.threads, s.cpus[d].queue, d, t, th);
    }
  }

  /** Taking the running thread off its CPU and making it blocked leaves it nowhere. */
  lemma StopKeeps(s: State, c: nat, th: Thr)
    requires Inv(s) && c < |s.cpus| && s.cpus[c].current.Some?
    requires th.run.Blocked? && th.cpu < |s.cpus| && ValidMask(s, th.mask)
    ensures
      var t := s.cpus[c].current.value;
      var s' := SetThr(SetCurrent(s, c, None), t, th);
      Inv(s') && Nowhere(s', t)
  {
    var t := s.cpus[c].current.value;
    var s' := SetThr(SetCurrent(s, c, None), t, th);
    forall d | 0 <= d < |s.cpus|
      ensures t !in s.cpus[d].queue && QueueOk(s'.threads, s'.cpus[d].queue, d)
    {
      assert s.threads[t].run.Running?;
      QueueFrame(s.threads, s.cpus[d].queue, d, t, th);
    }
  }

  /** Starting a thread that is nowhere on a CPU that runs nothing. */
  lemma StartKeeps(s: State, c: nat, t: Tid, th: Thr)
    requires Inv(s) && Nowhere(s, t) && c < |s.cpus| && s.cpus[c].current.None?
    requires th.run.Running? && th.cpu == c && ValidMask(s, th.mask)
    ensures Inv(SetCurrent(SetThr(s, t, th), c, Some(t)))
  {
    var s' := SetCurrent(SetThr(s, t, th), c, Some(t));
    forall d | 0 <= d < |s.cpus|
      ensures QueueOk(s'.threads, s'.cpus[d].queue, d)
    {
      QueueFrame(s.threads, s.cpus[d].queue, d, t, th);
    }
  }

  /** Forgetting a thread that is nowhere. */
  lemma ForgetKeeps(s: State, t: Tid)
    requires Inv(s) && Nowhere(s, t)
    ensures Inv(s.(threads := s.threads - {t}))
  {
    var s' := s.(threads := s.threads - {t});
    forall d | 0 <= d < |s.cpus|
      ensures QueueOk(s'.threads, s'.cpus[d].queue, d)
    {
      assert KeysOf(s'.threads, s.cpus[d].queue) == KeysOf(s.threads, s.cpus[d].queue);
    }
  }

  // ----- operations

  /** sched_account_runtime on the running thread of `c`. */
  function Account(s: State, c: nat, now: nat, chargeMin: bool): State
    requires c < |s.cpus| && s.cpus[c].current.Some? && s.cpus[c].current.value in s.threads
  {
    var t := s.cpus[c].current.value;
    State(s.cpus[c := AccountCpu(s.cpus[c], s.threads[t], now, chargeMin)],
          s.threads[t := AccountThread(s.threads[t], now, chargeMin)])
  }

  /** The running thread of `c` leaves its CPU. */
  function Stop(s: State, c: nat): State
    requires c < |s.cpus| && s.cpus[c].current.Some? && s.cpus[c].current.value in s.threads
  {
    var t := s.cpus[c].current.value;
    SetThr(SetCurrent(s, c, None), t, s.threads[t].(run := Blocked))
  }

  function NextSeq(s: State, c: nat): State
    requires c < |s.cpus|
  {
    s.(cpus := s.cpus[c := s.cpus[c].(seqNo := s.cpus[c].seqNo + 1)])
  }

  /** The locked part of sched_enqueue_on_reason. */
  function EnqueueOn(s: State, c: nat, t: Tid, wakeup: bool, now: nat): State
    requires c < |s.cpus| && t in s.threads
    requires forall i :: 0 <= i < |s.cpus[c].queue| ==> s.cpus[c].queue[i] in s.threads
  {
    Insert(NextSeq(s, c), c, t, Prepared(s.cpus[c], c, s.threads[t], wakeup, now))
  }

  /** Run a thread that is in no queue: sched_note_switch and `cpu->current = next`. */
  function Start(s: State, c: nat, t: Tid, now: nat): State
    requires c < |s.cpus| && t in s.threads
  {
    SetCurrent(SetThr(s, t, s.threads[t].(run := Running, cpu := c, execStart := now)), c, Some(t))
  }

  /** runq_pop and runq_remove: the thread leaves its queue. */
  function Leave(s: State, c: nat, n: nat): State
    requires c < |s.cpus| && n < |s.cpus[c].queue| && s.cpus[c].queue[n] in s.threads
  {
    var t := s.cpus[c].queue[n];
    SetThr(Dequeue(s, c, n), t, s.threads[t].(run := Blocked))
  }

  function RaiseMin(s: State, c: nat, v: nat): State
    requires c < |s.cpus|
  {
    s.(cpus := s.cpus[c := s.cpus[c].(minVruntime := Max(s.cpus[c].minVruntime, v))])
  }

  function Forget(s: State, t: Tid): State {
    s.(threads := s.threads - {t})
  }

  predicate Pullable(th: Thr, c: nat) {
    (th.cls.UserClass? || th.cls.BatchClass?) && c in th.mask
  }

  /** The clamp sched_idle_pull applies for the CPU that takes the thread. */
  function Pulled(cpu: Cpu, th: Thr): Thr {
    if th.vruntime < cpu.minVruntime then Refresh(th.(vruntime := cpu.minVruntime)) else th
  }

  function Load(s: State, c: nat): nat
    requires c < |s.cpus|
  {
    |s.cpus[c].queue| + if s.cpus[c].current.Some? then 1 else 0
  }

  /** sched_select_auto_cpu_mask picks a least loaded CPU of the mask. */
  ghost predicate LeastLoaded(s: State, mask: set<nat>, best: nat) {
    && best in mask && best < |s.cpus|
    && forall c :: c in mask && c < |s.cpus| ==> Load(s, best) <= Load(s, c)
  }

  /** Where sched_enqueue_on_reason puts a thread that was to go to CPU `c`. */
  ghost predicate Placed(s: State, c: nat, mask: set<nat>, target: nat) {
    if mask != {} && c !in mask then LeastLoaded(s, mask, target) else target == c
  }

  predicate CanSupply(s: State, c: nat, src: nat) {
    && src < |s.cpus| && src != c
    && |s.cpus[src].queue| >= PULL_MIN_SOURCE
    && exists i :: 0 <= i < |s.cpus[src].queue| && s.cpus[src].queue[i] in s.threads
                   && Pullable(s.threads[s.cpus[src].queue[i]], c)
  }

  /** The CPU sched_idle_pull takes from: the first of the longest queues that can supply a thread. */
  ghost predicate BestSource(s: State, c: nat, src: nat) {
    && CanSupply(s, c, src)
    && forall d: nat :: CanSupply(s, c, d) ==>
         |s.cpus[d].queue| <= |s.cpus[src].queue| && (d < src ==> |s.cpus[d].queue| < |s.cpus[src].queue|)
  }

  datatype Step =
    | Create(t: Tid, c: nat, cls: SchedClass, mask: set<nat>, target: nat, now: nat)
    | Dispatch(c: nat, killed: bool, now: nat)
    | IdlePull(c: nat, src: nat, n: nat, killed: bool, now: nat)
    | Yield(c: nat, target: nat, now: nat)
    | Charge(c: nat, now: nat)
    | Preempt(c: nat, target: nat, now: nat)
    | Block(c: nat, now: nat)
    | Wake(t: Tid, target: nat, now: nat)
    | HandOff(c: nat, t: Tid, target: nat, now: nat)
    | Exit(c: nat, now: nat)
    | CancelReady(c: nat, n: nat)
    | SetPolicy(t: Tid, weight: nat, cls: SchedClass, mask: set<nat>)

  ghost predicate Occupied(s: State, c: nat) {
    c < |s.cpus| && s.cpus[c].current.Some? && s.cpus[c].current.value in s.threads
  }

  ghost predicate Vacant(s: State, c: nat) {
    c < |s.cpus| && s.cpus[c].current.None?
  }

  ghost predicate Enabled(s: State, step: Step) {
    match step
    case Create(t, c, _, mask, target, _) =>
      t !in s.threads && c < |s.cpus| && ValidMask(s, mask) && Placed(s, c, mask, target)
    case Dispatch(c, _, _) => Vacant(s, c) && s.cpus[c].queue != []
    case IdlePull(c, src, n, _, _) =>
      && Vacant(s, c) && s.cpus[c].queue == [] && BestSource(s, c, src)
      && n < |s.cpus[src].queue| && s.cpus[src].queue[n] in s.threads
      && Pullable(s.threads[s.cpus[src].queue[n]], c)
      && forall i :: 0 <= i < n ==>
           s.cpus[src].queue[i] in s.threads && !Pullable(s.threads[s.cpus[src].queue[i]], c)
    case Yield(c, target, _) => Occupied(s, c) && Placed(s, c, s.threads[s.cpus[c].current.value].mask, target)
    case Charge(c, _) => Occupied(s, c) && s.cpus[c].queue != []
    case Preempt(c, target, _) =>
      && Occupied(s, c) && s.cpus[c].queue != []
      && Placed(s, c, s.threads[s.cpus[c].current.value].mask, target)
    case Block(c, _) => Occupied(s, c)
    case Wake(t, target, _) =>
      t in s.threads && s.threads[t].run.Blocked? && Placed(s, s.threads[t].cpu, s.threads[t].mask, target)
    case HandOff(c, t, target, _) =>
      && Occupied(s, c) && t in s.threads && s.threads[t].run.Blocked? && s.threads[t].cpu == c
      && Placed(s, c, s.threads[s.cpus[c].current.value].mask, target)
    case Exit(c, _) => Occupied(s, c)
    case CancelReady(c, n) => c < |s.cpus| && n < |s.cpus[c].queue|
    case SetPolicy(t, weight, _, mask) => t in s.threads && weight >= 1 && ValidMask(s, mask)
  }

  function FreshThr(c: nat, cls: SchedClass, mask: set<nat>): Thr {
    Thr(Blocked, c, BASE_WEIGHT, cls, mask, 0, 0, 0, 0, 0, 0)
  }

  // What the steps do; the running thread of `c` and thread `n` of a queue are meant by position.

  ghost function Created(s: State, t: Tid, cls: SchedClass, mask: set<nat>, target: nat, now: nat): State
    requires Inv(s) && target < |s.cpus|
  {
    EnqueueOn(SetThr(s, t, FreshThr(target, cls, mask)), target, t, false, now)
  }

  ghost function DispatchedOn(s: State, c: nat, killed: bool, now: nat): State
    requires Inv(s) && c < |s.cpus| && s.cpus[c].queue != []
  {
    var t := s.cpus[c].queue[0];
    var popped := RaiseMin(Leave(s, c, 0), c, s.threads[t].vruntime);
    if killed then Forget(popped, t) else Start(popped, c, t, now)
  }

  ghost function PulledTo(s: State, c: nat, src: nat, n: nat, killed: bool, now: nat): State
    requires Inv(s) && c < |s.cpus| && src < |s.cpus| && n < |s.cpus[src].queue|
  {
    var t := s.cpus[src].queue[n];
    var left := Leave(s, src, n);
    if killed then Forget(left, t)
    else Start(SetThr(left, t, Pulled(s.cpus[c], left.threads[t]).(cpu := c)), c, t, now)
  }

  ghost function Stopped(s: State, c: nat, chargeMin: bool, now: nat): (s': State)
    requires Inv(s) && Occupied(s, c)
    ensures |s'.cpus| == |s.cpus| && s'.threads.Keys == s.threads.Keys
    ensures forall d :: 0 <= d < |s.cpus| ==> s'.cpus[d].queue == s.cpus[d].queue
  {
    Stop(Account(s, c, now, chargeMin), c)
  }

  ghost function Requeued(s: State, c: nat, target: nat, chargeMin: bool, now: nat): State
    requires Inv(s) && Occupied(s, c) && target < |s.cpus|
  {
    assert QueueOk(s.threads, s.cpus[target].queue, target);
    EnqueueOn(Stopped(s, c, chargeMin, now), target, s.cpus[c].current.value, false, now)
  }

  ghost function BlockedOn(s: State, c: nat, now: nat): State
    requires Inv(s) && Occupied(s, c)
  {
    var t := s.cpus[c].current.value;
    var stopped := Stopped(s, c, true, now);
    SetThr(stopped, t, stopped.threads[t].(blockedSince := now))
  }

  ghost function HandedOff(s: State, c: nat, t: Tid, target: nat, now: nat): State
    requires Inv(s) && Occupied(s, c) && t in s.threads && target < |s.cpus|
  {
    var queued := Requeued(s, c, target, true, now);
    Start(SetThr(queued, t, queued.threads[t].(blockedSince := 0)), c, t, now)
  }

  ghost function Apply(s: State, step: Step): State
    requires Inv(s) && Enabled(s, step)
  {
    match step
    case Create(t, c, cls, mask, target, now) => Created(s, t, cls, mask, target, now)
    case Dispatch(c, killed, now) => DispatchedOn(s, c, killed, now)
    case IdlePull(c, src, n, killed, now) => PulledTo(s, c, src, n, killed, now)
    case Yield(c, target, now) => Requeued(s, c, target, true, now)
    case Charge(c, now) => Account(s, c, now, false)
    case Preempt(c, target, now) => Requeued(s, c, target, false, now)
    case Block(c, now) => BlockedOn(s, c, now)
    case Wake(t, target, now) => EnqueueOn(s, target, t, true, now)
    case HandOff(c, t, target, now) => HandedOff(s, c, t, target, now)
    case Exit(c, now) => Forget(Stopped(s, c, true, now), s.cpus[c].current.value)
    case CancelReady(c, n) => Forget(Leave(s, c, n), s.cpus[c].queue[n])
    case SetPolicy(t, weight, cls, mask) => SetThr(s, t, s.threads[t].(weight := weight, cls := cls, mask := mask))
  }

  // ----- every operation keeps the invariant

  lemma BlockedIsNowhere(s: State, t: Tid)
    requires Inv(s) && (t !in s.threads || s.threads[t].run.Blocked?)
    ensures Nowhere(s, t)
  {
    forall c | 0 <= c < |s.cpus|
      ensures t !in s.cpus[c].queue
    {
      assert QueueOk(s.threads, s.cpus[c].queue, c);
    }
  }

  lemma CountersKeep(s: State, s': State)
    requires Inv(s) && s'.threads == s.threads && |s'.cpus| == |s.cpus|
    requires forall c :: 0 <= c < |s.cpus| ==>
               s'.cpus[c].queue == s.cpus[c].queue && s'.cpus[c].current == s.cpus[c].current
    ensures Inv(s')
  {
  }

  lemma AccountKeeps(s: State, c: nat, now: nat, chargeMin: bool)
    requires Inv(s) && Occupied(s, c)
    ensures
      var s' := Account(s, c, now, chargeMin);
      && Inv(s') && Occupied(s', c) && s'.cpus[c].current == s.cpus[c].current
      && s'.threads[s.cpus[c].current.value].mask == s.threads[s.cpus[c].current.value].mask
  {
    var t := s.cpus[c].current.value;
    var th := AccountThread(s.threads[t], now, chargeMin);
    var s' := SetThr(s, t, th);
    assert CurrentOk(s.threads, s.cpus[c].current, c);
    forall d | 0 <= d < |s.cpus|
      ensures QueueOk(s'.threads, s'.cpus[d].queue, d)
    {
      assert QueueOk(s.threads, s.cpus[d].queue, d);
      QueueFrame(s.threads, s.cpus[d].queue, d, t, th);
    }
    CountersKeep(s', Account(s, c, now, chargeMin));
  }

  lemma StopCurrentKeeps(s: State, c: nat)
    requires Inv(s) && Occupied(s, c)
    ensures Inv(Stop(s, c)) && Nowhere(Stop(s, c), s.cpus[c].current.value)
  {
    assert CurrentOk(s.threads, s.cpus[c].current, c);
    StopKeeps(s, c, s.threads[s.cpus[c].current.value].(run := Blocked));
  }

  lemma EnqueueKeeps(s: State, c: nat, t: Tid, wakeup: bool, now: nat)
    requires Inv(s) && c < |s.cpus| && t in s.threads && Nowhere(s, t)
    ensures forall i :: 0 <= i < |s.cpus[c].queue| ==> s.cpus[c].queue[i] in s.threads
    ensures Inv(EnqueueOn(s, c, t, wakeup, now))
  {
    assert QueueOk(s.threads, s.cpus[c].queue, c);
    CountersKeep(s, NextSeq(s, c));
    InsertKeeps(NextSeq(s, c), c, t, Prepared(s.cpus[c], c, s.threads[t], wakeup, now));
  }

  lemma LeaveKeeps(s: State, c: nat, n: nat)
    requires Inv(s) && c < |s.cpus| && n < |s.cpus[c].queue|
    ensures s.cpus[c].queue[n] in s.threads
    ensures Inv(Leave(s, c, n)) && Nowhere(Leave(s, c, n), s.cpus[c].queue[n])
  {
    assert QueueOk(s.threads, s.cpus[c].queue, c);
    DequeueKeeps(s, c, n, s.threads[s.cpus[c].queue[n]].(run := Blocked));
  }

  lemma RequeueKeeps(s: State, c: nat, target: nat, chargeMin: bool, now: nat)
    requires Inv(s) && Occupied(s, c) && target < |s.cpus|
    ensures
      var t, stopped := s.cpus[c].current.value, Stopped(s, c, chargeMin, now);
      Inv(stopped) && Nowhere(stopped, t) && Vacant(stopped, c) && Inv(Requeued(s, c, target, chargeMin, now))
  {
    AccountKeeps(s, c, now, chargeMin);
    StopCurrentKeeps(Account(s, c, now, chargeMin), c);
    EnqueueKeeps(Stopped(s, c, chargeMin, now), target, s.cpus[c].current.value, false, now);
  }

  lemma DispatchKeeps(s: State, c: nat, killed: bool, now: nat)
    requires Inv(s) && Enabled(s, Dispatch(c, killed, now))
    ensures Inv(DispatchedOn(s, c, killed, now))
  {
    LeaveKeeps(s, c, 0);
    var t := s.cpus[c].queue[0];
    var left := Leave(s, c, 0);
    var popped := RaiseMin(left, c, s.threads[t].vruntime);
    CountersKeep(left, popped);
    if killed {
      ForgetKeeps(popped, t);
    } else {
      StartKeeps(popped, c, t, popped.threads[t].(run := Running, cpu := c, execStart := now));
    }
  }

  lemma IdlePullKeeps(s: State, c: nat, src: nat, n: nat, killed: bool, now: nat)
    requires Inv(s) && Enabled(s, IdlePull(c, src, n, killed, now))
    ensures Inv(PulledTo(s, c, src, n, killed, now))
  {
    LeaveKeeps(s, src, n);
    var t := s.cpus[src].queue[n];
    var left := Leave(s, src, n);
    if killed {
      ForgetKeeps(left, t);
    } else {
      var th := Pulled(s.cpus[c], left.threads[t]).(cpu := c);
      SetThrKeeps(left, t, th);
      StartKeeps(SetThr(left, t, th), c, t, th.(run := Running, cpu := c, execStart := now));
    }
  }

  lemma HandOffKeeps(s: State, c: nat, t: Tid, target: nat, now: nat)
    requires Inv(s) && Enabled(s, HandOff(c, t, target, now)) && target < |s.cpus|
    ensures Inv(HandedOff(s, c, t, target, now))
  {
    assert CurrentOk(s.threads, s.cpus[c].current, c);
    RequeueKeeps(s, c, target, true, now);
    var queued := Requeued(s, c, target, true, now);
    BlockedIsNowhere(queued, t);
    SetThrKeeps(queued, t, queued.threads[t].(blockedSince := 0));
    StartKeeps(SetThr(queued, t, queued.threads[t].(blockedSince := 0)), c, t,
               queued.threads[t].(blockedSince := 0, run := Running, cpu := c, execStart := now));
  }

  lemma PlacedInRange(s: State, c: nat, mask: set<nat>, target: nat)
    requires c < |s.cpus| && Placed(s, c, mask, target)
    ensures target < |s.cpus|
    ensures mask != {} ==> target in mask
  {
  }

  lemma SetPolicyKeeps(s: State, t: Tid, th: Thr)
    requires Inv(s) && t in s.threads && ValidMask(s, th.mask)
    requires th == s.threads[t].(weight := th.weight, cls := th.cls, mask := th.mask)
    ensures Inv(SetThr(s, t, th))
  {
    var s' := SetThr(s, t, th);
    forall d | 0 <= d < |s.cpus|
      ensures QueueOk(s'.threads, s'.cpus[d].queue, d)
    {
      assert QueueOk(s.threads, s.cpus[d].queue, d);
      assert KeysOf(s'.threads, s.cpus[d].queue) == KeysOf(s.threads, s.cpus[d].queue);
    }
  }

  lemma CreateKeeps(s: State, t: Tid, cls: SchedClass, mask: set<nat>, target: nat, now: nat)
    requires Inv(s) && t !in s.threads && target < |s.cpus| && ValidMask(s, mask)
    ensures Inv(Created(s, t, cls, mask, target, now))
  {
    BlockedIsNowhere(s, t);
    SetThrKeeps(s, t, FreshThr(target, cls, mask));
    EnqueueKeeps(SetThr(s, t, FreshThr(target, cls, mask)), target, t, false, now);
  }

  lemma BlockKeeps(s: State, c: nat, now: nat)
    requires Inv(s) && Occupied(s, c)
    ensures Inv(BlockedOn(s, c, now))
    ensures Inv(Forget(Stopped(s, c, true, now), s.cpus[c].current.value))
  {
    RequeueKeeps(s, c, c, true, now);
    var t, stopped := s.cpus[c].current.value, Stopped(s, c, true, now);
    SetThrKeeps(stopped, t, stopped.threads[t].(blockedSince := now));
    ForgetKeeps(stopped, t);
  }

  /** Where a step puts a thread, it is a CPU. */
  lemma TargetInRange(s: State, step: Step)
    requires Inv(s) && Enabled(s, step)
    ensures step.Create? || step.Yield? || step.Preempt? || step.Wake? || step.HandOff? ==> step.target < |s.cpus|
  {
  }

  /** Every scheduler operation keeps every thread in its one place and every queue sorted. */
  lemma StepKeepsInv(s: State, step: Step)
    requires Inv(s) && Enabled(s, step)
    ensures Inv(Apply(s, step))
  {
    TargetInRange(s, step);
    match step
    case Create(t, c, cls, mask, target, now) => CreateKeeps(s, t, cls, mask, target, now);
    case Dispatch(c, killed, now) => DispatchKeeps(s, c, killed, now);
    case IdlePull(c, src, n, killed, now) => IdlePullKeeps(s, c, src, n, killed, now);
    case Yield(c, target, now) => RequeueKeeps(s, c, target, true, now);
    case Charge(c, now) => AccountKeeps(s, c, now, false);
    case Preempt(c, target, now) => RequeueKeeps(s, c, target, false, now);
    case Block(c, now) => BlockKeeps(s, c, now);
    case Wake(t, target, now) =>
      BlockedIsNowhere(s, t);
      EnqueueKeeps(s, target, t, true, now);
    case HandOff(c, t, target, now) => HandOffKeeps(s, c, t, target, now);
    case Exit(c, now) => BlockKeeps(s, c, now);
    case CancelReady(c, n) =>
      LeaveKeeps(s, c, n);
      ForgetKeeps(Leave(s, c, n), s.cpus[c].queue[n]);
    case SetPolicy(t, weight, cls, mask) =>
      SetPolicyKeeps(s, t, s.threads[t].(weight := weight, cls := cls, mask := mask));
  }

  // ----- whole runs

  ghost predicate Initial(s: State) {
    && s.threads == map[]
    && forall c :: 0 <= c < |s.cpus| ==> s.cpus[c].queue == [] && s.cpus[c].current.None?
  }

  /** `s'` is what the enabled step `step` makes of `s`. */
  ghost predicate Follows(s: State, step: Step, s': State) {
    Inv(s) ==> Enabled(s, step) && s' == Apply(s, step)
  }

  ghost predicate IsRun(ss: seq<State>, steps: seq<Step>) {
    && |ss| == |steps| + 1
    && Initial(ss[0])
    && forall i :: 0 <= i < |steps| ==> Follows(ss[i], steps[i], ss[i + 1])
  }

  lemma {:induction false} RunInv(ss: seq<State>, steps: seq<Step>, n: nat)
    requires IsRun(ss, steps) && n < |ss|
    ensures Inv(ss[n])
  {
    if n > 0 {
      RunInv(ss, steps, n - 1);
      assert Follows(ss[n - 1], steps[n - 1], ss[n - 1 + 1]);
      StepKeepsInv(ss[n - 1], steps[n - 1]);
    }
  }

  ghost predicate InQueueAt(s: State, t: Tid, c: int, i: int) {
    0 <= c < |s.cpus| && 0 <= i < |s.cpus[c].queue| && s.cpus[c].queue[i] == t
  }

  ghost predicate CurrentAt(s: State, t: Tid, c: int) {
    0 <= c < |s.cpus| && s.cpus[c].current == Some(t)
  }

  /**
  In every state of every run: a ready thread is in exactly one queue, once, and
  that queue is its CPU's; a running thread is current on exactly its CPU and in
  no queue; any other thread is in neither; and all queues are strictly sorted.
  */
  lemma RunOnePlace(ss: seq<State>, steps: seq<Step>, n: nat, t: Tid)
    requires IsRun(ss, steps) && n < |ss| && t in ss[n].threads
    ensures ss[n].threads[t].run.Ready? <==> exists c, i :: InQueueAt(ss[n], t, c, i)
    ensures forall c, i, d, j :: InQueueAt(ss[n], t, c, i) && InQueueAt(ss[n], t, d, j) ==>
                                   c == d == ss[n].threads[t].cpu && i == j
    ensures ss[n].threads[t].run.Running? <==> CurrentAt(ss[n], t, ss[n].threads[t].cpu)
    ensures forall c :: CurrentAt(ss[n], t, c) ==> c == ss[n].threads[t].cpu && ss[n].threads[t].run.Running?
    ensures forall c :: 0 <= c < |ss[n].cpus| ==> QueueOk(ss[n].threads, ss[n].cpus[c].queue, c)
  {
    RunInv(ss, steps, n);
    var s := ss[n];
    forall c, i | InQueueAt(s, t, c, i)
      ensures s.threads[t].run.Ready? && c == s.threads[t].cpu
    {
      assert QueueOk(s.threads, s.cpus[c].queue, c);
    }
    if s.threads[t].run.Ready? {
      var i :| 0 <= i < |s.cpus[s.threads[t].cpu].queue| && s.cpus[s.threads[t].cpu].queue[i] == t;
      assert InQueueAt(s, t, s.threads[t].cpu, i);
    }
    forall c, i, d, j | InQueueAt(s, t, c, i) && InQueueAt(s, t, d, j)
      ensures i == j
    {
      QueuedOnce(s.threads, s.cpus[c].queue, c);
    }
    forall c | CurrentAt(s, t, c)
      ensures c == s.threads[t].cpu && s.threads[t].run.Running?
    {
      assert CurrentOk(s.threads, s.cpus[c].current, c);
    }
  }

  /** An enqueue adds one thread to one queue. */
  lemma EnqueueAdds(s: State, c: nat, t: Tid, wakeup: bool, now: nat)
    requires c < |s.cpus| && t in s.threads
    requires forall i :: 0 <= i < |s.cpus[c].queue| ==> s.cpus[c].queue[i] in s.threads
    ensures
      var s' := EnqueueOn(s, c, t, wakeup, now);
      && |s'.cpus| == |s.cpus| && t in s'.threads && s'.threads[t].mask == s.threads[t].mask
      && forall d, x :: 0 <= d < |s.cpus| && x in s'.cpus[d].queue && x !in s.cpus[d].queue ==> d == c && x == t
  {
    var th := Prepared(s.cpus[c], c, s.threads[t], wakeup, now);
    InsertHas(s.cpus[c].queue,
              InsertPos(KeysOf(s.threads, s.cpus[c].queue), Key(th.deadline, th.eligible, th.seqNo, t)), t);
  }

  lemma RequeueAdds(s: State, c: nat, target: nat, chargeMin: bool, now: nat)
    requires Inv(s) && Occupied(s, c) && target < |s.cpus|
    ensures
      var t, s' := s.cpus[c].current.value, Requeued(s, c, target, chargeMin, now);
      && |s'.cpus| == |s.cpus| && t in s'.threads && s'.threads[t].mask == s.threads[t].mask
      && forall d, x :: 0 <= d < |s.cpus| && x in s'.cpus[d].queue && x !in s.cpus[d].queue ==> d == target && x == t
  {
    EnqueueAdds(Stopped(s, c, chargeMin, now), target, s.cpus[c].current.value, false, now);
  }

  lemma RemoveHas(q: seq<Tid>, n: nat)
    requires n < |q|
    ensures forall x :: x in RemoveAt(q, n) ==> x in q
  {
  }

  /** `t` enters queue `c`, or is pulled to CPU `c`, in this step. */
  ghost predicate Arrives(s: State, step: Step, s': State, t: Tid, c: nat) {
    && c < |s.cpus| && c < |s'.cpus|
    && (|| (t !in s.cpus[c].queue && t in s'.cpus[c].queue)
        || (step.IdlePull? && s'.cpus[c].current == Some(t) && s.cpus[c].current != Some(t)))
  }

  ghost predicate Allowed(s: State, t: Tid, c: nat) {
    t in s.threads && c in s.threads[t].mask
  }

  lemma CreateLands(s: State, u: Tid, d: nat, cls: SchedClass, mask: set<nat>, target: nat, now: nat, t: Tid, c: nat)
    requires Inv(s) && Enabled(s, Create(u, d, cls, mask, target, now)) && target < |s.cpus|
    requires c < |s.cpus| && t !in s.cpus[c].queue && t in Created(s, u, cls, mask, target, now).cpus[c].queue
    ensures Allowed(Created(s, u, cls, mask, target, now), t, c)
  {
    PlacedInRange(s, d, mask, target);
    EnqueueAdds(SetThr(s, u, FreshThr(target, cls, mask)), target, u, false, now);
  }

  lemma RequeueLands(s: State, d: nat, target: nat, chargeMin: bool, now: nat, t: Tid, c: nat)
    requires Inv(s) && Occupied(s, d) && target < |s.cpus|
    requires Placed(s, d, s.threads[s.cpus[d].current.value].mask, target)
    requires c < |s.cpus| && t !in s.cpus[c].queue && t in Requeued(s, d, target, chargeMin, now).cpus[c].queue
    ensures Allowed(Requeued(s, d, target, chargeMin, now), t, c)
  {
    PlacedInRange(s, d, s.threads[s.cpus[d].current.value].mask, target);
    RequeueAdds(s, d, target, chargeMin, now);
  }

  lemma HandOffLands(s: State, d: nat, u: Tid, target: nat, now: nat, t: Tid, c: nat)
    requires Inv(s) && Enabled(s, HandOff(d, u, target, now)) && target < |s.cpus|
    requires c < |s.cpus| && t !in s.cpus[c].queue && t in HandedOff(s, d, u, target, now).cpus[c].queue
    ensures Allowed(HandedOff(s, d, u, target, now), t, c)
  {
    RequeueLands(s, d, target, true, now, t, c);
  }

  lemma IdlePullLands(s: State, d: nat, src: nat, n: nat, killed: bool, now: nat, t: Tid, c: nat)
    requires Inv(s) && Enabled(s, IdlePull(d, src, n, killed, now))
    requires Arrives(s, IdlePull(d, src, n, killed, now), PulledTo(s, d, src, n, killed, now), t, c)
    ensures Allowed(PulledTo(s, d, src, n, killed, now), t, c)
  {
    RemoveHas(s.cpus[src].queue, n);
  }

  lemma WakeLands(s: State, u: Tid, target: nat, now: nat, t: Tid, c: nat)
    requires Inv(s) && Enabled(s, Wake(u, target, now)) && target < |s.cpus|
    requires c < |s.cpus| && t !in s.cpus[c].queue && t in EnqueueOn(s, target, u, true, now).cpus[c].queue
    ensures Allowed(EnqueueOn(s, target, u, true, now), t, c)
  {
    PlacedInRange(s, s.threads[u].cpu, s.threads[u].mask, target);
    EnqueueAdds(s, target, u, true, now);
  }

  lemma StoppedLands(s: State, step: Step, t: Tid, c: nat)
    requires Inv(s) && Enabled(s, step) && (step.Yield? || step.Preempt? || step.HandOff?) && step.target < |s.cpus|
    requires Arrives(s, step, Apply(s, step), t, c)
    ensures Allowed(Apply(s, step), t, c)
  {
    match step
    case Yield(d, target, now) => RequeueLands(s, d, target, true, now, t, c);
    case Preempt(d, target, now) => RequeueLands(s, d, target, false, now, t, c);
    case HandOff(d, u, target, now) => HandOffLands(s, d, u, target, now, t, c);
  }

  /** Every enqueue and every pull puts a thread on a CPU its affinity mask allows. */
  lemma LandsInMask(s: State, step: Step, t: Tid, c: nat)
    requires Inv(s) && Enabled(s, step) && Arrives(s, step, Apply(s, step), t, c)
    ensures Allowed(Apply(s, step), t, c)
  {
    TargetInRange(s, step);
    match step
    case Create(u, d, cls, mask, target, now) => CreateLands(s, u, d, cls, mask, target, now, t, c);
    case IdlePull(d, src, n, killed, now) => IdlePullLands(s, d, src, n, killed, now, t, c);
    case Yield(_, _, _) => StoppedLands(s, step, t, c);
    case Preempt(_, _, _) => StoppedLands(s, step, t, c);
    case Wake(u, target, now) => WakeLands(s, u, target, now, t, c);
    case HandOff(_, _, _, _) => StoppedLands(s, step, t, c);
    case _ => NothingLands(s, step, t, c);
  }

  /** The other steps put no thread anywhere. */
  lemma NothingLands(s: State, step: Step, t: Tid, c: nat)
    requires Inv(s) && Enabled(s, step) && c < |s.cpus|
    requires step.Dispatch? || step.Charge? || step.Block? || step.Exit? || step.CancelReady? || step.SetPolicy?
    ensures !Arrives(s, step, Apply(s, step), t, c)
  {
    match step
    case Dispatch(d, _, _) => RemoveHas(s.cpus[d].queue, 0);
    case CancelReady(d, n) => RemoveHas(s.cpus[d].queue, n);
    case _ =>
  }

  // ----- when a thread stays on CPUs its mask allows

  /** Every thread is assigned to a CPU of its mask. */
  ghost predicate Homed(s: State) {
    forall t :: HomedAt(s, t)
  }

  ghost predicate HomedAt(s: State, t: Tid) {
    t in s.threads ==> s.threads[t].cpu in s.threads[t].mask
  }

  /** Thread `t` may be replaced by one that is assigned to a CPU of its mask; the others stay where they are. */
  ghost predicate Rehomed(s: State, s': State, t: Tid) {
    && (t in s'.threads ==> s'.threads[t].cpu in s'.threads[t].mask)
    && forall x :: SameHome(s, s', t, x)
  }

  ghost predicate SameHome(s: State, s': State, t: Tid, x: Tid) {
    x != t && x in s'.threads ==>
      x in s.threads && s'.threads[x].cpu == s.threads[x].cpu && s'.threads[x].mask == s.threads[x].mask
  }

  lemma RehomedKeeps(s: State, s': State, t: Tid)
    requires Homed(s) && Rehomed(s, s', t)
    ensures Homed(s')
  {
    forall x
      ensures HomedAt(s', x)
    {
      assert HomedAt(s, x) && SameHome(s, s', t, x);
    }
  }

  lemma RequeueRehomes(s: State, c: nat, target: nat, chargeMin: bool, now: nat)
    requires Inv(s) && Occupied(s, c) && target < |s.cpus|
    requires Placed(s, c, s.threads[s.cpus[c].current.value].mask, target)
    ensures Rehomed(s, Requeued(s, c, target, chargeMin, now), s.cpus[c].current.value)
  {
    var t, s' := s.cpus[c].current.value, Requeued(s, c, target, chargeMin, now);
    PlacedInRange(s, c, s.threads[t].mask, target);
    assert ValidMask(s, s.threads[t].mask);
    assert s'.threads[t].cpu == target && s'.threads[t].mask == s.threads[t].mask;
  }

  lemma HandOffHomes(s: State, c: nat, t: Tid, target: nat, now: nat)
    requires Inv(s) && Homed(s) && Enabled(s, HandOff(c, t, target, now)) && target < |s.cpus|
    ensures Homed(HandedOff(s, c, t, target, now))
  {
    var queued, s' := Requeued(s, c, target, true, now), HandedOff(s, c, t, target, now);
    RequeueRehomes(s, c, target, true, now);
    RehomedKeeps(s, queued, s.cpus[c].current.value);
    assert HomedAt(queued, t) && SameHome(s, queued, s.cpus[c].current.value, t);
    assert CurrentOk(s.threads, s.cpus[c].current, c);
    RehomedKeeps(queued, s', t);
  }

  lemma DispatchHomes(s: State, c: nat, killed: bool, now: nat)
    requires Inv(s) && Homed(s) && Enabled(s, Dispatch(c, killed, now))
    ensures Homed(DispatchedOn(s, c, killed, now))
  {
    var t := s.cpus[c].queue[0];
    assert QueueOk(s.threads, s.cpus[c].queue, c) && HomedAt(s, t);
    RehomedKeeps(s, DispatchedOn(s, c, killed, now), t);
  }

  lemma PullHomes(s: State, c: nat, src: nat, n: nat, killed: bool, now: nat)
    requires Inv(s) && Homed(s) && Enabled(s, IdlePull(c, src, n, killed, now))
    ensures Homed(PulledTo(s, c, src, n, killed, now))
  {
    RehomedKeeps(s, PulledTo(s, c, src, n, killed, now), s.cpus[src].queue[n]);
  }

  lemma WakeHomes(s: State, t: Tid, target: nat, now: nat)
    requires Inv(s) && Homed(s) && Enabled(s, Wake(t, target, now)) && target < |s.cpus|
    ensures Homed(EnqueueOn(s, target, t, true, now))
  {
    PlacedInRange(s, s.threads[t].cpu, s.threads[t].mask, target);
    assert ValidMask(s, s.threads[t].mask);
    RehomedKeeps(s, EnqueueOn(s, target, t, true, now), t);
  }

  lemma CreateHomes(s: State, t: Tid, c: nat, cls: SchedClass, mask: set<nat>, target: nat, now: nat)
    requires Inv(s) && Homed(s) && Enabled(s, Create(t, c, cls, mask, target, now)) && target < |s.cpus|
    ensures Homed(Created(s, t, cls, mask, target, now))
  {
    PlacedInRange(s, c, mask, target);
    RehomedKeeps(s, Created(s, t, cls, mask, target, now), t);
  }

  /** The thread whose place, if any, a step that only stops, charges or removes changes. */
  lemma QuietHomes(s: State, step: Step)
    requires Inv(s) && Homed(s) && Enabled(s, step)
    requires step.Charge? || step.Block? || step.Exit? || step.CancelReady?
    ensures Homed(Apply(s, step))
  {
    var t := if step.CancelReady? then s.cpus[step.c].queue[step.n] else s.cpus[step.c].current.value;
    assert HomedAt(s, t);
    RehomedKeeps(s, Apply(s, step), t);
  }

  /** A change of policy leaves the thread where it is. */
  ghost predicate KeepsHome(s: State, step: Step) {
    step.SetPolicy? && step.t in s.threads ==> s.threads[step.t].cpu in step.mask
  }

  lemma PolicyHomes(s: State, t: Tid, weight: nat, cls: SchedClass, mask: set<nat>)
    requires Inv(s) && Homed(s) && Enabled(s, SetPolicy(t, weight, cls, mask))
    ensures Homed(Apply(s, SetPolicy(t, weight, cls, mask))) <==> s.threads[t].cpu in mask
  {
    var s' := Apply(s, SetPolicy(t, weight, cls, mask));
    if s.threads[t].cpu in mask {
      RehomedKeeps(s, s', t);
    } else {
      assert !HomedAt(s', t);
    }
  }

  lemma StoppedHomes(s: State, step: Step)
    requires Inv(s) && Homed(s) && Enabled(s, step) && (step.Yield? || step.Preempt? || step.HandOff?)
    requires step.target < |s.cpus|
    ensures Homed(Apply(s, step))
  {
    match step
    case Yield(c, target, now) =>
      RequeueRehomes(s, c, target, true, now);
      RehomedKeeps(s, Requeued(s, c, target, true, now), s.cpus[c].current.value);
    case Preempt(c, target, now) =>
      RequeueRehomes(s, c, target, false, now);
      RehomedKeeps(s, Requeued(s, c, target, false, now), s.cpus[c].current.value);
    case HandOff(c, t, target, now) => HandOffHomes(s, c, t, target, now);
  }

  /**
  Threads stay on CPUs of their masks exactly as long as no change of policy takes
  the CPU a thread is assigned to out of its mask: that thread is not moved.
  */
  lemma StaysHomedIff(s: State, step: Step)
    requires Inv(s) && Homed(s) && Enabled(s, step)
    ensures Homed(Apply(s, step)) <==> KeepsHome(s, step)
  {
    TargetInRange(s, step);
    match step
    case Create(t, c, cls, mask, target, now) => CreateHomes(s, t, c, cls, mask, target, now);
    case Dispatch(c, killed, now) => DispatchHomes(s, c, killed, now);
    case IdlePull(c, src, n, killed, now) => PullHomes(s, c, src, n, killed, now);
    case Yield(_, _, _) => StoppedHomes(s, step);
    case Preempt(_, _, _) => StoppedHomes(s, step);
    case Wake(t, target, now) => WakeHomes(s, t, target, now);
    case HandOff(_, _, _, _) => StoppedHomes(s, step);
    case SetPolicy(t, weight, cls, mask) => PolicyHomes(s, t, weight, cls, mask);
    case _ => QuietHomes(s, step);
  }

  /** In such a run every thread that runs or waits to run does so on a CPU of its mask. */
  lemma {:induction false} RunInMask(ss: seq<State>, steps: seq<Step>, n: nat, t: Tid, c: nat)
    requires IsRun(ss, steps) && n < |ss| && forall i :: 0 <= i < n ==> KeepsHome(ss[i], steps[i])
    ensures Homed(ss[n])
    ensures c < |ss[n].cpus| && (t in ss[n].cpus[c].queue || ss[n].cpus[c].current == Some(t)) ==> Allowed(ss[n], t, c)
  {
    RunInv(ss, steps, n);
    if n > 0 {
      RunInMask(ss, steps, n - 1, t, c);
      RunInv(ss, steps, n - 1);
      assert Follows(ss[n - 1], steps[n - 1], ss[n - 1 + 1]);
      StaysHomedIff(ss[n - 1], steps[n - 1]);
    }
    assert HomedAt(ss[n], t);
    if c < |ss[n].cpus| {
      assert QueueOk(ss[n].threads, ss[n].cpus[c].queue, c) && CurrentOk(ss[n].threads, ss[n].cpus[c].current, c);
    }
  }

  /** A thread that waits alone on CPU 0 is dispatched there after its mask was changed to CPU 1 alone. */
  lemma DispatchedOutsideMask(s: State, t: Tid) returns (changed: State, started: State)
    requires Inv(s) && |s.cpus| == 2 && s.cpus[0].queue == [t] && s.cpus[0].current.None?
    ensures Follows(s, SetPolicy(t, 1024, UserClass, {1}), changed) && Inv(changed)
    ensures Follows(changed, Dispatch(0, false, 2), started)
    ensures |started.cpus| == 2 && started.cpus[0].current == Some(t)
    ensures t in started.threads && started.threads[t].mask == {1}
  {
    assert QueueOk(s.threads, s.cpus[0].queue, 0) && s.cpus[0].queue[0] == t;
    var policy := SetPolicy(t, 1024, UserClass, {1});
    StepKeepsInv(s, policy);
    changed := Apply(s, policy);
    started := Apply(changed, Dispatch(0, false, 2));
  }

  lemma CreatedAlone(s: State, t: Tid) returns (made: State)
    requires Initial(s) && |s.cpus| == 2
    ensures Follows(s, Create(t, 0, UserClass, {0, 1}, 0, 1), made) && Inv(made)
    ensures |made.cpus| == 2 && made.cpus[0].queue == [t] && made.cpus[0].current.None?
  {
    var create := Create(t, 0, UserClass, {0, 1}, 0, 1);
    assert 0 in {0, 1};
    StepKeepsInv(s, create);
    made := Apply(s, create);
  }

  /** A run in which a thread is made on CPU 0, its mask is changed to CPU 1 alone, and it runs on CPU 0. */
  lemma RunsOutsideMask(t: Tid) returns (ss: seq<State>, steps: seq<Step>)
    ensures IsRun(ss, steps) && |ss| == 4 && |ss[3].cpus| == 2
    ensures ss[3].cpus[0].current == Some(t) && t in ss[3].threads && ss[3].threads[t].mask == {1}
  {
    var start := State([Cpu([], None, 0, 0), Cpu([], None, 0, 0)], map[]);
    var made := CreatedAlone(start, t);
    var changed, started := DispatchedOutsideMask(made, t);
    steps := [Create(t, 0, UserClass, {0, 1}, 0, 1), SetPolicy(t, 1024, UserClass, {1}), Dispatch(0, false, 2)];
    ss := [start, made, changed, started];
    ThreeSteps(ss, steps);
  }

  lemma ThreeSteps(ss: seq<State>, steps: seq<Step>)
    requires |ss| == 4 && |steps| == 3 && Initial(ss[0])
    requires Follows(ss[0], steps[0], ss[1]) && Follows(ss[1], steps[1], ss[2]) && Follows(ss[2], steps[2], ss[3])
    ensures IsRun(ss, steps)
  {
  }

  /** Idle pull leaves its source with at least one queued thread. */
  lemma PullNeverEmpties(s: State, c: nat, src: nat, n: nat, killed: bool, now: nat)
    requires Inv(s) && Enabled(s, IdlePull(c, src, n, killed, now))
    ensures Apply(s, IdlePull(c, src, n, killed, now)).cpus[src].queue != []
    ensures |s.cpus[src].queue| == |Apply(s, IdlePull(c, src, n, killed, now)).cpus[src].queue| + 1
  {
  }

  // ----- the placement loops

  /** sched_online_cpu_mask */
  function OnlineMask(n: nat): (mask: set<nat>)
    ensures forall c: nat :: c in mask <==> c < n
  {
    if n == 0 then {} else OnlineMask(n - 1) + {n - 1}
  }

  /** The `k`-th CPU of a scan that starts at `start` and wraps around. */
  function Rotated(start: nat, k: nat, n: nat): (c: nat)
    requires start < n && k < n
    ensures c == if start + k < n then start + k else start + k - n
  {
    (start + k) % n
  }

  function Succ(c: nat, n: nat): (d: nat)
    requires c < n
    ensures d == if c == n - 1 then 0 else c + 1
  {
    (c + 1) % n
  }

  /** sched_policy_mask_first_cpu */
  method FirstCpu(s: State, mask: set<nat>) returns (first: nat)
    ensures (exists c :: c in mask && c < |s.cpus|) ==>
              first in mask && first < |s.cpus| && forall c: nat :: c < first ==> c !in mask
    ensures !(exists c :: c in mask && c < |s.cpus|) ==> first == 0
  {
    for c := 0 to |s.cpus|
      invariant forall d: nat :: d < c ==> d !in mask
    {
      if c in mask {
        return c;
      }
    }
    return 0;
  }

  /**
  The CPU that a scan from `next` prefers to `first`: none if `first` has the least
  load, and otherwise the first of the least loaded ones on the way.
  */
  ghost predicate Preferred(s: State, allowed: set<nat>, next: nat, first: nat, scanned: nat, best: nat)
    requires next < |s.cpus| && scanned <= |s.cpus| && first < |s.cpus| && best < |s.cpus|
  {
    && (forall k :: 0 <= k < scanned && Rotated(next, k, |s.cpus|) in allowed ==>
          Load(s, best) <= Load(s, Rotated(next, k, |s.cpus|)))
    && (best == first || (Load(s, best) < Load(s, first) && exists k :: FoundAt(s, allowed, next, scanned, k, best)))
  }

  ghost predicate FoundAt(s: State, allowed: set<nat>, next: nat, scanned: nat, k: int, best: nat)
    requires next < |s.cpus| && scanned <= |s.cpus| && best < |s.cpus|
  {
    && 0 <= k < scanned && best == Rotated(next, k, |s.cpus|)
    && forall j :: 0 <= j < k && Rotated(next, j, |s.cpus|) in allowed ==>
                     Load(s, best) < Load(s, Rotated(next, j, |s.cpus|))
  }

  lemma PreferredNext(s: State, allowed: set<nat>, next: nat, first: nat, scanned: nat, best: nat, c: nat)
    requires next < |s.cpus| && scanned < |s.cpus| && first < |s.cpus| && best < |s.cpus|
    requires c == Rotated(next, scanned, |s.cpus|) && Preferred(s, allowed, next, first, scanned, best)
    ensures Preferred(s, allowed, next, first, scanned + 1,
                      if c in allowed && Load(s, c) < Load(s, best) then c else best)
  {
    if c in allowed && Load(s, c) < Load(s, best) {
      assert FoundAt(s, allowed, next, scanned + 1, scanned, c);
    } else if best != first {
      var k :| FoundAt(s, allowed, next, scanned, k, best);
      assert FoundAt(s, allowed, next, scanned + 1, k, best);
    }
  }

  lemma AllScanned(s: State, allowed: set<nat>, next: nat, first: nat, best: nat)
    requires next < |s.cpus| && first < |s.cpus| && best < |s.cpus| && best in allowed
    requires Preferred(s, allowed, next, first, |s.cpus|, best)
    ensures LeastLoaded(s, allowed, best)
  {
    var n := |s.cpus|;
    forall c | c in allowed && c < n
      ensures Load(s, best) <= Load(s, c)
    {
      assert c == Rotated(next, if c >= next then c - next else c + n - next, n);
    }
  }

  /** sched_select_auto_cpu_mask: scan all CPUs starting from `next`, keeping the least loaded one. */
  method SelectAuto(s: State, mask: set<nat>, next: nat) returns (best: nat, next': nat, ghost first: nat)
    requires next < |s.cpus|
    ensures best < |s.cpus| && next' == Succ(best, |s.cpus|)
    ensures
      var allowed := if ValidMask(s, mask) then mask else OnlineMask(|s.cpus|);
      && LeastLoaded(s, allowed, best)
      && first in allowed && first < |s.cpus| && (forall c: nat :: c < first ==> c !in allowed)
      && Preferred(s, allowed, next, first, |s.cpus|, best)
  {
    var allowed := if ValidMask(s, mask) then mask else OnlineMask(|s.cpus|);
    assert 0 in OnlineMask(|s.cpus|);
    assert exists c :: c in allowed && c < |s.cpus|;
    best := FirstCpu(s, allowed);
    first := best;
    var bestLoad := Load(s, best);
    var n := |s.cpus|;
    for scanned := 0 to n
      invariant best in allowed && best < n && bestLoad == Load(s, best)
      invariant Preferred(s, allowed, next, first, scanned, best)
    {
      var c := Rotated(next, scanned, n);
      PreferredNext(s, allowed, next, first, scanned, best, c);
      if c in allowed && Load(s, c) < bestLoad {
        best, bestLoad := c, Load(s, c);
      }
    }
    AllScanned(s, allowed, next, first, best);
    next' := Succ(best, n);
  }

  /** The first half of sched_idle_pull. */
  method PickSource(s: State, c: nat) returns (best: Option<nat>)
    ensures best.Some? ==> BestSource(s, c, best.value)
    ensures best.None? ==> forall d: nat :: !CanSupply(s, c, d)
  {
    best := None;
    var bestLoad := 0;
    for d := 0 to |s.cpus|
      invariant best.None? ==> bestLoad == 0 && forall e: nat :: e < d ==> !CanSupply(s, c, e)
      invariant best.Some? ==>
                  && best.value < d && CanSupply(s, c, best.value) && bestLoad == |s.cpus[best.value].queue|
                  && forall e: nat :: e < d && CanSupply(s, c, e) ==>
                       |s.cpus[e].queue| <= bestLoad && (e < best.value ==> |s.cpus[e].queue| < bestLoad)
    {
      if CanSupply(s, c, d) && |s.cpus[d].queue| > bestLoad {
        best, bestLoad := Some(d), |s.cpus[d].queue|;
      }
    }
  }
}
