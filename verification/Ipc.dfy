/**
Message ports (kernel/ipc.c).

Every section that runs under `ipc_lock` is one atomic step; between two
sections of a send or a receive any other thread may take steps.  A send has
two sections (try to hand the message to a waiting receiver; otherwise, after
allocating, enqueue it) followed by a wake-up outside the lock.  A receive
scans its ports under the lock, and if all are empty marks itself blocked and
registers one wait record on all of them.

`Thread.run` is the scheduler's view of a thread, `onCpu` says that it is still
executing: a receiver is `Blocked` before it has switched away, and a wake-up
can reach it in between.
*/
module Ipc {
  import opened Common

  type Tid = nat
  type PortId = nat

  const RECV_ANY_MAX := 4

  datatype Message = Message(sender: Tid, wantsReply: bool, body: nat)

  /** `receiver` and `receiver_wait` are always set and cleared together. */
  datatype Port = Port(queue: seq<Message>, receiver: Option<Tid>, index: nat)

  /** The wait record on the receiving thread's stack. */
  datatype Wait = Wait(message: Message, index: nat, delivered: bool)

  datatype Pc =
    | Idle
    | SendMiss(port: PortId, msg: Message)
    | SendWake(target: Tid, mayHandOff: bool)
    | Waiting(ports: seq<PortId>, any: bool)

  datatype Run = Running | Ready | Blocked

  datatype Thread = Thread(pc: Pc, run: Run, onCpu: bool, wait: Wait)

  /** `accepted` and `received` are histories: every message a port took in, and every message read from it. */
  datatype State = State(
    ports: map<PortId, Port>,
    threads: map<Tid, Thread>,
    accepted: map<PortId, seq<Message>>,
    received: map<PortId, seq<Message>>)

  datatype Step =
    | SendFirst(t: Tid, port: PortId, wantsReply: bool, body: nat)
    | SendNoMemory(t: Tid)
    | SendSecond(t: Tid)
    | Wake(t: Tid, handOff: bool)
    | Receive(t: Tid, ports: seq<PortId>, any: bool)
    | TryReceive(t: Tid, port: PortId)
    | SwitchAway(t: Tid)
    | Dispatch(t: Tid)
    | Preempt(t: Tid)
    | Resume(t: Tid)

  predicate Active(s: State, t: Tid) {
    t in s.threads && s.threads[t].run.Running? && s.threads[t].onCpu
  }

  /** The argument checks of ipc_recv and ipc_recv_any. */
  predicate GoodPorts(known: set<PortId>, ports: seq<PortId>, any: bool) {
    && 0 < |ports| <= (if any then RECV_ANY_MAX else 1)
    && (forall i :: 0 <= i < |ports| ==> ports[i] in known)
    && (forall i, j :: 0 <= i < j < |ports| ==> ports[i] != ports[j])
  }

  predicate Enabled(s: State, step: Step) {
    && step.t in s.threads
    && var th := s.threads[step.t];
       match step
       case SendFirst(t, p, _, _) => Active(s, t) && th.pc.Idle? && p in s.ports
       case SendNoMemory(t) => Active(s, t) && th.pc.SendMiss?
       case SendSecond(t) => Active(s, t) && th.pc.SendMiss?
       case Wake(t, handOff) =>
         && Active(s, t) && th.pc.SendWake?
         && (handOff ==> th.pc.mayHandOff && th.pc.target in s.threads && !s.threads[th.pc.target].onCpu)
       case Receive(t, ports, any) => Active(s, t) && th.pc.Idle? && GoodPorts(s.ports.Keys, ports, any)
       case TryReceive(t, p) => Active(s, t) && th.pc.Idle? && p in s.ports
       case SwitchAway(t) => th.onCpu && !th.run.Running?
       case Dispatch(t) => th.run.Ready? && !th.onCpu
       case Preempt(t) => Active(s, t)
       case Resume(t) => Active(s, t) && th.pc.Waiting?
  }

  /** What a thread record must look like, whatever the rest of the state. */
  predicate ThreadOk(known: set<PortId>, tids: set<Tid>, th: Thread) {
    && (th.pc.SendWake? ==> th.pc.target in tids)
    && (th.pc.SendMiss? ==> th.pc.port in known)
    && (th.pc.Waiting? ==> GoodPorts(known, th.pc.ports, th.pc.any))
    && (th.run.Blocked? ==> th.pc.Waiting?)
    && (th.wait.delivered ==> th.pc.Waiting? && th.wait.index < |th.pc.ports|)
  }

  ghost predicate Sound(s: State) {
    && s.accepted.Keys == s.ports.Keys
    && s.received.Keys == s.ports.Keys
    && forall t :: t in s.threads ==> ThreadOk(s.ports.Keys, s.threads.Keys, s.threads[t])
  }

  // ----- the lock sections as state transformers

  function SetThread(s: State, t: Tid, th: Thread): State {
    s.(threads := s.threads[t := th])
  }

  function SetPc(s: State, t: Tid, pc: Pc): State
    requires t in s.threads
  {
    SetThread(s, t, s.threads[t].(pc := pc))
  }

  /** The direct-delivery condition of the first section of a send. */
  predicate CanDeliver(s: State, p: PortId)
    requires p in s.ports
  {
    var port := s.ports[p];
    && port.receiver.Some?
    && port.receiver.value in s.threads
    && !s.threads[port.receiver.value].wait.delivered
    && port.queue == []
  }

  function Deliver(s: State, t: Tid, p: PortId, m: Message): State
    requires Sound(s) && t in s.threads && p in s.ports && CanDeliver(s, p)
  {
    var port := s.ports[p];
    var r := port.receiver.value;
    var filled := s.threads[r := s.threads[r].(wait := Wait(m, port.index, true))];
    SetPc(s.(ports := s.ports[p := port.(receiver := None)],
             threads := filled,
             accepted := s.accepted[p := s.accepted[p] + [m]]),
          t, SendWake(r, !m.wantsReply))
  }

  function Enqueue(s: State, t: Tid, p: PortId, m: Message): State
    requires Sound(s) && t in s.threads && p in s.ports
  {
    var port := s.ports[p];
    SetPc(s.(ports := s.ports[p := port.(queue := port.queue + [m], receiver := None)],
             accepted := s.accepted[p := s.accepted[p] + [m]]),
          t, if port.receiver.Some? then SendWake(port.receiver.value, false) else Idle)
  }

  /** thread_unblock or thread_handoff: no effect on a thread that is not blocked. */
  function WakeUp(s: State, t: Tid, handOff: bool): State
    requires t in s.threads && s.threads[t].pc.SendWake? && s.threads[t].pc.target in s.threads
  {
    var r := s.threads[t].pc.target;
    if !s.threads[r].run.Blocked? then
      SetPc(s, t, Idle)
    else if !handOff then
      SetPc(SetThread(s, r, s.threads[r].(run := Ready)), t, Idle)
    else
      var on := SetThread(s, r, s.threads[r].(run := Running, onCpu := true));
      SetPc(SetThread(on, t, on.threads[t].(run := Ready, onCpu := false)), t, Idle)
  }

  function Take(s: State, p: PortId): State
    requires Sound(s) && p in s.ports && s.ports[p].queue != []
  {
    var port := s.ports[p];
    s.(ports := s.ports[p := port.(queue := port.queue[1..])],
       received := s.received[p := s.received[p] + [port.queue[0]]])
  }

  /** Position of the first port in `ports[i..]` that has a message, or `|ports|`. */
  function FirstReady(s: State, ports: seq<PortId>, i: nat): (k: nat)
    requires i <= |ports| && forall j :: 0 <= j < |ports| ==> ports[j] in s.ports
    ensures i <= k <= |ports|
    ensures forall j :: i <= j < k ==> s.ports[ports[j]].queue == []
    ensures k < |ports| ==> s.ports[ports[k]].queue != []
    decreases |ports| - i
  {
    if i == |ports| || s.ports[ports[i]].queue != [] then i else FirstReady(s, ports, i + 1)
  }

  function IndexOf(ports: seq<PortId>, p: PortId): (k: nat)
    requires p in ports
    ensures k < |ports| && ports[k] == p
  {
    if ports[0] == p then 0 else 1 + IndexOf(ports[1..], p)
  }

  /** thread_prepare_block, then registration of one wait record on every port. */
  function Register(s: State, t: Tid, ports: seq<PortId>, any: bool): State
    requires t in s.threads
  {
    var th := s.threads[t];
    s.(ports := map p | p in s.ports ::
                  if p in ports then s.ports[p].(receiver := Some(t), index := IndexOf(ports, p)) else s.ports[p],
       threads := s.threads[t := th.(pc := Waiting(ports, any), run := Blocked, wait := th.wait.(delivered := false))])
  }

  /** The section that takes the first available message, or registers and blocks. */
  function Scan(s: State, t: Tid, ports: seq<PortId>, any: bool): State
    requires Sound(s) && t in s.threads && GoodPorts(s.ports.Keys, ports, any)
  {
    var k := FirstReady(s, ports, 0);
    if k < |ports| then SetPc(Take(s, ports[k]), t, Idle) else Register(s, t, ports, any)
  }

  function Unregister(s: State, t: Tid, ports: seq<PortId>): State {
    s.(ports := map p | p in s.ports ::
                  if p in ports && s.ports[p].receiver == Some(t) then s.ports[p].(receiver := None) else s.ports[p])
  }

  /** The section a receiver enters when it runs again. */
  function ResumeFrom(s: State, t: Tid): State
    requires Sound(s) && t in s.threads && s.threads[t].pc.Waiting?
  {
    var th := s.threads[t];
    var ports := th.pc.ports;
    var u := if th.pc.any then Unregister(s, t, ports) else s;
    if th.wait.delivered then TakeSlot(u, t) else Scan(u, t, ports, th.pc.any)
  }

  function Apply(s: State, step: Step): State
    requires Sound(s) && Enabled(s, step)
  {
    var th := s.threads[step.t];
    match step
    case SendFirst(t, p, wantsReply, body) =>
      var m := Message(t, wantsReply, body);
      if CanDeliver(s, p) then Deliver(s, t, p, m) else SetPc(s, t, SendMiss(p, m))
    case SendNoMemory(t) => SetPc(s, t, Idle)
    case SendSecond(t) => Enqueue(s, t, th.pc.port, th.pc.msg)
    case Wake(t, handOff) => WakeUp(s, t, handOff)
    case Receive(t, ports, any) => Scan(s, t, ports, any)
    case TryReceive(t, p) => if s.ports[p].queue == [] then s else Take(s, p)
    case SwitchAway(t) => SetThread(s, t, th.(onCpu := false))
    case Dispatch(t) => SetThread(s, t, th.(run := Running, onCpu := true))
    case Preempt(t) => SetThread(s, t, th.(run := Ready, onCpu := false))
    case Resume(t) => ResumeFrom(s, t)
  }

  // ----- what every reachable state satisfies

  ghost predicate Owes(s: State, u: Tid, t: Tid) {
    u in s.threads && s.threads[u].pc.SendWake? && s.threads[u].pc.target == t
  }

  /** All ports a waiting thread asked for are empty and still name it as their receiver. */
  ghost predicate Parked(s: State, t: Tid) {
    && t in s.threads && s.threads[t].pc.Waiting?
    && !s.threads[t].wait.delivered
    && forall i :: 0 <= i < |s.threads[t].pc.ports| ==>
         var p := s.threads[t].pc.ports[i];
         p in s.ports && s.ports[p].queue == [] && s.ports[p].receiver == Some(t)
  }

  /** No lost wake-up: a blocked thread has nothing to receive, or some sender is about to wake it. */
  ghost predicate NoLostWakeup(s: State) {
    forall t :: t in s.threads && s.threads[t].run.Blocked? ==> Parked(s, t) || exists u :: Owes(s, u, t)
  }

  ghost predicate Registrations(s: State) {
    forall p :: p in s.ports && s.ports[p].receiver.Some? ==>
      var t, i := s.ports[p].receiver.value, s.ports[p].index;
      && s.ports[p].queue == []
      && t in s.threads
      && s.threads[t].pc.Waiting?
      && i < |s.threads[t].pc.ports|
      && s.threads[t].pc.ports[i] == p
      && (s.threads[t].wait.delivered ==> s.threads[t].wait.index != i)
  }

  ghost predicate Waiters(owner: map<PortId, Tid>, s: State) {
    forall t :: t in s.threads && s.threads[t].pc.Waiting? ==> Owned(owner, t, s.threads[t].pc.ports)
  }

  predicate Owned(owner: map<PortId, Tid>, t: Tid, ports: seq<PortId>) {
    forall i :: 0 <= i < |ports| ==> ports[i] in owner && owner[ports[i]] == t
  }

  /** The message, if any, that sits in a wait record and came through port `p`. */
  ghost function InSlot(owner: map<PortId, Tid>, s: State, p: PortId): seq<Message> {
    if p in owner && owner[p] in s.threads then
      var th := s.threads[owner[p]];
      if th.wait.delivered && th.pc.Waiting? && th.wait.index < |th.pc.ports| && th.pc.ports[th.wait.index] == p
      then [th.wait.message] else []
    else []
  }

  /** Exactly once, in order: what a port accepted is what was read, then the wait slot, then the queue. */
  ghost predicate Fifo(owner: map<PortId, Tid>, s: State)
    requires Sound(s)
  {
    forall p :: FifoAt(owner, s, p)
  }

  ghost predicate FifoAt(owner: map<PortId, Tid>, s: State, p: PortId)
    requires Sound(s)
  {
    p in s.ports ==> s.accepted[p] == s.received[p] + InSlot(owner, s, p) + s.ports[p].queue
  }

  ghost predicate Structure(owner: map<PortId, Tid>, s: State) {
    Sound(s) && Waiters(owner, s) && Registrations(s)
  }

  ghost predicate Inv(owner: map<PortId, Tid>, s: State) {
    Structure(owner, s) && NoLostWakeup(s) && Fifo(owner, s)
  }

  /** Receives on a port are made by its one receiving thread. */
  predicate OneReceiver(owner: map<PortId, Tid>, step: Step) {
    match step
    case Receive(t, ports, _) => Owned(owner, t, ports)
    case TryReceive(t, p) => Owned(owner, t, [p])
    case _ => true
  }

  ghost predicate Initial(s: State) {
    && Sound(s)
    && (forall p :: p in s.ports ==>
          s.ports[p].queue == [] && s.ports[p].receiver.None? && s.accepted[p] == [] && s.received[p] == [])
    && (forall t :: t in s.threads ==>
          s.threads[t].pc.Idle? && !s.threads[t].run.Blocked? && !s.threads[t].wait.delivered)
  }

  // ----- each section keeps the invariant

  /** Blocked threads stay accounted for when every old reason survives or is replaced by a debt. */
  lemma KeepWakeups(s: State, s': State)
    requires NoLostWakeup(s)
    requires forall t :: t in s'.threads && s'.threads[t].run.Blocked? ==>
               || Parked(s', t)
               || (exists u :: Owes(s', u, t))
               || (t in s.threads && s.threads[t].run.Blocked? && !Parked(s, t))
    requires forall u, t :: Owes(s, u, t) && t in s'.threads && s'.threads[t].run.Blocked? ==> Owes(s', u, t)
    ensures NoLostWakeup(s')
  {
    forall t | t in s'.threads && s'.threads[t].run.Blocked?
      ensures Parked(s', t) || exists u :: Owes(s', u, t)
    {
      if t in s.threads && s.threads[t].run.Blocked? && !Parked(s, t) {
        var u :| Owes(s, u, t);
        assert Owes(s', u, t);
      }
    }
  }

  lemma DeliverStructure(owner: map<PortId, Tid>, s: State, t: Tid, p: PortId, m: Message)
    requires Structure(owner, s) && Active(s, t) && s.threads[t].pc.Idle? && p in s.ports && CanDeliver(s, p)
    ensures Structure(owner, Deliver(s, t, p, m))
  {
  }

  lemma DeliverWakeups(owner: map<PortId, Tid>, s: State, t: Tid, p: PortId, m: Message)
    requires Structure(owner, s) && Active(s, t) && s.threads[t].pc.Idle? && p in s.ports && CanDeliver(s, p)
    requires NoLostWakeup(s)
    ensures NoLostWakeup(Deliver(s, t, p, m))
  {
    var s' := Deliver(s, t, p, m);
    var r := s.ports[p].receiver.value;
    assert Owes(s', t, r);
    forall x | x in s'.threads && s'.threads[x].run.Blocked?
      ensures Parked(s', x) || (exists u :: Owes(s', u, x)) || !Parked(s, x)
    {
      if x != r && Parked(s, x) {
        assert Parked(s', x);
      }
    }
    KeepWakeups(s, s');
  }

  lemma DeliverFifo(owner: map<PortId, Tid>, s: State, t: Tid, p: PortId, m: Message)
    requires Structure(owner, s) && Active(s, t) && s.threads[t].pc.Idle? && p in s.ports && CanDeliver(s, p)
    requires Fifo(owner, s) && Sound(Deliver(s, t, p, m))
    ensures Fifo(owner, Deliver(s, t, p, m))
  {
    var s' := Deliver(s, t, p, m);
    forall q
      ensures FifoAt(owner, s', q)
    {
      assert FifoAt(owner, s, q);
      if q == p {
        assert InSlot(owner, s, p) == [];
        assert InSlot(owner, s', p) == [m];
      } else {
        assert InSlot(owner, s', q) == InSlot(owner, s, q);
      }
    }
  }

  lemma EnqueueStructure(owner: map<PortId, Tid>, s: State, t: Tid)
    requires Structure(owner, s) && Active(s, t) && s.threads[t].pc.SendMiss?
    ensures Structure(owner, Enqueue(s, t, s.threads[t].pc.port, s.threads[t].pc.msg))
  {
  }

  lemma EnqueueWakeups(owner: map<PortId, Tid>, s: State, t: Tid)
    requires Structure(owner, s) && Active(s, t) && s.threads[t].pc.SendMiss? && NoLostWakeup(s)
    ensures NoLostWakeup(Enqueue(s, t, s.threads[t].pc.port, s.threads[t].pc.msg))
  {
    var p := s.threads[t].pc.port;
    var s' := Enqueue(s, t, p, s.threads[t].pc.msg);
    forall x | x in s'.threads && s'.threads[x].run.Blocked?
      ensures Parked(s', x) || (exists u :: Owes(s', u, x)) || !Parked(s, x)
    {
      if Parked(s, x) {
        assert Parked(s', x) || Owes(s', t, x);
      }
    }
    KeepWakeups(s, s');
  }

  lemma EnqueueFifo(owner: map<PortId, Tid>, s: State, t: Tid)
    requires Structure(owner, s) && Active(s, t) && s.threads[t].pc.SendMiss? && Fifo(owner, s)
    requires Sound(Enqueue(s, t, s.threads[t].pc.port, s.threads[t].pc.msg))
    ensures Fifo(owner, Enqueue(s, t, s.threads[t].pc.port, s.threads[t].pc.msg))
  {
    var s' := Enqueue(s, t, s.threads[t].pc.port, s.threads[t].pc.msg);
    forall q
      ensures FifoAt(owner, s', q)
    {
      assert FifoAt(owner, s, q);
      assert InSlot(owner, s', q) == InSlot(owner, s, q);
    }
  }

  /** Steps that only move one thread along, without touching ports, wait records or debts. */
  predicate MovesAlong(s: State, t: Tid, th: Thread) {
    && t in s.threads
    && ThreadOk(s.ports.Keys, s.threads.Keys, th)
    && th.wait == s.threads[t].wait
    && (th.run.Blocked? ==> s.threads[t].run.Blocked?)
    && (th.pc == s.threads[t].pc || (!th.pc.Waiting? && !s.threads[t].pc.Waiting? && !s.threads[t].pc.SendWake?))
  }

  lemma ThreadStepWakeups(s: State, t: Tid, th: Thread)
    requires NoLostWakeup(s) && MovesAlong(s, t, th)
    ensures NoLostWakeup(SetThread(s, t, th))
  {
    var s' := SetThread(s, t, th);
    forall x | x in s'.threads && s'.threads[x].run.Blocked? && Parked(s, x)
      ensures Parked(s', x)
    {
    }
    KeepWakeups(s, s');
  }

  /** Wait slots depend on wait records and on where receivers are, nothing else. */
  lemma SameSlots(owner: map<PortId, Tid>, s: State, s': State, q: PortId)
    requires s'.threads.Keys == s.threads.Keys
    requires forall t :: t in s.threads ==> s'.threads[t].wait.delivered == s.threads[t].wait.delivered
    requires forall t :: t in s.threads && s.threads[t].wait.delivered ==>
               s'.threads[t].wait == s.threads[t].wait && s'.threads[t].pc == s.threads[t].pc
    ensures InSlot(owner, s', q) == InSlot(owner, s, q)
  {
  }

  /** Changing one thread to or from anything but a registered receiver keeps the structure. */
  lemma ThreadStructure(owner: map<PortId, Tid>, s: State, t: Tid, th: Thread)
    requires Structure(owner, s) && t in s.threads && ThreadOk(s.ports.Keys, s.threads.Keys, th)
    requires th.wait == s.threads[t].wait
    requires th.pc == s.threads[t].pc || (!th.pc.Waiting? && Unregistered(s, t))
    ensures Structure(owner, SetThread(s, t, th))
  {
    var s' := SetThread(s, t, th);
    assert s'.threads.Keys == s.threads.Keys;
  }

  lemma ThreadFifo(owner: map<PortId, Tid>, s: State, t: Tid, th: Thread)
    requires Sound(s) && Fifo(owner, s) && t in s.threads && Sound(SetThread(s, t, th))
    requires th.wait == s.threads[t].wait
    requires th.pc == s.threads[t].pc || !th.wait.delivered
    ensures Fifo(owner, SetThread(s, t, th))
  {
    var s' := SetThread(s, t, th);
    forall q
      ensures FifoAt(owner, s', q)
    {
      assert FifoAt(owner, s, q);
      SameSlots(owner, s, s', q);
    }
  }

  lemma ThreadStepKeeps(owner: map<PortId, Tid>, s: State, t: Tid, th: Thread)
    requires Inv(owner, s) && MovesAlong(s, t, th)
    ensures Inv(owner, SetThread(s, t, th))
  {
    NotWaitingUnregistered(owner, s, t);
    ThreadStructure(owner, s, t, th);
    ThreadStepWakeups(s, t, th);
    ThreadFifo(owner, s, t, th);
  }

  ghost predicate Unregistered(s: State, t: Tid) {
    forall p :: p in s.ports ==> s.ports[p].receiver != Some(t)
  }

  lemma NotWaitingUnregistered(owner: map<PortId, Tid>, s: State, t: Tid)
    requires Structure(owner, s) && t in s.threads
    ensures !s.threads[t].pc.Waiting? ==> Unregistered(s, t) && !s.threads[t].wait.delivered
  {
    assert ThreadOk(s.ports.Keys, s.threads.Keys, s.threads[t]);
  }

  /** Leaving a wait, or a paid debt, takes no reason for being blocked from anybody. */
  lemma LeaveWakeups(s: State, t: Tid)
    requires NoLostWakeup(s) && t in s.threads && !s.threads[t].run.Blocked?
    requires s.threads[t].pc.SendWake? ==>
               s.threads[t].pc.target in s.threads && !s.threads[s.threads[t].pc.target].run.Blocked?
    ensures NoLostWakeup(SetPc(s, t, Idle))
  {
    var s' := SetPc(s, t, Idle);
    forall x | x in s'.threads && s'.threads[x].run.Blocked? && Parked(s, x)
      ensures Parked(s', x)
    {
    }
    KeepWakeups(s, s');
  }

  lemma DebtPaid(owner: map<PortId, Tid>, s: State, t: Tid)
    requires Inv(owner, s) && t in s.threads && s.threads[t].pc.SendWake?
    requires s.threads[t].pc.target in s.threads && !s.threads[s.threads[t].pc.target].run.Blocked?
    ensures Inv(owner, SetPc(s, t, Idle))
  {
    var idle := s.threads[t].(pc := Idle);
    assert ThreadOk(s.ports.Keys, s.threads.Keys, s.threads[t]);
    NotWaitingUnregistered(owner, s, t);
    ThreadStructure(owner, s, t, idle);
    LeaveWakeups(s, t);
    ThreadFifo(owner, s, t, idle);
  }

  lemma TakeKeeps(owner: map<PortId, Tid>, s: State, t: Tid, p: PortId)
    requires Inv(owner, s) && Active(s, t) && p in s.ports && s.ports[p].queue != []
    requires Owned(owner, t, [p]) && !s.threads[t].wait.delivered
    ensures Inv(owner, Take(s, p))
  {
    var s' := Take(s, p);
    assert [p][0] == p;
    forall x | x in s'.threads && s'.threads[x].run.Blocked? && Parked(s, x)
      ensures Parked(s', x)
    {
    }
    KeepWakeups(s, s');
    forall q
      ensures FifoAt(owner, s', q)
    {
      assert FifoAt(owner, s, q);
      assert InSlot(owner, s', q) == InSlot(owner, s, q);
      if q == p {
        assert InSlot(owner, s, p) == [];
      }
    }
  }

  lemma UnregisterStructure(owner: map<PortId, Tid>, s: State, t: Tid, ports: seq<PortId>)
    requires Structure(owner, s)
    ensures Structure(owner, Unregister(s, t, ports))
  {
    var s' := Unregister(s, t, ports);
    assert s'.ports.Keys == s.ports.Keys;
  }

  lemma UnregisterWakeups(s: State, t: Tid, ports: seq<PortId>)
    requires NoLostWakeup(s) && Active(s, t)
    ensures NoLostWakeup(Unregister(s, t, ports))
  {
    var s' := Unregister(s, t, ports);
    forall x | x in s'.threads && s'.threads[x].run.Blocked? && Parked(s, x)
      ensures Parked(s', x)
    {
    }
    KeepWakeups(s, s');
  }

  lemma UnregisterFifo(owner: map<PortId, Tid>, s: State, t: Tid, ports: seq<PortId>)
    requires Sound(s) && Fifo(owner, s) && Sound(Unregister(s, t, ports))
    ensures Fifo(owner, Unregister(s, t, ports))
  {
    var s' := Unregister(s, t, ports);
    forall q
      ensures FifoAt(owner, s', q)
    {
      assert FifoAt(owner, s, q);
      SameSlots(owner, s, s', q);
      assert q in s.ports ==> s'.ports[q].queue == s.ports[q].queue;
    }
  }

  lemma UnregisterKeeps(owner: map<PortId, Tid>, s: State, t: Tid, ports: seq<PortId>)
    requires Inv(owner, s) && Active(s, t)
    ensures Inv(owner, Unregister(s, t, ports))
  {
    UnregisterStructure(owner, s, t, ports);
    UnregisterWakeups(s, t, ports);
    UnregisterFifo(owner, s, t, ports);
  }

  /** What holds when a thread has found all its ports empty. */
  ghost predicate MayRegister(owner: map<PortId, Tid>, s: State, t: Tid, ports: seq<PortId>, any: bool) {
    && Active(s, t) && GoodPorts(s.ports.Keys, ports, any) && Owned(owner, t, ports)
    && (s.threads[t].pc.Idle? || s.threads[t].pc == Waiting(ports, any))
    && !s.threads[t].wait.delivered
    && forall i :: 0 <= i < |ports| ==> s.ports[ports[i]].queue == []
  }

  lemma RegisterStructure(owner: map<PortId, Tid>, s: State, t: Tid, ports: seq<PortId>, any: bool)
    requires Structure(owner, s) && MayRegister(owner, s, t, ports, any)
    ensures Structure(owner, Register(s, t, ports, any))
  {
    var s' := Register(s, t, ports, any);
    assert s'.ports.Keys == s.ports.Keys && s'.threads.Keys == s.threads.Keys;
  }

  lemma RegisterWakeups(owner: map<PortId, Tid>, s: State, t: Tid, ports: seq<PortId>, any: bool)
    requires Structure(owner, s) && NoLostWakeup(s) && MayRegister(owner, s, t, ports, any)
    ensures NoLostWakeup(Register(s, t, ports, any))
  {
    var s' := Register(s, t, ports, any);
    assert Parked(s', t);
    forall x | x in s'.threads && s'.threads[x].run.Blocked? && x != t && Parked(s, x)
      ensures Parked(s', x)
    {
    }
    KeepWakeups(s, s');
  }

  lemma RegisterFifo(owner: map<PortId, Tid>, s: State, t: Tid, ports: seq<PortId>, any: bool)
    requires Structure(owner, s) && Fifo(owner, s) && MayRegister(owner, s, t, ports, any)
    requires Sound(Register(s, t, ports, any))
    ensures Fifo(owner, Register(s, t, ports, any))
  {
    var s' := Register(s, t, ports, any);
    forall q
      ensures FifoAt(owner, s', q)
    {
      assert FifoAt(owner, s, q);
      assert InSlot(owner, s', q) == InSlot(owner, s, q);
      assert q in s.ports ==> s'.ports[q].queue == s.ports[q].queue;
    }
  }

  /** A running receiver that no port names any more leaves its wait. */
  lemma LeaveKeeps(owner: map<PortId, Tid>, s: State, t: Tid)
    requires Inv(owner, s) && Active(s, t) && s.threads[t].pc.Waiting?
    requires !s.threads[t].wait.delivered && Unregistered(s, t)
    ensures Inv(owner, SetPc(s, t, Idle))
  {
    var idle := s.threads[t].(pc := Idle);
    ThreadStructure(owner, s, t, idle);
    LeaveWakeups(s, t);
    ThreadFifo(owner, s, t, idle);
  }

  lemma TakeAndLeave(owner: map<PortId, Tid>, s: State, t: Tid, p: PortId)
    requires Inv(owner, s) && Active(s, t) && p in s.ports && s.ports[p].queue != [] && Owned(owner, t, [p])
    requires s.threads[t].pc.Idle? || (s.threads[t].pc.Waiting? && Unregistered(s, t))
    requires !s.threads[t].wait.delivered
    ensures Inv(owner, SetPc(Take(s, p), t, Idle))
  {
    TakeKeeps(owner, s, t, p);
    var taken := Take(s, p);
    if s.threads[t].pc.Waiting? {
      LeaveKeeps(owner, taken, t);
    } else {
      assert SetPc(taken, t, Idle) == taken;
    }
  }

  lemma RegisterKeeps(owner: map<PortId, Tid>, s: State, t: Tid, ports: seq<PortId>, any: bool)
    requires Inv(owner, s) && MayRegister(owner, s, t, ports, any)
    ensures Inv(owner, Register(s, t, ports, any))
  {
    RegisterStructure(owner, s, t, ports, any);
    RegisterWakeups(owner, s, t, ports, any);
    RegisterFifo(owner, s, t, ports, any);
  }

  /** A single-port receiver is not registered on a port that has a message. */
  lemma SingleUnregistered(owner: map<PortId, Tid>, s: State, t: Tid, p: PortId)
    requires Structure(owner, s) && t in s.threads && p in s.ports && s.ports[p].queue != []
    requires s.threads[t].pc.Waiting? && s.threads[t].pc.ports == [p]
    ensures Unregistered(s, t)
  {
  }

  lemma ScanKeeps(owner: map<PortId, Tid>, s: State, t: Tid, ports: seq<PortId>, any: bool)
    requires Inv(owner, s) && Active(s, t) && GoodPorts(s.ports.Keys, ports, any) && Owned(owner, t, ports)
    requires s.threads[t].pc.Idle? || s.threads[t].pc == Waiting(ports, any)
    requires !s.threads[t].wait.delivered
    requires any ==> Unregistered(s, t)
    ensures Inv(owner, Scan(s, t, ports, any))
  {
    var k := FirstReady(s, ports, 0);
    if k < |ports| {
      if !any && s.threads[t].pc.Waiting? {
        assert ports == [ports[0]];
        SingleUnregistered(owner, s, t, ports[0]);
      }
      TakeAndLeave(owner, s, t, ports[k]);
    } else {
      RegisterKeeps(owner, s, t, ports, any);
    }
  }

  /** Reading the message a sender put into the wait record. */
  function TakeSlot(s: State, t: Tid): State
    requires Sound(s) && t in s.threads && s.threads[t].wait.delivered
  {
    assert ThreadOk(s.ports.Keys, s.threads.Keys, s.threads[t]);
    var th := s.threads[t];
    var p := th.pc.ports[th.wait.index];
    SetThread(s.(received := s.received[p := s.received[p] + [th.wait.message]]),
              t, th.(pc := Idle, wait := th.wait.(delivered := false)))
  }

  lemma TakeSlotStructure(owner: map<PortId, Tid>, s: State, t: Tid)
    requires Structure(owner, s) && Active(s, t) && s.threads[t].wait.delivered && Unregistered(s, t)
    ensures Structure(owner, TakeSlot(s, t))
  {
    var s' := TakeSlot(s, t);
    assert ThreadOk(s.ports.Keys, s.threads.Keys, s.threads[t]);
    assert s'.threads.Keys == s.threads.Keys && s'.received.Keys == s.received.Keys;
  }

  lemma TakeSlotWakeups(owner: map<PortId, Tid>, s: State, t: Tid)
    requires Structure(owner, s) && NoLostWakeup(s) && Active(s, t) && s.threads[t].wait.delivered
    ensures NoLostWakeup(TakeSlot(s, t))
  {
    var s' := TakeSlot(s, t);
    assert ThreadOk(s.ports.Keys, s.threads.Keys, s.threads[t]);
    forall x | x in s'.threads && s'.threads[x].run.Blocked? && Parked(s, x)
      ensures Parked(s', x)
    {
    }
    KeepWakeups(s, s');
  }

  lemma TakeSlotFifo(owner: map<PortId, Tid>, s: State, t: Tid)
    requires Structure(owner, s) && Fifo(owner, s) && Active(s, t) && s.threads[t].wait.delivered
    requires Sound(TakeSlot(s, t))
    ensures Fifo(owner, TakeSlot(s, t))
  {
    var s', th := TakeSlot(s, t), s.threads[t];
    assert ThreadOk(s.ports.Keys, s.threads.Keys, th) && Owned(owner, t, th.pc.ports);
    var p := th.pc.ports[th.wait.index];
    forall q
      ensures FifoAt(owner, s', q)
    {
      assert FifoAt(owner, s, q);
      SlotTaken(owner, s, t, q);
      if q != p && q in s.ports {
        assert InSlot(owner, s', q) == InSlot(owner, s, q) && s'.received[q] == s.received[q];
      }
    }
  }

  lemma SlotTaken(owner: map<PortId, Tid>, s: State, t: Tid, q: PortId)
    requires Sound(s) && t in s.threads && s.threads[t].wait.delivered && s.threads[t].pc.Waiting?
    requires Owned(owner, t, s.threads[t].pc.ports) && s.threads[t].wait.index < |s.threads[t].pc.ports|
    ensures
      var p := s.threads[t].pc.ports[s.threads[t].wait.index];
      if q == p then InSlot(owner, s, q) == [s.threads[t].wait.message] && InSlot(owner, TakeSlot(s, t), q) == []
      else InSlot(owner, TakeSlot(s, t), q) == InSlot(owner, s, q)
  {
  }

  lemma TakeSlotKeeps(owner: map<PortId, Tid>, s: State, t: Tid)
    requires Inv(owner, s) && Active(s, t) && s.threads[t].wait.delivered && Unregistered(s, t)
    ensures Inv(owner, TakeSlot(s, t))
  {
    TakeSlotStructure(owner, s, t);
    TakeSlotWakeups(owner, s, t);
    TakeSlotFifo(owner, s, t);
  }

  /** A single-port receiver whose record was filled is no longer registered. */
  lemma FilledSingle(owner: map<PortId, Tid>, s: State, t: Tid)
    requires Inv(owner, s) && t in s.threads && s.threads[t].pc.Waiting? && !s.threads[t].pc.any
    requires s.threads[t].wait.delivered
    ensures Unregistered(s, t)
  {
  }

  lemma WakeKeeps(owner: map<PortId, Tid>, s: State, t: Tid, handOff: bool)
    requires Inv(owner, s) && Enabled(s, Wake(t, handOff))
    ensures Inv(owner, WakeUp(s, t, handOff))
  {
    var r := s.threads[t].pc.target;
    if !s.threads[r].run.Blocked? {
      DebtPaid(owner, s, t);
    } else if !handOff {
      var ready := SetThread(s, r, s.threads[r].(run := Ready));
      ThreadStepKeeps(owner, s, r, s.threads[r].(run := Ready));
      DebtPaid(owner, ready, t);
    } else {
      var on := SetThread(s, r, s.threads[r].(run := Running, onCpu := true));
      ThreadStepKeeps(owner, s, r, s.threads[r].(run := Running, onCpu := true));
      var off := SetThread(on, t, on.threads[t].(run := Ready, onCpu := false));
      ThreadStepKeeps(owner, on, t, on.threads[t].(run := Ready, onCpu := false));
      DebtPaid(owner, off, t);
    }
  }

  lemma UnregisterAll(owner: map<PortId, Tid>, s: State, t: Tid)
    requires Structure(owner, s) && t in s.threads && s.threads[t].pc.Waiting?
    ensures Unregistered(Unregister(s, t, s.threads[t].pc.ports), t)
  {
  }

  /** The rest of that section, once the receiver is unregistered. */
  lemma FinishKeeps(owner: map<PortId, Tid>, s: State, t: Tid)
    requires Inv(owner, s) && Active(s, t) && s.threads[t].pc.Waiting?
    requires s.threads[t].wait.delivered || s.threads[t].pc.any ==> Unregistered(s, t)
    ensures
      var th := s.threads[t];
      Inv(owner, if th.wait.delivered then TakeSlot(s, t) else Scan(s, t, th.pc.ports, th.pc.any))
  {
    var th := s.threads[t];
    assert ThreadOk(s.ports.Keys, s.threads.Keys, th) && Owned(owner, t, th.pc.ports);
    if th.wait.delivered {
      TakeSlotKeeps(owner, s, t);
    } else {
      ScanKeeps(owner, s, t, th.pc.ports, th.pc.any);
    }
  }

  lemma ResumeKeeps(owner: map<PortId, Tid>, s: State, t: Tid)
    requires Inv(owner, s) && Enabled(s, Resume(t))
    ensures Inv(owner, ResumeFrom(s, t))
  {
    var th := s.threads[t];
    if th.pc.any {
      UnregisterKeeps(owner, s, t, th.pc.ports);
      UnregisterAll(owner, s, t);
      FinishKeeps(owner, Unregister(s, t, th.pc.ports), t);
    } else {
      if th.wait.delivered {
        FilledSingle(owner, s, t);
      }
      FinishKeeps(owner, s, t);
    }
  }

  lemma SendFirstKeeps(owner: map<PortId, Tid>, s: State, t: Tid, p: PortId, m: Message)
    requires Inv(owner, s) && Active(s, t) && s.threads[t].pc.Idle? && p in s.ports
    ensures Inv(owner, if CanDeliver(s, p) then Deliver(s, t, p, m) else SetPc(s, t, SendMiss(p, m)))
  {
    if CanDeliver(s, p) {
      DeliverStructure(owner, s, t, p, m);
      DeliverWakeups(owner, s, t, p, m);
      DeliverFifo(owner, s, t, p, m);
    } else {
      ThreadStepKeeps(owner, s, t, s.threads[t].(pc := SendMiss(p, m)));
    }
  }

  /** Every step of every thread keeps the invariant. */
  lemma StepKeepsInv(owner: map<PortId, Tid>, s: State, step: Step)
    requires Inv(owner, s) && Enabled(s, step) && OneReceiver(owner, step)
    ensures Inv(owner, Apply(s, step))
  {
    var th := s.threads[step.t];
    match step
    case SendFirst(t, p, wantsReply, body) => SendFirstKeeps(owner, s, t, p, Message(t, wantsReply, body));
    case SendNoMemory(t) => ThreadStepKeeps(owner, s, t, th.(pc := Idle));
    case SendSecond(t) =>
      EnqueueStructure(owner, s, t);
      EnqueueWakeups(owner, s, t);
      EnqueueFifo(owner, s, t);
    case Wake(t, handOff) => WakeKeeps(owner, s, t, handOff);
    case Receive(t, ports, any) =>
      NotWaitingUnregistered(owner, s, t);
      ScanKeeps(owner, s, t, ports, any);
    case TryReceive(t, p) =>
      if s.ports[p].queue != [] {
        TakeKeeps(owner, s, t, p);
      }
    case SwitchAway(t) => ThreadStepKeeps(owner, s, t, th.(onCpu := false));
    case Dispatch(t) => ThreadStepKeeps(owner, s, t, th.(run := Running, onCpu := true));
    case Preempt(t) => ThreadStepKeeps(owner, s, t, th.(run := Ready, onCpu := false));
    case Resume(t) => ResumeKeeps(owner, s, t);
  }

  // ----- whole runs

  /** `ss` is a run: each state follows from the one before by an enabled step. */
  ghost predicate IsRun(owner: map<PortId, Tid>, ss: seq<State>, steps: seq<Step>) {
    && |ss| == |steps| + 1
    && Initial(ss[0])
    && forall i :: 0 <= i < |steps| ==>
         Sound(ss[i]) && Enabled(ss[i], steps[i]) && OneReceiver(owner, steps[i]) && ss[i + 1] == Apply(ss[i], steps[i])
  }

  lemma {:induction false} RunInv(owner: map<PortId, Tid>, ss: seq<State>, steps: seq<Step>, n: nat)
    requires IsRun(owner, ss, steps) && n < |ss|
    ensures Inv(owner, ss[n])
  {
    if n > 0 {
      RunInv(owner, ss, steps, n - 1);
      assert ss[n] == Apply(ss[n - 1], steps[n - 1]);
      StepKeepsInv(owner, ss[n - 1], steps[n - 1]);
    }
  }

  /**
  No wake-up is ever lost: in every state of every run, a blocked thread either
  has only empty ports that still name it, or is about to be woken.
  */
  lemma RunNeverLosesWakeup(owner: map<PortId, Tid>, ss: seq<State>, steps: seq<Step>, n: nat, t: Tid)
    requires IsRun(owner, ss, steps) && n < |ss|
    requires t in ss[n].threads && ss[n].threads[t].run.Blocked?
    ensures Parked(ss[n], t) || exists u :: Owes(ss[n], u, t)
  {
    RunInv(owner, ss, steps, n);
  }

  /** While no wake-up is outstanding, no message waits in front of a blocked receiver. */
  lemma QuietMeansDelivered(owner: map<PortId, Tid>, ss: seq<State>, steps: seq<Step>, n: nat, p: PortId, t: Tid)
    requires IsRun(owner, ss, steps) && n < |ss| && p in ss[n].ports
    requires forall u :: u in ss[n].threads ==> !ss[n].threads[u].pc.SendWake?
    requires t in ss[n].threads && ss[n].threads[t].run.Blocked?
    requires ss[n].threads[t].pc.Waiting? && p in ss[n].threads[t].pc.ports
    ensures Sound(ss[n])
    ensures ss[n].ports[p].queue == [] && ss[n].received[p] == ss[n].accepted[p]
  {
    RunInv(owner, ss, steps, n);
    assert Parked(ss[n], t);
    assert owner[p] == t;
    assert InSlot(owner, ss[n], p) == [] && FifoAt(owner, ss[n], p);
  }

  /** In every run the messages read from a port are, in order, a prefix of the messages it accepted. */
  lemma RunIsFifo(owner: map<PortId, Tid>, ss: seq<State>, steps: seq<Step>, n: nat, p: PortId)
    requires IsRun(owner, ss, steps) && n < |ss| && p in ss[n].ports
    ensures Sound(ss[n])
    ensures ss[n].accepted[p] == ss[n].received[p] + InSlot(owner, ss[n], p) + ss[n].ports[p].queue
    ensures ss[n].received[p] <= ss[n].accepted[p]
  {
    RunInv(owner, ss, steps, n);
    assert FifoAt(owner, ss[n], p);
  }

  /** A filled wait record is not written again before its owner has read it. */
  lemma SlotFilledOnce(s: State, step: Step, t: Tid)
    requires Sound(s) && Enabled(s, step)
    requires t in s.threads && s.threads[t].wait.delivered
    ensures t in Apply(s, step).threads
    ensures Apply(s, step).threads[t].wait == s.threads[t].wait || step == Resume(t)
  {
    match step
    case SendFirst(u, p, _, _) => assert CanDeliver(s, p) ==> s.ports[p].receiver.value != t;
    case Receive(u, ports, any) => ScanKeepsRecord(s, u, ports, any, t);
    case Resume(u) =>
      if u != t {
        ResumeKeepsRecord(s, u, t);
      }
    case Wake(u, handOff) => WakeKeepsRecord(s, u, handOff, t);
    case _ =>
  }

  lemma ScanKeepsRecord(s: State, u: Tid, ports: seq<PortId>, any: bool, t: Tid)
    requires Sound(s) && u in s.threads && GoodPorts(s.ports.Keys, ports, any) && t in s.threads
    requires u != t || s.threads[u].pc.Idle?
    requires s.threads[t].wait.delivered
    ensures t in Scan(s, u, ports, any).threads && Scan(s, u, ports, any).threads[t].wait == s.threads[t].wait
  {
    assert ThreadOk(s.ports.Keys, s.threads.Keys, s.threads[t]);
  }

  lemma ResumeKeepsRecord(s: State, u: Tid, t: Tid)
    requires Sound(s) && u in s.threads && s.threads[u].pc.Waiting? && t in s.threads && u != t
    ensures t in ResumeFrom(s, u).threads && ResumeFrom(s, u).threads[t].wait == s.threads[t].wait
  {
  }

  lemma WakeKeepsRecord(s: State, u: Tid, handOff: bool, t: Tid)
    requires Sound(s) && u in s.threads && s.threads[u].pc.SendWake? && t in s.threads
    ensures s.threads[u].pc.target in s.threads
    ensures t in WakeUp(s, u, handOff).threads && WakeUp(s, u, handOff).threads[t].wait == s.threads[t].wait
  {
    assert ThreadOk(s.ports.Keys, s.threads.Keys, s.threads[u]);
  }

  // ----- more than one receiver

  ghost predicate FoundEmpty(s: State, t: Tid, ports: seq<PortId>, any: bool) {
    && Sound(s) && Registrations(s) && NoLostWakeup(s)
    && Active(s, t) && GoodPorts(s.ports.Keys, ports, any)
    && (|| s.threads[t].pc.Idle?
        || (s.threads[t].pc.Waiting? && !s.threads[t].wait.delivered && s.threads[t].pc.ports == ports))
    && forall i :: 0 <= i < |ports| ==> s.ports[ports[i]].queue == []
  }

  ghost predicate DisplacesOnlyWoken(s: State, t: Tid, ports: seq<PortId>) {
    forall p :: p in ports && Displaces(s, t, p) ==> exists u :: Owes(s, u, s.ports[p].receiver.value)
  }

  lemma RegisterSafe(s: State, t: Tid, ports: seq<PortId>, any: bool)
    requires FoundEmpty(s, t, ports, any) && DisplacesOnlyWoken(s, t, ports)
    ensures NoLostWakeup(Register(s, t, ports, any))
  {
    var s' := Register(s, t, ports, any);
    assert Parked(s', t);
    assert forall u, x :: Owes(s, u, x) ==> Owes(s', u, x);
    forall x | x in s'.threads && s'.threads[x].run.Blocked? && x != t && Parked(s, x)
      ensures Parked(s', x) || exists u :: Owes(s', u, x)
    {
      if i :| 0 <= i < |s.threads[x].pc.ports| && s.threads[x].pc.ports[i] in ports {
        var p := s.threads[x].pc.ports[i];
        assert Displaces(s, t, p);
        var u :| Owes(s, u, x);
        assert Owes(s', u, x);
      } else {
        assert Parked(s', x);
      }
    }
    KeepWakeups(s, s');
  }

  lemma RegisterUnsafe(s: State, t: Tid, ports: seq<PortId>, any: bool, p: PortId)
    requires FoundEmpty(s, t, ports, any) && p in ports && Displaces(s, t, p)
    requires !exists u :: Owes(s, u, s.ports[p].receiver.value)
    ensures !NoLostWakeup(Register(s, t, ports, any))
  {
    var s' := Register(s, t, ports, any);
    var r := s.ports[p].receiver.value;
    assert forall u :: Owes(s', u, r) ==> Owes(s, u, r);
    assert s'.ports[p].receiver == Some(t);
    assert s.threads[r].pc.ports[s.ports[p].index] == p;
    assert !Parked(s', r);
  }

  /**
  Registering keeps wake-ups safe exactly when it displaces no blocked thread
  that nobody is about to wake.
  */
  lemma RegisterSafeIff(s: State, t: Tid, ports: seq<PortId>, any: bool)
    requires FoundEmpty(s, t, ports, any)
    ensures NoLostWakeup(Register(s, t, ports, any)) <==> DisplacesOnlyWoken(s, t, ports)
  {
    if DisplacesOnlyWoken(s, t, ports) {
      RegisterSafe(s, t, ports, any);
    } else {
      var p :| p in ports && Displaces(s, t, p) && !exists u :: Owes(s, u, s.ports[p].receiver.value);
      RegisterUnsafe(s, t, ports, any, p);
    }
  }

  /** Port `p` names a blocked thread other than `t`. */
  predicate Displaces(s: State, t: Tid, p: PortId) {
    && p in s.ports
    && s.ports[p].receiver.Some?
    && s.ports[p].receiver.value != t
    && s.ports[p].receiver.value in s.threads
    && s.threads[s.ports[p].receiver.value].run.Blocked?
  }

  const IDLE := Thread(Idle, Running, true, Wait(Message(0, false, 0), 0, false))
  const WAITING := Thread(Waiting([7], false), Blocked, true, Wait(Message(0, false, 0), 0, false))

  /** One port, the thread that is registered on it, and two threads. */
  function OnePort(receiver: Option<Tid>, first: Thread, second: Thread): State {
    State(map[7 := Port([], receiver, 0)], map[1 := first, 2 := second], map[7 := []], map[7 := []])
  }

  lemma FirstReceives()
    ensures Initial(OnePort(None, IDLE, IDLE)) && Enabled(OnePort(None, IDLE, IDLE), Receive(1, [7], false))
    ensures Apply(OnePort(None, IDLE, IDLE), Receive(1, [7], false)) == OnePort(Some(1), WAITING, IDLE)
  {
    var s := OnePort(None, IDLE, IDLE);
    assert Apply(s, Receive(1, [7], false)) == Register(s, 1, [7], false);
    assert Register(s, 1, [7], false).ports == OnePort(Some(1), WAITING, IDLE).ports;
  }

  lemma SecondReceives()
    ensures Sound(OnePort(Some(1), WAITING, IDLE)) && Enabled(OnePort(Some(1), WAITING, IDLE), Receive(2, [7], false))
    ensures Apply(OnePort(Some(1), WAITING, IDLE), Receive(2, [7], false)) == OnePort(Some(2), WAITING, WAITING)
  {
    var s := OnePort(Some(1), WAITING, IDLE);
    assert Apply(s, Receive(2, [7], false)) == Register(s, 2, [7], false);
    assert Register(s, 2, [7], false).ports == OnePort(Some(2), WAITING, WAITING).ports;
  }

  /**
  Two threads that receive on one port: the first one is blocked, no longer registered,
  and owed a wake by nobody.
  */
  lemma SecondReceiverLosesWakeup()
    ensures
      var s, a, b := OnePort(None, IDLE, IDLE), Receive(1, [7], false), Receive(2, [7], false);
      && Initial(s) && Enabled(s, a) && Sound(Apply(s, a)) && Enabled(Apply(s, a), b)
      && var s' := Apply(Apply(s, a), b);
      && s'.threads[1].run.Blocked? && s'.ports[7].queue == []
      && (forall p :: p in s'.ports ==> s'.ports[p].receiver != Some(1)) && (forall u :: !Owes(s', u, 1))
      && !NoLostWakeup(s')
  {
    FirstReceives();
    SecondReceives();
    BothWait();
  }

  lemma BothWait()
    ensures
      var s' := OnePort(Some(2), WAITING, WAITING);
      && s'.threads[1].run.Blocked? && s'.ports[7].queue == []
      && (forall p :: p in s'.ports ==> s'.ports[p].receiver != Some(1)) && (forall u :: !Owes(s', u, 1))
      && !NoLostWakeup(s')
  {
    var s' := OnePort(Some(2), WAITING, WAITING);
    assert s'.threads[1].pc.ports[0] == 7 && !Parked(s', 1);
  }

  /**
  Reading the queue keeps the order of a port exactly when no message of that port
  still sits unread in a wait record (or the two messages are the same).
  */
  lemma TakeInOrderIff(owner: map<PortId, Tid>, s: State, p: PortId)
    requires Inv(owner, s) && p in s.ports && s.ports[p].queue != []
    ensures
      Take(s, p).received[p] <= Take(s, p).accepted[p] <==>
      InSlot(owner, s, p) == [] || InSlot(owner, s, p)[0] == s.ports[p].queue[0]
  {
    var before, slot, queue := s.received[p], InSlot(owner, s, p), s.ports[p].queue;
    assert FifoAt(owner, s, p);
    assert Take(s, p).received[p] == before + [queue[0]];
    assert Take(s, p).accepted[p] == before + slot + queue;
    assert (before + [queue[0]])[|before|] == queue[0];
    assert slot != [] ==> (before + slot + queue)[|before|] == slot[0];
    assert slot == [] ==> before + slot + queue == before + queue;
  }

  // ----- ports whose queues are linked lists

  /** Nodes by their addresses. */
  datatype Node = Node(message: Message, next: Option<nat>)

  type Nodes = map<nat, Node>

  datatype PortRec = PortRec(head: Option<nat>, tail: Option<nat>, queued: nat, receiver: Option<Tid>, index: nat)

  ghost predicate InNodes(nodes: Nodes, list: seq<nat>) {
    forall i :: 0 <= i < |list| ==> list[i] in nodes
  }

  /** The messages of a list of nodes. */
  ghost function Contents(nodes: Nodes, list: seq<nat>): (ms: seq<Message>)
    requires InNodes(nodes, list)
    ensures |ms| == |list| && forall i :: 0 <= i < |list| ==> ms[i] == nodes[list[i]].message
  {
    seq(|list|, i requires 0 <= i < |list| => nodes[list[i]].message)
  }

  ghost predicate NextIs(nodes: Nodes, list: seq<nat>, i: int)
    requires InNodes(nodes, list) && 0 <= i < |list|
  {
    nodes[list[i]].next == if i + 1 < |list| then Some(list[i + 1]) else None
  }

  ghost predicate Chained(nodes: Nodes, list: seq<nat>) {
    && InNodes(nodes, list)
    && (forall i :: 0 <= i < |list| ==> NextIs(nodes, list, i))
    && (forall i, j :: 0 <= i < j < |list| ==> list[i] != list[j])
  }

  /** From `head` the nodes of `list` follow each other to `tail`. */
  ghost predicate IsList(nodes: Nodes, r: PortRec, list: seq<nat>) {
    && Chained(nodes, list) && r.queued == |list|
    && r.head == (if list == [] then None else Some(list[0]))
    && r.tail == (if list == [] then None else Some(list[|list| - 1]))
  }

  /** Port `p` has a list of its own nodes, and they hold the messages of its queue. */
  ghost predicate Holds(nodes: Nodes, home: map<nat, PortId>, r: PortRec, list: seq<nat>, p: PortId, port: Port) {
    && IsList(nodes, r, list) && (forall n :: n in list ==> n in home && home[n] == p)
    && port == Port(Contents(nodes, list), r.receiver, r.index)
  }

  /** The records and nodes stand for `ports`. */
  ghost predicate Represents(nodes: Nodes, recs: map<PortId, PortRec>, lists: map<PortId, seq<nat>>,
                             home: map<nat, PortId>, ports: map<PortId, Port>)
  {
    forall p :: StandsFor(nodes, recs, lists, home, ports, p)
  }

  ghost predicate StandsFor(nodes: Nodes, recs: map<PortId, PortRec>, lists: map<PortId, seq<nat>>,
                            home: map<nat, PortId>, ports: map<PortId, Port>, p: PortId)
  {
    && (p in recs <==> p in ports) && (p in lists <==> p in ports)
    && (p in ports ==> Holds(nodes, home, recs[p], lists[p], p, ports[p]))
  }

  /** The enqueue of ipc_send: node `id` behind the tail. */
  function LinkLast(nodes: Nodes, r: PortRec, id: nat, m: Message): Nodes {
    var linked := if r.tail.Some? && r.tail.value in nodes
                  then nodes[r.tail.value := nodes[r.tail.value].(next := Some(id))] else nodes;
    linked[id := Node(m, None)]
  }

  function WithLast(r: PortRec, id: nat): PortRec {
    r.(head := if r.tail.Some? then r.head else Some(id), tail := Some(id), queued := r.queued + 1)
  }

  lemma LinkLastIsList(nodes: Nodes, r: PortRec, list: seq<nat>, id: nat, m: Message)
    requires IsList(nodes, r, list) && id !in nodes
    ensures
      var nodes' := LinkLast(nodes, r, id, m);
      IsList(nodes', WithLast(r, id), list + [id]) && Contents(nodes', list + [id]) == Contents(nodes, list) + [m]
  {
    var nodes', list' := LinkLast(nodes, r, id, m), list + [id];
    assert forall i :: 0 <= i < |list| ==> list[i] != id;
    forall i | 0 <= i < |list'|
      ensures list'[i] in nodes' && NextIs(nodes', list', i)
    {
      if i < |list| {
        assert NextIs(nodes, list, i);
        assert i != |list| - 1 ==> list[i] != list[|list| - 1];
      }
    }
  }

  /** A list that has none of the nodes that change stays as it is. */
  lemma OtherList(nodes: Nodes, nodes': Nodes, r: PortRec, list: seq<nat>)
    requires IsList(nodes, r, list) && forall n :: n in list ==> n in nodes' && nodes'[n] == nodes[n]
    ensures IsList(nodes', r, list) && Contents(nodes', list) == Contents(nodes, list)
  {
    forall i | 0 <= i < |list|
      ensures list[i] in nodes' && NextIs(nodes', list, i)
    {
      assert NextIs(nodes, list, i) && list[i] in list;
    }
  }

  /** Nodes that are not in the list of port `p` do not matter to it. */
  lemma StillHolds(nodes: Nodes, nodes': Nodes, home: map<nat, PortId>, home': map<nat, PortId>, r: PortRec,
                   list: seq<nat>, p: PortId, port: Port)
    requires Holds(nodes, home, r, list, p, port)
    requires forall n :: n in nodes && n in home && home[n] == p ==>
                           n in nodes' && nodes'[n] == nodes[n] && n in home' && home'[n] == p
    ensures Holds(nodes', home', r, list, p, port)
  {
    forall n | n in list
      ensures n in nodes
    {
    }
    OtherList(nodes, nodes', r, list);
  }

  lemma LinkLastHolds(nodes: Nodes, home: map<nat, PortId>, r: PortRec, list: seq<nat>, p: PortId, port: Port, id: nat,
                      m: Message)
    requires Holds(nodes, home, r, list, p, port) && id !in nodes
    ensures Holds(LinkLast(nodes, r, id, m), home[id := p], WithLast(r, id), list + [id], p,
                  port.(queue := port.queue + [m]))
  {
    LinkLastIsList(nodes, r, list, id, m);
  }

  lemma LinkLastKeeps(nodes: Nodes, recs: map<PortId, PortRec>, lists: map<PortId, seq<nat>>, home: map<nat, PortId>,
                      ports: map<PortId, Port>, p: PortId, id: nat, m: Message)
    requires Represents(nodes, recs, lists, home, ports) && p in ports && id !in nodes
    ensures p in recs && p in lists
    ensures Represents(LinkLast(nodes, recs[p], id, m), recs[p := WithLast(recs[p], id)], lists[p := lists[p] + [id]],
                       home[id := p], ports[p := ports[p].(queue := ports[p].queue + [m])])
  {
    assert StandsFor(nodes, recs, lists, home, ports, p);
    var nodes' := LinkLast(nodes, recs[p], id, m);
    LinkLastHolds(nodes, home, recs[p], lists[p], p, ports[p], id, m);
    assert lists[p] != [] ==> lists[p][|lists[p]| - 1] in lists[p];
    var recs', lists', home' := recs[p := WithLast(recs[p], id)], lists[p := lists[p] + [id]], home[id := p];
    var ports' := ports[p := ports[p].(queue := ports[p].queue + [m])];
    forall q
      ensures StandsFor(nodes', recs', lists', home', ports', q)
    {
      assert StandsFor(nodes, recs, lists, home, ports, q);
      if q in ports && q != p {
        StillHolds(nodes, nodes', home, home[id := p], recs[q], lists[q], q, ports[q]);
      }
    }
  }

  /** The dequeue: the head goes, and its node is freed. */
  function WithoutFirst(nodes: Nodes, r: PortRec): PortRec
    requires r.head.Some? && r.head.value in nodes && r.queued > 0
  {
    var next := nodes[r.head.value].next;
    r.(head := next, tail := if next.None? then None else r.tail, queued := r.queued - 1)
  }

  lemma WithoutFirstIsList(nodes: Nodes, r: PortRec, list: seq<nat>)
    requires IsList(nodes, r, list) && list != []
    ensures
      var nodes' := nodes - {list[0]};
      && r.head.Some? && r.head.value == list[0] && r.queued > 0
      && IsList(nodes', WithoutFirst(nodes, r), list[1..]) && Contents(nodes', list[1..]) == Contents(nodes, list)[1..]
  {
    var nodes', list' := nodes - {list[0]}, list[1..];
    assert NextIs(nodes, list, 0);
    forall i | 0 <= i < |list'|
      ensures list'[i] in nodes' && NextIs(nodes', list', i)
    {
      assert NextIs(nodes, list, i + 1) && list[i + 1] != list[0];
    }
  }

  lemma WithoutFirstKeeps(nodes: Nodes, recs: map<PortId, PortRec>, lists: map<PortId, seq<nat>>,
                          home: map<nat, PortId>, ports: map<PortId, Port>, p: PortId)
    requires Represents(nodes, recs, lists, home, ports) && p in ports && ports[p].queue != []
    ensures p in recs && p in lists
    ensures lists[p] != [] && recs[p].head == Some(lists[p][0]) && lists[p][0] in nodes && recs[p].queued > 0
    ensures nodes[lists[p][0]].message == ports[p].queue[0]
    ensures Represents(nodes - {lists[p][0]}, recs[p := WithoutFirst(nodes, recs[p])], lists[p := lists[p][1..]],
                       home, ports[p := ports[p].(queue := ports[p].queue[1..])])
  {
    assert StandsFor(nodes, recs, lists, home, ports, p);
    WithoutFirstIsList(nodes, recs[p], lists[p]);
    var nodes' := nodes - {lists[p][0]};
    assert lists[p][0] in lists[p];
    assert forall n :: n in lists[p][1..] ==> n in lists[p];
    var recs', lists' := recs[p := WithoutFirst(nodes, recs[p])], lists[p := lists[p][1..]];
    var ports' := ports[p := ports[p].(queue := ports[p].queue[1..])];
    forall q
      ensures StandsFor(nodes', recs', lists', home, ports', q)
    {
      assert StandsFor(nodes, recs, lists, home, ports, q);
      if q in ports && q != p {
        StillHolds(nodes, nodes', home, home, recs[q], lists[q], q, ports[q]);
      }
    }
  }

  lemma ReceiverKeeps(nodes: Nodes, recs: map<PortId, PortRec>, lists: map<PortId, seq<nat>>, home: map<nat, PortId>,
                      ports: map<PortId, Port>, p: PortId, receiver: Option<Tid>, index: nat)
    requires Represents(nodes, recs, lists, home, ports) && p in ports
    ensures p in recs
    ensures Represents(nodes, recs[p := recs[p].(receiver := receiver, index := index)], lists, home,
                       ports[p := ports[p].(receiver := receiver, index := index)])
  {
    assert StandsFor(nodes, recs, lists, home, ports, p);
    var recs', ports' := recs[p := recs[p].(receiver := receiver, index := index)],
                         ports[p := ports[p].(receiver := receiver, index := index)];
    forall q
      ensures StandsFor(nodes, recs', lists, home, ports', q)
    {
      assert StandsFor(nodes, recs, lists, home, ports, q);
    }
  }

  /** What a port's record says about its queue. */
  lemma RecordSays(nodes: Nodes, recs: map<PortId, PortRec>, lists: map<PortId, seq<nat>>, home: map<nat, PortId>,
                   ports: map<PortId, Port>, p: PortId)
    requires Represents(nodes, recs, lists, home, ports) && p in ports
    ensures p in recs && recs[p].receiver == ports[p].receiver && recs[p].index == ports[p].index
    ensures recs[p].head.None? <==> ports[p].queue == []
    ensures recs[p].tail.Some? ==> recs[p].tail.value in nodes
  {
    assert StandsFor(nodes, recs, lists, home, ports, p);
  }

  class IpcKernel {
    var nodes: Nodes
    var recs: map<PortId, PortRec>
    var threads: map<Tid, Thread>
    ghost var lists: map<PortId, seq<nat>>
    ghost var home: map<nat, PortId>
    ghost var ports: map<PortId, Port>
    ghost var accepted: map<PortId, seq<Message>>
    ghost var received: map<PortId, seq<Message>>

    /** The records and nodes stand for `ports`. */
    ghost predicate Valid()
      reads this`nodes, this`recs, this`lists, this`home, this`ports
    {
      Represents(nodes, recs, lists, home, ports)
    }

    ghost function View(): State
      reads this
    {
      State(ports, threads, accepted, received)
    }

    /** Ports start without messages and without receivers. */
    constructor (known: set<PortId>, threads: map<Tid, Thread>)
      ensures Valid() && ports.Keys == known && this.threads == threads
      ensures (forall t :: t in threads ==>
                             threads[t].pc.Idle? && !threads[t].run.Blocked? && !threads[t].wait.delivered) ==>
                Initial(View())
    {
      nodes, lists, home := map[], map p | p in known :: [], map[];
      recs := map p | p in known :: PortRec(None, None, 0, None, 0);
      ports := map p | p in known :: Port([], None, 0);
      accepted, received := map p | p in known :: [], map p | p in known :: [];
      this.threads := threads;
    }

    /** The test of a port's list for emptiness. */
    method IsEmpty(p: PortId) returns (empty: bool)
      requires Valid() && p in ports
      ensures empty <==> ports[p].queue == []
    {
      RecordSays(nodes, recs, lists, home, ports, p);
      return recs[p].head.None?;
    }

    method SetReceiver(p: PortId, receiver: Option<Tid>, index: nat)
      requires Valid() && p in ports
      modifies this`recs, this`ports
      ensures Valid() && ports == old(ports)[p := old(ports)[p].(receiver := receiver, index := index)]
    {
      ReceiverKeeps(nodes, recs, lists, home, ports, p, receiver, index);
      recs := recs[p := recs[p].(receiver := receiver, index := index)];
      ports := ports[p := ports[p].(receiver := receiver, index := index)];
    }

    /** The list writes of the second section of ipc_send; `id` is the node that message_alloc returned. */
    method Append(p: PortId, id: nat, m: Message)
      requires Valid() && p in ports && id !in nodes
      modifies this`nodes, this`recs, this`lists, this`home, this`ports
      ensures Valid() && ports == old(ports)[p := old(ports)[p].(queue := old(ports)[p].queue + [m])]
    {
      LinkLastKeeps(nodes, recs, lists, home, ports, p, id, m);
      RecordSays(nodes, recs, lists, home, ports, p);
      var r := recs[p];
      if r.tail.Some? {
        nodes := nodes[r.tail.value := nodes[r.tail.value].(next := Some(id))];
      } else {
        recs := recs[p := r.(head := Some(id))];
      }
      nodes := nodes[id := Node(m, None)];
      recs := recs[p := recs[p].(tail := Some(id), queued := r.queued + 1)];
      lists, home := lists[p := lists[p] + [id]], home[id := p];
      ports := ports[p := ports[p].(queue := ports[p].queue + [m])];
      assert recs == old(recs)[p := WithLast(r, id)];
    }

    /** The list writes of a receive, and message_free. */
    method TakeHead(p: PortId) returns (m: Message)
      requires Valid() && p in ports && ports[p].queue != []
      modifies this`nodes, this`recs, this`lists, this`ports
      ensures Valid() && m == old(ports)[p].queue[0]
      ensures ports == old(ports)[p := old(ports)[p].(queue := old(ports)[p].queue[1..])]
    {
      WithoutFirstKeeps(nodes, recs, lists, home, ports, p);
      var id := recs[p].head.value;
      var node, r := nodes[id], recs[p];
      recs := recs[p := r.(head := node.next)];
      if node.next.None? {
        recs := recs[p := recs[p].(tail := None)];
      }
      recs := recs[p := recs[p].(queued := r.queued - 1)];
      nodes := nodes - {id};
      lists := lists[p := lists[p][1..]];
      ports := ports[p := ports[p].(queue := ports[p].queue[1..])];
      assert recs == old(recs)[p := WithoutFirst(old(nodes), r)];
      return node.message;
    }

    /** The first section of ipc_send. */
    method SendFirstSection(t: Tid, p: PortId, wantsReply: bool, body: nat)
      requires Valid() && Sound(View()) && Enabled(View(), SendFirst(t, p, wantsReply, body))
      modifies this`recs, this`ports, this`threads, this`accepted
      ensures Valid() && View() == Apply(old(View()), SendFirst(t, p, wantsReply, body))
    {
      var m := Message(t, wantsReply, body);
      RecordSays(nodes, recs, lists, home, ports, p);
      var rec := recs[p];
      var empty := IsEmpty(p);
      if rec.receiver.Some? && rec.receiver.value in threads && !threads[rec.receiver.value].wait.delivered && empty {
        var r := rec.receiver.value;
        threads := threads[r := threads[r].(wait := Wait(m, rec.index, true))];
        SetReceiver(p, None, rec.index);
        accepted := accepted[p := accepted[p] + [m]];
        threads := threads[t := threads[t].(pc := SendWake(r, !wantsReply))];
      } else {
        threads := threads[t := threads[t].(pc := SendMiss(p, m))];
      }
    }

    /** The second section of ipc_send. */
    method SendSecondSection(t: Tid, id: nat)
      requires Valid() && Sound(View()) && Enabled(View(), SendSecond(t)) && id !in nodes
      modifies this
      ensures Valid() && View() == Apply(old(View()), SendSecond(t))
    {
      var p, m := threads[t].pc.port, threads[t].pc.msg;
      assert ThreadOk(ports.Keys, threads.Keys, threads[t]);
      RecordSays(nodes, recs, lists, home, ports, p);
      var rec := recs[p];
      Append(p, id, m);
      accepted := accepted[p := accepted[p] + [m]];
      if rec.receiver.Some? {
        SetReceiver(p, None, rec.index);
        threads := threads[t := threads[t].(pc := SendWake(rec.receiver.value, false))];
      } else {
        threads := threads[t := threads[t].(pc := Idle)];
      }
    }

    /** Name the thread, with its one wait record, on every port. */
    method NameReceiver(t: Tid, ps: seq<PortId>)
      requires Valid() && forall i :: 0 <= i < |ps| ==> ps[i] in ports
      requires forall i, j :: 0 <= i < j < |ps| ==> ps[i] != ps[j]
      modifies this`recs, this`ports
      ensures Valid() && ports.Keys == old(ports).Keys
      ensures forall q :: q in ports ==>
                ports[q] == if q in ps then old(ports)[q].(receiver := Some(t), index := IndexOf(ps, q))
                              else old(ports)[q]
    {
      var i := 0;
      ghost var was := ports;
      while i < |ps|
        invariant 0 <= i <= |ps| && Valid() && ports.Keys == was.Keys
        invariant forall q :: q in ports ==>
                    ports[q] == if q in ps[..i] then was[q].(receiver := Some(t), index := IndexOf(ps, q)) else was[q]
      {
        DistinctIndex(ps, i);
        assert ps[..i + 1] == ps[..i] + [ps[i]];
        SetReceiver(ps[i], Some(t), i);
        i := i + 1;
      }
      assert ps[..i] == ps;
    }

    /** thread_prepare_block and the registration. */
    method RegisterSection(t: Tid, ps: seq<PortId>, any: bool)
      requires Valid() && t in threads && GoodPorts(ports.Keys, ps, any)
      modifies this`recs, this`ports, this`threads
      ensures Valid() && View() == Register(old(View()), t, ps, any)
    {
      ghost var was := View();
      threads := threads[t := threads[t].(run := Blocked)];
      NameReceiver(t, ps);
      threads := threads[t := threads[t].(pc := Waiting(ps, any), wait := threads[t].wait.(delivered := false))];
      assert ports == Register(was, t, ps, any).ports;
    }

    /** The scan for the first port with a message. */
    method FindReady(ps: seq<PortId>) returns (i: nat)
      requires Valid() && forall j :: 0 <= j < |ps| ==> ps[j] in ports
      ensures i == FirstReady(View(), ps, 0)
    {
      i := 0;
      while i < |ps|
        invariant 0 <= i <= |ps| && FirstReady(View(), ps, 0) == FirstReady(View(), ps, i)
      {
        var empty := IsEmpty(ps[i]);
        if !empty {
          return;
        }
        i := i + 1;
      }
    }

    /** Find the first port with a message and take it, or block and register on all of them. */
    method ScanSection(t: Tid, ps: seq<PortId>, any: bool)
      requires Valid() && Sound(View()) && t in threads && GoodPorts(ports.Keys, ps, any)
      modifies this
      ensures Valid() && View() == Scan(old(View()), t, ps, any)
    {
      var i := FindReady(ps);
      if i < |ps| {
        var p := ps[i];
        var m := TakeHead(p);
        received := received[p := received[p] + [m]];
        threads := threads[t := threads[t].(pc := Idle)];
      } else {
        RegisterSection(t, ps, any);
      }
    }

    /** ipc_try_recv */
    method TryReceiveSection(t: Tid, p: PortId) returns (m: Option<Message>)
      requires Valid() && Sound(View()) && Enabled(View(), TryReceive(t, p))
      modifies this
      ensures Valid() && View() == Apply(old(View()), TryReceive(t, p))
      ensures m == if old(ports)[p].queue == [] then None else Some(old(ports)[p].queue[0])
    {
      var empty := IsEmpty(p);
      if empty {
        return None;
      }
      var taken := TakeHead(p);
      received := received[p := received[p] + [taken]];
      return Some(taken);
    }

    /** Withdraw the thread's registration from every port that still has it. */
    method UnregisterSection(t: Tid, ps: seq<PortId>)
      requires Valid() && forall i :: 0 <= i < |ps| ==> ps[i] in ports
      modifies this`recs, this`ports
      ensures Valid() && View() == Unregister(old(View()), t, ps)
    {
      var i := 0;
      ghost var was := View();
      while i < |ps|
        invariant 0 <= i <= |ps| && Valid() && ports.Keys == was.ports.Keys
        invariant forall q :: q in ports ==>
                    ports[q] == if q in ps[..i] && was.ports[q].receiver == Some(t)
                                  then was.ports[q].(receiver := None) else was.ports[q]
      {
        assert ps[..i + 1] == ps[..i] + [ps[i]];
        RecordSays(nodes, recs, lists, home, ports, ps[i]);
        if recs[ps[i]].receiver == Some(t) {
          SetReceiver(ps[i], None, recs[ps[i]].index);
        }
        i := i + 1;
      }
      assert ps[..i] == ps;
      assert ports == Unregister(was, t, ps).ports;
    }

    /** What a receiver does under the lock when it runs again. */
    method ResumeSection(t: Tid)
      requires Valid() && Sound(View()) && Enabled(View(), Resume(t))
      modifies this
      ensures Valid() && View() == Apply(old(View()), Resume(t))
    {
      var th := threads[t];
      var ps := th.pc.ports;
      assert ThreadOk(ports.Keys, threads.Keys, th);
      if th.pc.any {
        UnregisterSection(t, ps);
        assert ports.Keys == old(ports).Keys;
      }
      if th.wait.delivered {
        var p := ps[th.wait.index];
        received := received[p := received[p] + [th.wait.message]];
        threads := threads[t := th.(pc := Idle, wait := th.wait.(delivered := false))];
      } else {
        ScanSection(t, ps, th.pc.any);
      }
    }
  }

  lemma {:induction false} DistinctIndex(ps: seq<PortId>, i: nat)
    requires i < |ps| && forall j, k :: 0 <= j < k < |ps| ==> ps[j] != ps[k]
    ensures IndexOf(ps, ps[i]) == i
  {
    if i > 0 {
      assert ps[0] != ps[i];
      DistinctIndex(ps[1..], i - 1);
    }
  }
}
