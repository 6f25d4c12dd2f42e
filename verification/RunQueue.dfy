/**
A CPU's run queue (kernel/sched.c, `runq_*`): a singly linked list threaded
through the queued threads, ordered by virtual deadline, then eligible time,
then enqueue sequence number, then thread id.

`Threads` is the queue as a sequence; the pointers, the tail and the count are
proved to agree with it after every operation.
*/
module RunQueues {
  import opened Common

  datatype SchedClass = KernelClass | ServerClass | UserClass | BatchClass | IdleClass

  datatype Key = Key(deadline: nat, eligible: nat, seqNo: nat, tid: nat)

  /** The `after` test of runq_push. */
  predicate After(a: Key, b: Key) {
    || a.deadline > b.deadline
    || (a.deadline == b.deadline && a.eligible > b.eligible)
    || (a.deadline == b.deadline && a.eligible == b.eligible && a.seqNo > b.seqNo)
    || (a.deadline == b.deadline && a.eligible == b.eligible && a.seqNo == b.seqNo && a.tid > b.tid)
  }

  predicate Sorted(keys: seq<Key>) {
    forall i, j :: 0 <= i < j < |keys| ==> After(keys[j], keys[i])
  }

  /** Where runq_push stops: before the first entry the new key does not come after. */
  function InsertPos(keys: seq<Key>, k: Key): (n: nat)
    ensures n <= |keys|
    ensures forall i :: 0 <= i < n ==> After(k, keys[i])
    ensures n < |keys| ==> !After(k, keys[n])
  {
    if keys == [] || !After(k, keys[0]) then 0 else 1 + InsertPos(keys[1..], k)
  }

  lemma InsertPosIs(keys: seq<Key>, k: Key, n: nat)
    requires n <= |keys|
    requires forall i :: 0 <= i < n ==> After(k, keys[i])
    requires n < |keys| ==> !After(k, keys[n])
    ensures InsertPos(keys, k) == n
  {
  }

  /** Inserting at that place keeps a queue strictly sorted. */
  lemma InsertKeepsSorted(keys: seq<Key>, k: Key)
    requires Sorted(keys)
    requires forall i :: 0 <= i < |keys| ==> keys[i].tid != k.tid
    ensures Sorted(InsertAt(keys, InsertPos(keys, k), k))
  {
    var n := InsertPos(keys, k);
    forall i | n <= i < |keys|
      ensures After(keys[i], k)
    {
      assert After(keys[n], k);
      assert i == n || After(keys[i], keys[n]);
    }
  }

  lemma RemoveKeepsSorted(keys: seq<Key>, n: nat)
    requires Sorted(keys) && n < |keys|
    ensures Sorted(RemoveAt(keys, n))
  {
  }

  class Thread {
    var tid: nat
    var runNext: Thread?
    var vruntime: nat
    var deadline: nat
    var eligible: nat
    var seqNo: nat
    var cls: SchedClass
    var mask: set<nat>

    function AsKey(): Key
      reads `tid, `deadline, `eligible, `seqNo
    {
      Key(deadline, eligible, seqNo, tid)
    }

    /** Eligible for being pulled to another CPU. */
    predicate Pullable(cpu: nat)
      reads `cls, `mask
    {
      (cls.UserClass? || cls.BatchClass?) && cpu in mask
    }
  }

  /** Distinct threads, each pointing to the next and the last to none. */
  ghost predicate Chained(ts: seq<Thread>)
    reads ts
  {
    && (forall i {:trigger ts[i].runNext} :: 0 <= i < |ts| - 1 ==> ts[i].runNext == ts[i + 1])
    && (ts != [] ==> ts[|ts| - 1].runNext == null)
    && (forall i, j :: 0 <= i < j < |ts| ==> ts[i] != ts[j])
  }

  class RunQueue {
    var head: Thread?
    var tail: Thread?
    var count: nat
    var minVruntime: nat
    ghost var Threads: seq<Thread>
    ghost var Keys: seq<Key>

    ghost predicate Linked()
      reads this, Threads
    {
      && head == (if Threads == [] then null else Threads[0])
      && tail == (if Threads == [] then null else Threads[|Threads| - 1])
      && count == |Threads|
      && Chained(Threads)
    }

    ghost predicate Keyed()
      reads this, Threads
    {
      |Keys| == |Threads| && forall i :: 0 <= i < |Keys| ==> Keys[i] == Threads[i].AsKey()
    }

    ghost predicate Valid()
      reads this, Threads
    {
      Linked() && Keyed() && Sorted(Keys)
    }

    constructor ()
      ensures Valid() && Threads == [] && minVruntime == 0
    {
      head, tail, count, minVruntime, Threads, Keys := null, null, 0, 0, [], [];
    }

    /** Walk past every thread the new one comes after. */
    method FindPlace(thread: Thread) returns (before: Thread?, queued: Thread?, ghost n: nat)
      requires Linked() && Keyed()
      ensures n == InsertPos(Keys, thread.AsKey())
      ensures queued == (if n < |Threads| then Threads[n] else null)
      ensures before == (if n > 0 then Threads[n - 1] else null)
    {
      before, queued, n := null, head, 0;
      while queued != null && After(thread.AsKey(), queued.AsKey())
        invariant 0 <= n <= |Threads|
        invariant queued == (if n < |Threads| then Threads[n] else null)
        invariant before == (if n > 0 then Threads[n - 1] else null)
        invariant forall i :: 0 <= i < n ==> After(thread.AsKey(), Threads[i].AsKey())
        decreases |Threads| - n
      {
        before, queued := queued, queued.runNext;
        n := n + 1;
      }
      InsertPosIs(Keys, thread.AsKey(), n);
    }

    method LinkIn(before: Thread?, queued: Thread?, thread: Thread, ghost n: nat)
      requires Linked() && thread !in Threads && n <= |Threads|
      requires queued == (if n < |Threads| then Threads[n] else null)
      requires before == (if n > 0 then Threads[n - 1] else null)
      modifies this`head, this`tail, this`count, this`Threads, thread`runNext, Threads`runNext
      ensures Linked()
      ensures Threads == InsertAt(old(Threads), n, thread)
    {
      ghost var was := Threads;
      thread.runNext := queued;
      if before == null {
        head := thread;
      } else {
        before.runNext := thread;
      }
      if thread.runNext == null || tail == null {
        tail := thread;
      }
      count := count + 1;
      Threads := InsertAt(Threads, n, thread);
      assert forall i :: 0 <= i < n ==> Threads[i] == was[i];
      assert Threads[n] == thread;
      assert forall i :: n < i < |Threads| ==> Threads[i] == was[i - 1];
    }

    method LinkInKeyed(before: Thread?, queued: Thread?, thread: Thread, ghost n: nat)
      requires Linked() && Keyed() && thread !in Threads && n <= |Threads|
      requires queued == (if n < |Threads| then Threads[n] else null)
      requires before == (if n > 0 then Threads[n - 1] else null)
      modifies this`head, this`tail, this`count, this`Threads, this`Keys, thread`runNext, Threads`runNext
      ensures Linked() && Keyed()
      ensures Threads == InsertAt(old(Threads), n, thread) && Keys == InsertAt(old(Keys), n, thread.AsKey())
    {
      ghost var was, keys, key := Threads, Keys, thread.AsKey();
      LinkIn(before, queued, thread, n);
      Keys := InsertAt(keys, n, key);
      forall i | 0 <= i < |Keys|
        ensures Keys[i] == Threads[i].AsKey()
      {
        if i < n {
          assert Threads[i] == was[i];
        } else if i > n {
          assert Threads[i] == was[i - 1];
        }
      }
    }

    /** runq_push */
    method Push(thread: Thread)
      requires Valid() && thread !in Threads
      requires forall i :: 0 <= i < |Threads| ==> Threads[i].tid != thread.tid
      modifies this`head, this`tail, this`count, this`Threads, this`Keys, thread`runNext, Threads`runNext
      ensures Valid()
      ensures Threads == InsertAt(old(Threads), InsertPos(old(Keys), thread.AsKey()), thread)
      ensures Keys == InsertAt(old(Keys), InsertPos(old(Keys), thread.AsKey()), thread.AsKey())
    {
      InsertKeepsSorted(Keys, thread.AsKey());
      var before, queued, n := FindPlace(thread);
      LinkInKeyed(before, queued, thread, n);
    }

    /** runq_pop: the first thread, and the queue's virtual time catches up with it. */
    method Pop() returns (thread: Thread?)
      requires Valid()
      modifies this, Threads`runNext
      ensures Valid()
      ensures old(Threads) == [] ==> thread == null && Threads == [] && minVruntime == old(minVruntime)
      ensures old(Threads) != [] ==>
                && thread == old(Threads)[0] && Threads == old(Threads)[1..] && thread.runNext == null
                && minVruntime == (if thread.vruntime > old(minVruntime) then thread.vruntime else old(minVruntime))
    {
      thread := head;
      if thread == null {
        return;
      }
      head := thread.runNext;
      if head == null {
        tail := null;
      }
      thread.runNext := null;
      count := count - 1;
      if thread.vruntime > minVruntime {
        minVruntime := thread.vruntime;
      }
      Threads, Keys := Threads[1..], Keys[1..];
    }

    /** Take the thread at position `n`, whose predecessor is `before`, out of the chain. */
    method Bypass(before: Thread?, thread: Thread, ghost n: nat)
      requires Linked() && n < |Threads| && Threads[n] == thread
      requires before == (if n > 0 then Threads[n - 1] else null)
      modifies this`head, this`Threads, Threads`runNext
      ensures Threads == RemoveAt(old(Threads), n)
      ensures thread !in Threads
      ensures thread.runNext == old(thread.runNext)
      ensures head == (if Threads == [] then null else Threads[0])
      ensures Chained(Threads)
    {
      ghost var was := Threads;
      if before == null {
        head := thread.runNext;
      } else {
        before.runNext := thread.runNext;
      }
      Threads := RemoveAt(Threads, n);
      assert forall i :: 0 <= i < n ==> Threads[i] == was[i];
      assert forall i :: n <= i < |Threads| ==> Threads[i] == was[i + 1];
    }

    /** The tail is found again by walking the whole chain. */
    method Rescan()
      requires Chained(Threads) && head == (if Threads == [] then null else Threads[0])
      modifies this`tail
      ensures tail == (if Threads == [] then null else Threads[|Threads| - 1])
    {
      tail := null;
      var scan := head;
      ghost var k := 0;
      while scan != null
        invariant 0 <= k <= |Threads|
        invariant scan == (if k < |Threads| then Threads[k] else null)
        invariant tail == (if k > 0 then Threads[k - 1] else null)
        decreases |Threads| - k
      {
        tail := scan;
        scan := scan.runNext;
        k := k + 1;
      }
    }

    method UnlinkLinked(before: Thread?, thread: Thread, ghost n: nat)
      requires Linked() && n < |Threads| && Threads[n] == thread
      requires before == (if n > 0 then Threads[n - 1] else null)
      modifies this`head, this`tail, this`count, this`Threads, Threads`runNext
      ensures Linked()
      ensures Threads == RemoveAt(old(Threads), n) && thread.runNext == null
    {
      Bypass(before, thread, n);
      if tail == thread {
        Rescan();
      } else {
        assert Threads[|Threads| - 1] == old(Threads)[|old(Threads)| - 1];
      }
      thread.runNext := null;
      if count > 0 {
        count := count - 1;
      }
    }

    method UnlinkKeyed(before: Thread?, thread: Thread, ghost n: nat)
      requires Linked() && Keyed() && n < |Threads| && Threads[n] == thread
      requires before == (if n > 0 then Threads[n - 1] else null)
      modifies this`head, this`tail, this`count, this`Threads, this`Keys, Threads`runNext
      ensures Linked() && Keyed()
      ensures Threads == RemoveAt(old(Threads), n) && Keys == RemoveAt(old(Keys), n) && thread.runNext == null
    {
      UnlinkLinked(before, thread, n);
      Keys := RemoveAt(Keys, n);
    }

    /** Take a thread out of the list and clear its link. */
    method Unlink(before: Thread?, thread: Thread, ghost n: nat)
      requires Valid() && n < |Threads| && Threads[n] == thread
      requires before == (if n > 0 then Threads[n - 1] else null)
      modifies this`head, this`tail, this`count, this`Threads, this`Keys, Threads`runNext
      ensures Valid()
      ensures Threads == RemoveAt(old(Threads), n) && thread.runNext == null
    {
      RemoveKeepsSorted(Keys, n);
      UnlinkKeyed(before, thread, n);
    }

    /** runq_remove */
    method Remove(thread: Thread) returns (found: bool)
      requires Valid()
      modifies this`head, this`tail, this`count, this`Threads, this`Keys, Threads`runNext
      ensures Valid()
      ensures found <==> thread in old(Threads)
      ensures !found ==> Threads == old(Threads)
      ensures found ==> exists n :: 0 <= n < |old(Threads)| && old(Threads)[n] == thread
                                    && Threads == RemoveAt(old(Threads), n)
    {
      var before: Thread?, link := null, head;
      ghost var n := 0;
      while link != null
        invariant 0 <= n <= |Threads| && Valid() && Threads == old(Threads)
        invariant link == (if n < |Threads| then Threads[n] else null)
        invariant before == (if n > 0 then Threads[n - 1] else null)
        invariant forall i :: 0 <= i < n ==> Threads[i] != thread
        decreases |Threads| - n
      {
        if link == thread {
          Unlink(before, thread, n);
          return true;
        }
        assert link == Threads[n];
        before, link := link, link.runNext;
        n := n + 1;
      }
      return false;
    }

    /** runq_remove_first_eligible */
    method RemoveFirstEligible(cpu: nat) returns (thread: Thread?)
      requires Valid()
      modifies this`head, this`tail, this`count, this`Threads, this`Keys, Threads`runNext
      ensures Valid()
      ensures thread == null ==> Threads == old(Threads) && forall i :: 0 <= i < |Threads| ==> !Threads[i].Pullable(cpu)
      ensures thread != null ==>
                && thread.Pullable(cpu)
                && exists n :: 0 <= n < |old(Threads)| && old(Threads)[n] == thread
                               && Threads == RemoveAt(old(Threads), n)
                               && forall i :: 0 <= i < n ==> !old(Threads)[i].Pullable(cpu)
    {
      var before: Thread?, link := null, head;
      ghost var n := 0;
      while link != null
        invariant 0 <= n <= |Threads| && Valid() && Threads == old(Threads)
        invariant link == (if n < |Threads| then Threads[n] else null)
        invariant before == (if n > 0 then Threads[n - 1] else null)
        invariant forall i :: 0 <= i < n ==> !Threads[i].Pullable(cpu)
        decreases |Threads| - n
      {
        if link.Pullable(cpu) {
          thread := link;
          Unlink(before, link, n);
          return;
        }
        assert link == Threads[n];
        before, link := link, link.runNext;
        n := n + 1;
      }
      thread := null;
    }
  }
}
