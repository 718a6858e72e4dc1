/** The thread library of Project_1 as it runs: a pointer-linked ready queue and a thread table
    changed in place.  A context switch is the change of `currentThread`. */
module UthreadLibrary {
  import opened UthreadModel
  import opened UthreadTheorems

  class Node {
    var data: nat
    var next: Node?

    constructor (tid: nat)
      ensures data == tid && next == null
    {
      data, next := tid, null;
    }
  }

  // The singly linked queue of uthread.c, with pointers to both ends.
  class ReadyQueue {
    var first: Node?
    var last: Node?
    ghost var contents: seq<nat>  // what the queue stands for
    ghost var spine: seq<Node>    // the nodes from first to last
    ghost var Repr: set<Node>     // every node ever queued

    ghost predicate Valid()
      reads this, Repr
    {
      && |contents| == |spine|
      && (forall i :: 0 <= i < |spine| ==> spine[i] in Repr && spine[i].data == contents[i])
      && (spine == [] <==> first == null) && (spine == [] <==> last == null)
      && (spine != [] ==> first == spine[0] && last == spine[|spine| - 1] && spine[|spine| - 1].next == null)
      && (forall i :: 0 <= i < |spine| - 1 ==> spine[i].next == spine[i + 1])
      && (forall i, j :: 0 <= i < j < |spine| ==> spine[i] != spine[j])
    }

    constructor ()
      ensures Valid() && contents == []
    {
      first, last := null, null;
      contents, spine, Repr := [], [], {};
    }

    method Push(tid: nat)
      requires Valid()
      modifies this, Repr
      ensures Valid() && fresh(Repr - old(Repr))
      ensures contents == old(contents) + [tid]
    {
      var node := new Node(tid);
      if last == null {
        first := node;
        last := node;
      } else {
        last.next := node;
        last := node;
      }
      contents, spine := contents + [tid], spine + [node];
      Repr := Repr + {node};
    }

    // The head of the queue, or -1 when it is empty.
    method Pop() returns (tid: int)
      requires Valid()
      modifies this
      ensures Valid() && Repr == old(Repr)
      ensures if old(contents) == [] then tid == -1 && contents == []
              else tid == old(contents)[0] && contents == old(contents)[1..]
    {
      var top := first;
      if first == last {
        assert |spine| <= 1;
        first := null;
        last := null;
      } else {
        assert |spine| >= 2 && spine[0].next == spine[1];
        first := first.next;
      }
      if top == null {
        return -1;
      }
      contents, spine := contents[1..], spine[1..];
      assert first == null ==> |spine| == 0;
      tid := top.data;
    }
  }

  // uthread.c and time_slicing.c over one table, one queue and one current thread.
  class Library {
    const threads: array<Status>
    var currentThread: nat
    var numThreads: nat
    const active: ReadyQueue

    ghost predicate Valid()
      reads this, threads, active, active.Repr
    {
      active.Valid() && threads.Length == MAX_THREADS && View().Shape()
    }

    ghost function View(): Sched
      reads this, threads, active
    {
      Sched(threads[..], currentThread, numThreads, active.contents)
    }

    constructor ()
      ensures Valid() && Init(View())
    {
      threads := new Status[MAX_THREADS](_ => Ready);
      currentThread := 0;
      numThreads := 1;
      active := new ReadyQueue();
    }

    // Pop until an entry names a ready thread, or the queue runs out.
    method PopReady() returns (nextTid: int)
      requires Valid()
      modifies active
      ensures active.Valid() && active.Repr == old(active.Repr)
      ensures var s := old(View()); var k := FirstReady(s.status, s.queue);
              if k < |s.queue| then nextTid == s.queue[k] && active.contents == s.queue[k + 1..]
              else nextTid == -1 && active.contents == []
    {
      ghost var s := View();
      ghost var k := 0;
      hide FirstReady, ReadyQueue.Valid;
      nextTid := active.Pop();
      // The C test reads threads[-1] when the queue runs out; the value cannot matter.
      while nextTid != -1 && !threads[nextTid].Ready?
        invariant active.Valid() && active.Repr == old(active.Repr)
        invariant k <= |s.queue| && forall i :: 0 <= i < k ==> !s.status[s.queue[i]].Ready?
        invariant if k < |s.queue| then nextTid == s.queue[k] && active.contents == s.queue[k + 1..]
                  else nextTid == -1 && active.contents == []
        decreases |s.queue| - k
      {
        nextTid := active.Pop();
        k := k + 1;
      }
      FirstReadyIs(s.status, s.queue, k);
    }

    // A running thread becomes ready and joins the queue.
    method RequeueIfRunning()
      requires Valid()
      modifies threads, active, active.Repr
      ensures Valid() && fresh(active.Repr - old(active.Repr))
      ensures View() == StepAside(old(View()))
      ensures var c := old(currentThread);
              if old(threads[c]).Running? then
                threads[..] == old(threads[..])[c := Ready] && active.contents == old(active.contents) + [c]
              else threads[..] == old(threads[..]) && active.contents == old(active.contents)
    {
      if threads[currentThread].Running? {
        threads[currentThread] := Ready;
        active.Push(currentThread);
        assert threads[..] == old(threads[..])[currentThread := Ready];
      }
    }

    // Run the first ready thread of the queue, or the current one when there is none.
    method SwitchToReady()
      requires Valid()
      modifies this, threads, active
      ensures Valid() && active.Repr == old(active.Repr)
      ensures View() == Dispatch(old(View()))
    {
      ghost var before := View();
      hide FirstReady, ReadyQueue.Valid;
      var nextTid := PopReady();
      if nextTid == -1 {
        nextTid := currentThread;
      }
      currentThread := nextTid;
      threads[nextTid] := Running;
      assert threads[..] == before.status[nextTid := Running];
    }

    method UthreadYield()
      requires Valid()
      modifies this, threads, active, active.Repr
      ensures Valid() && fresh(active.Repr - old(active.Repr))
      ensures View() == DoYield(old(View()))
      ensures threads[currentThread].Running?
      ensures old(threads[currentThread]).Running? && currentThread != old(currentThread) ==>
                && threads[old(currentThread)].Ready? && active.contents != []
                && active.contents[|active.contents| - 1] == old(currentThread)
    {
      ghost var k := FirstCandidate(View(), 0);
      YieldDoes(View(), k);
      RequeueIfRunning();
      SwitchToReady();
    }

    // The caller steps aside and the new thread starts at once.
    method UthreadCreate() returns (newTid: nat)
      requires Valid() && numThreads < MAX_THREADS
      modifies this, threads, active, active.Repr
      ensures Valid() && fresh(active.Repr - old(active.Repr))
      ensures View() == DoCreate(old(View())) && newTid == old(numThreads)
    {
      newTid := numThreads;
      numThreads := numThreads + 1;
      threads[newTid] := Running;
      threads[currentThread] := Ready;
      active.Push(currentThread);
      currentThread := newTid;
      assert threads[..] == old(threads[..])[newTid := Running][old(currentThread) := Ready];
    }

    // What the new thread runs when its start routine ends.
    method ThreadReturned()
      requires Valid()
      modifies this, threads, active, active.Repr
      ensures Valid() && fresh(active.Repr - old(active.Repr))
      ensures View() == Do(old(View()), Return)
    {
      threads[currentThread] := Returned;
      assert threads[..] == old(threads[..])[currentThread := Returned];
      UthreadYield();
    }

    method UthreadTerminate(tid: nat)
      requires Valid() && tid < MAX_THREADS
      modifies threads
      ensures Valid() && View() == Do(old(View()), Terminate(tid))
    {
      threads[tid] := Terminated;
      assert threads[..] == old(threads[..])[tid := Terminated];
    }

    // The C function ends without a return statement after success: `left` is what is left in the
    // register of results.
    method UthreadSuspend(tid: nat, left: int) returns (rc: int)
      requires Valid() && tid < MAX_THREADS
      modifies threads
      ensures Valid() && View() == DoSuspend(old(View()), tid)
      ensures rc == if Finished(old(threads[tid])) then -1 else left
    {
      var status := threads[tid];
      if status.Terminated? || status.Joined? || status.Returned? {
        return -1;
      }
      threads[tid] := Suspended;
      assert threads[..] == old(threads[..])[tid := Suspended];
      rc := left;
    }

    // So does this one.
    method UthreadResume(tid: nat, left: int) returns (rc: int)
      requires Valid() && Legal(View(), Resume(tid))
      modifies threads, active, active.Repr
      ensures Valid() && fresh(active.Repr - old(active.Repr))
      ensures View() == DoResume(old(View()), tid)
      ensures rc == if old(threads[tid]).Suspended? then left else -1
    {
      if !threads[tid].Suspended? {
        return -1;
      }
      threads[tid] := Ready;
      assert threads[..] == old(threads[..])[tid := Ready];
      active.Push(tid);
      rc := left;
    }

    // One pass of the loop in uthread_join: yield while the thread is not finished, or mark it
    // joined.  The passes of a waiting join are yields of the calling thread.
    method UthreadJoinPass(tid: nat) returns (done: bool, rc: int)
      requires Valid()
      modifies this, threads, active, active.Repr
      ensures Valid() && fresh(active.Repr - old(active.Repr))
      ensures tid >= old(numThreads) ==> done && rc == -1 && View() == old(View())
      ensures tid < old(numThreads) ==>
                && done == Finished(old(threads[tid]))
                && View() == (if done then DoJoinDone(old(View()), tid) else DoYield(old(View())))
                && (done ==> (rc == 0 <==> !old(threads[tid]).Terminated?))
    {
      if tid >= numThreads {
        return true, -1;
      }
      if !threads[tid].Returned? && !threads[tid].Joined? && !threads[tid].Terminated? {
        UthreadYield();
        return false, 0;
      }
      if threads[tid].Terminated? {
        return true, -1;
      }
      threads[tid] := Joined;
      assert threads[..] == old(threads[..])[tid := Joined];
      return true, 0;
    }
  }

  lemma FirstReadyIs(status: seq<Status>, queue: seq<nat>, k: nat)
    requires forall i :: 0 <= i < |queue| ==> queue[i] < |status|
    requires k <= |queue| && forall i :: 0 <= i < k ==> !status[queue[i]].Ready?
    requires k < |queue| ==> status[queue[k]].Ready?
    ensures FirstReady(status, queue) == k
  {
  }
}
