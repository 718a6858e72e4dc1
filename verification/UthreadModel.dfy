/** The user thread library of Project_1 as a value: thread statuses, the current thread and the
    ready queue, which suspend, resume and terminate leave stale or duplicate entries in. */
module UthreadModel {

  const MAX_THREADS: nat := 100

  datatype Status = Ready | Running | Returned | Joined | Suspended | Terminated

  datatype Sched = Sched(status: seq<Status>, current: nat, num: nat, queue: seq<nat>) {
    predicate Shape() {
      && |status| == MAX_THREADS
      && current < num <= MAX_THREADS
      && forall i :: 0 <= i < |queue| ==> queue[i] < num
    }
  }

  // What a running program, or the alarm, can do to the scheduler.
  datatype Op =
    | Create
    | Yield                     // also the alarm handler, and each pass of a waiting join
    | Return                    // the start routine of the current thread ends
    | Suspend(tid: nat)
    | Resume(tid: nat)
    | Terminate(tid: nat)
    | JoinDone(tid: nat)        // the last pass of a join

  predicate Finished(st: Status) {
    st.Returned? || st.Joined? || st.Terminated?
  }

  // What the library does anything defined for: suspend and terminate take any slot of the table,
  // created or not; queueing a slot that no thread was created in is another matter.
  predicate Legal(s: Sched, op: Op) {
    && s.Shape()
    && match op {
         case Create => s.num < MAX_THREADS
         case Yield | Return => true
         case Suspend(t) => t < MAX_THREADS
         case Resume(t) => t < s.num || (t < MAX_THREADS && !s.status[t].Suspended?)
         case Terminate(t) => t < MAX_THREADS
         case JoinDone(t) => t < s.num && Finished(s.status[t])
       }
  }

  function SetStatus(s: Sched, tid: nat, st: Status): Sched
    requires tid < |s.status|
  {
    s.(status := s.status[tid := st])
  }

  function Push(s: Sched, tid: nat): Sched {
    s.(queue := s.queue + [tid])
  }

  // Where in the queue the first ready thread stands; the queue's length if there is none.
  function FirstReady(status: seq<Status>, queue: seq<nat>): (k: nat)
    requires forall i :: 0 <= i < |queue| ==> queue[i] < |status|
    ensures k <= |queue|
    ensures forall i :: 0 <= i < k ==> !status[queue[i]].Ready?
    ensures k < |queue| ==> status[queue[k]].Ready?
  {
    if queue == [] || status[queue[0]].Ready? then 0 else 1 + FirstReady(status, queue[1..])
  }

  // A running thread goes to the back of the queue.
  function StepAside(s: Sched): Sched
    requires s.Shape()
  {
    if s.status[s.current].Running? then Push(SetStatus(s, s.current, Ready), s.current) else s
  }

  // The first ready thread runs; if there is none, the current one goes on, whatever its status.
  function Dispatch(s: Sched): Sched
    requires s.Shape()
  {
    var k := FirstReady(s.status, s.queue);
    if k < |s.queue| then
      Sched(s.status[s.queue[k] := Running], s.queue[k], s.num, s.queue[k + 1..])
    else
      Sched(s.status[s.current := Running], s.current, s.num, [])
  }

  function DoYield(s: Sched): Sched
    requires s.Shape()
  {
    Dispatch(StepAside(s))
  }

  function DoCreate(s: Sched): Sched
    requires s.Shape() && s.num < MAX_THREADS
  {
    Sched(s.status[s.num := Running][s.current := Ready], s.num, s.num + 1, s.queue + [s.current])
  }

  function DoSuspend(s: Sched, tid: nat): Sched
    requires s.Shape() && tid < MAX_THREADS
  {
    if Finished(s.status[tid]) then s else SetStatus(s, tid, Suspended)
  }

  function DoResume(s: Sched, tid: nat): Sched
    requires s.Shape() && tid < MAX_THREADS
  {
    if s.status[tid].Suspended? then Push(SetStatus(s, tid, Ready), tid) else s
  }

  function DoJoinDone(s: Sched, tid: nat): Sched
    requires s.Shape() && tid < s.num
  {
    if s.status[tid].Terminated? then s else SetStatus(s, tid, Joined)
  }

  function Do(s: Sched, op: Op): Sched
    requires Legal(s, op)
  {
    match op
    case Create => DoCreate(s)
    case Yield => DoYield(s)
    case Return => DoYield(SetStatus(s, s.current, Returned))
    case Suspend(t) => DoSuspend(s, t)
    case Resume(t) => DoResume(s, t)
    case Terminate(t) => SetStatus(s, t, Terminated)
    case JoinDone(t) => DoJoinDone(s, t)
  }

  // The static initial values: thread 0 is current, never queued, with status 0.
  predicate Init(s: Sched) {
    s.Shape() && s.current == 0 && s.num == 1 && s.queue == [] && s.status[0].Ready?
  }

  // ----- the invariant -----

  // Before the first create, yield or resume the main thread has status 0, which reads as ready.
  predicate Unstarted(s: Sched) {
    s.num == 1 && s.queue == []
  }

  ghost predicate ReadyAreQueued(s: Sched)
    requires s.Shape()
  {
    forall t :: 0 <= t < s.num && s.status[t].Ready? ==> t in s.queue || Unstarted(s)
  }

  ghost predicate RunningIsCurrent(s: Sched)
    requires s.Shape()
  {
    forall t :: 0 <= t < s.num && s.status[t].Running? ==> t == s.current
  }

  ghost predicate Inv(s: Sched) {
    s.Shape() && ReadyAreQueued(s) && RunningIsCurrent(s)
  }
}
