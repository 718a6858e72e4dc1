/** No ready thread is lost, and none waits longer than its place in the queue. */
module UthreadTheorems {
  import opened UthreadModel

  // ----- every step keeps the invariant -----

  lemma StepAsideKeeps(s: Sched)
    requires Inv(s)
    ensures Inv(StepAside(s))
    ensures !StepAside(s).status[s.current].Running?
  {
  }

  lemma DispatchKeeps(s: Sched)
    requires Inv(s) && !s.status[s.current].Running?
    ensures Inv(Dispatch(s))
  {
  }

  lemma YieldKeepsInv(s: Sched)
    requires Inv(s)
    ensures Inv(DoYield(s))
  {
    StepAsideKeeps(s);
    DispatchKeeps(StepAside(s));
  }

  lemma CreateKeepsInv(s: Sched)
    requires Inv(s) && s.num < MAX_THREADS
    ensures Inv(DoCreate(s))
  {
  }

  lemma StepKeepsInv(s: Sched, op: Op)
    requires Inv(s) && Legal(s, op)
    ensures Inv(Do(s, op))
  {
    match op {
      case Create =>
        CreateKeepsInv(s);
      case Yield =>
        YieldKeepsInv(s);
      case Return =>
        YieldKeepsInv(SetStatus(s, s.current, Returned));
      case Resume(t) =>
        var s' := Do(s, op);
        if s.status[t].Suspended? {
          assert s'.queue[|s.queue|] == t;
        }
      case _ =>
    }
  }

  // ----- bounded waiting -----

  function Position(queue: seq<nat>, t: nat): (j: nat)
    ensures j <= |queue|
    ensures j < |queue| ==> queue[j] == t
    ensures forall i :: 0 <= i < j ==> queue[i] != t
  {
    if queue == [] || queue[0] == t then 0 else 1 + Position(queue[1..], t)
  }

  lemma PositionIs(queue: seq<nat>, t: nat, j: nat)
    requires j < |queue| && queue[j] == t && forall i :: 0 <= i < j ==> queue[i] != t
    ensures Position(queue, t) == j
  {
  }

  // ----- what each call does, thread by thread -----

  // A thread a yield may dispatch: a ready one or, where it is running, the caller, which may have an entry of an
  // earlier wait in the queue.
  predicate Candidate(s: Sched, t: nat)
    requires s.Shape() && t < s.num
  {
    s.status[t].Ready? || (t == s.current && s.status[t].Running?)
  }

  // Entry k is the first of the queue that names one; k is the length of the queue if none does.
  predicate NextUp(s: Sched, k: nat)
    requires s.Shape()
  {
    && k <= |s.queue| && (k < |s.queue| ==> Candidate(s, s.queue[k]))
    && forall i :: 0 <= i < k ==> !Candidate(s, s.queue[i])
  }

  // A yield runs the first candidate of the queue. What stood before it is gone, what stood behind it stays, and a
  // caller that was running comes last; it is ready unless it was the candidate itself. No other thread changes
  // status. Without a candidate the caller runs on, whatever its status, and the queue is empty.
  lemma YieldDoes(s: Sched, k: nat)
    requires s.Shape() && NextUp(s, k)
    ensures var s', c, q := DoYield(s), s.current, s.queue;
            && s'.num == s.num && |s'.status| == |s.status|
            && (k < |q| ==>
                  && s'.current == q[k] && s'.status[q[k]].Running?
                  && s'.queue == (if s.status[c].Running? then q[k + 1..] + [c] else q[k + 1..])
                  && (c != q[k] ==> s'.status[c] == if s.status[c].Running? then Ready else s.status[c])
                  && forall t :: 0 <= t < |s.status| && t != c && t != q[k] ==> s'.status[t] == s.status[t])
            && (k == |q| ==>
                  && s'.current == c && s'.status[c].Running? && s'.queue == []
                  && forall t :: 0 <= t < |s.status| && t != c ==> s'.status[t] == s.status[t])
  {
    var c, q := s.current, s.queue;
    var a := if s.status[c].Running? then s.status[c := Ready] else s.status;
    var w := if s.status[c].Running? then q + [c] else q;
    AfterAside(s, k, a, w);
    if k < |q| && s.status[c].Running? {
      assert w[k + 1..] == q[k + 1..] + [c];
    }
    hide FirstReady;
  }

  lemma AfterAside(s: Sched, k: nat, a: seq<Status>, w: seq<nat>)
    requires s.Shape() && NextUp(s, k)
    requires a == if s.status[s.current].Running? then s.status[s.current := Ready] else s.status
    requires w == if s.status[s.current].Running? then s.queue + [s.current] else s.queue
    ensures |a| == |s.status| && forall i :: 0 <= i < |w| ==> w[i] < |a|
    ensures FirstReady(a, w) == k
  {
    FirstReadyAt(a, w, k);
  }

  lemma FirstReadyAt(status: seq<Status>, queue: seq<nat>, k: nat)
    requires forall i :: 0 <= i < |queue| ==> queue[i] < |status|
    requires k <= |queue| && (forall i :: 0 <= i < k ==> !status[queue[i]].Ready?)
    requires k < |queue| ==> status[queue[k]].Ready?
    ensures FirstReady(status, queue) == k
  {
  }

  // Where another thread is ready, a yield runs the first candidate of the queue; it never runs a thread other than
  // the caller that is not ready, and nothing but the two threads changes status.
  lemma YieldDispatchesReady(s: Sched)
    requires Inv(s)
    ensures var s', c := DoYield(s), s.current;
            && ((exists t :: 0 <= t < s.num && t != c && s.status[t].Ready?) ==>
                  exists k :: 0 <= k < |s.queue| && NextUp(s, k) && s'.current == s.queue[k])
            && (s'.current != c ==> s.status[s'.current].Ready?)
            && s'.status[s'.current].Running?
            && forall t :: 0 <= t < |s.status| && t != c && t != s'.current ==> s'.status[t] == s.status[t]
  {
    var k := FirstCandidate(s, 0);
    YieldDoes(s, k);
    if t :| 0 <= t < s.num && t != s.current && s.status[t].Ready? {
      assert t in s.queue;
      var i :| 0 <= i < |s.queue| && s.queue[i] == t;
      assert Candidate(s, s.queue[i]);
    }
  }

  lemma {:induction false} FirstCandidate(s: Sched, i: nat) returns (k: nat)
    requires s.Shape() && i <= |s.queue| && forall j :: 0 <= j < i ==> !Candidate(s, s.queue[j])
    ensures NextUp(s, k)
    decreases |s.queue| - i
  {
    if i == |s.queue| || Candidate(s, s.queue[i]) {
      k := i;
    } else {
      k := FirstCandidate(s, i + 1);
    }
  }

  // Where the caller was running and some queued thread is ready, the caller is ready afterwards, last in the queue,
  // and another thread runs, exactly when no entry of the caller's own stands before the first ready one.
  lemma CallerGoesLast(s: Sched, k: nat)
    requires s.Shape() && s.status[s.current].Running?
    requires k < |s.queue| && s.status[s.queue[k]].Ready?
    requires forall i :: 0 <= i < k ==> !s.status[s.queue[i]].Ready?
    ensures var s' := DoYield(s);
            && s'.queue != [] && s'.queue[|s'.queue| - 1] == s.current
            && (s'.status[s.current].Ready? <==> s.current !in s.queue[..k])
            && (s'.current == s.queue[k] <==> s.current !in s.queue[..k])
            && (s.current !in s.queue[..k] ==> s'.queue == s.queue[k + 1..] + [s.current])
  {
    if s.current in s.queue[..k] {
      var i :| 0 <= i < k && s.queue[..k][i] == s.current;
      assert s.queue[i] == s.current;
      YieldDoes(s, Position(s.queue, s.current));
    } else {
      assert forall i :: 0 <= i < k ==> s.queue[..k][i] == s.queue[i];
      YieldDoes(s, k);
    }
  }

  // The calls that do not look for another thread: create runs the new thread and queues the caller, suspend and
  // terminate and the end of a join change one status and no queue, resume makes a suspended thread ready and queues
  // it. Nothing else changes.
  lemma CallsDo(s: Sched, op: Op)
    requires Legal(s, op) && !op.Yield? && !op.Return?
    ensures var s' := Do(s, op);
            && |s'.status| == |s.status|
            && match op {
                 case Create =>
                   && s'.current == s.num && s'.num == s.num + 1 && s'.queue == s.queue + [s.current]
                   && s'.status[s.num].Running? && s'.status[s.current].Ready?
                   && forall t :: 0 <= t < |s.status| && t != s.num && t != s.current ==> s'.status[t] == s.status[t]
                 case Suspend(u) =>
                   && s'.current == s.current && s'.num == s.num && s'.queue == s.queue
                   && (s'.status[u].Suspended? <==>
                         !s.status[u].Returned? && !s.status[u].Joined? && !s.status[u].Terminated?)
                   && (!s'.status[u].Suspended? ==> s'.status[u] == s.status[u])
                   && forall t :: 0 <= t < |s.status| && t != u ==> s'.status[t] == s.status[t]
                 case Resume(u) =>
                   && s'.current == s.current && s'.num == s.num
                   && s'.queue == (if s.status[u].Suspended? then s.queue + [u] else s.queue)
                   && s'.status[u] == (if s.status[u].Suspended? then Ready else s.status[u])
                   && forall t :: 0 <= t < |s.status| && t != u ==> s'.status[t] == s.status[t]
                 case Terminate(u) =>
                   && s'.current == s.current && s'.num == s.num && s'.queue == s.queue
                   && s'.status[u].Terminated?
                   && forall t :: 0 <= t < |s.status| && t != u ==> s'.status[t] == s.status[t]
                 case JoinDone(u) =>
                   && s'.current == s.current && s'.num == s.num && s'.queue == s.queue
                   && s'.status[u] == (if s.status[u].Terminated? then Terminated else Joined)
                   && forall t :: 0 <= t < |s.status| && t != u ==> s'.status[t] == s.status[t]
                 case _ => false
               }
  {
  }

  // The end of a start routine: the caller has returned and no entry is made for it. The first ready thread of the
  // queue runs, and what stood before it is gone; without one the caller goes on as if it were running.
  lemma ReturnDoes(s: Sched, k: nat)
    requires s.Shape() && k <= |s.queue| && (forall i :: 0 <= i < k ==> !OtherReady(s, s.queue[i]))
    requires k < |s.queue| ==> OtherReady(s, s.queue[k])
    ensures var s', c, q := Do(s, Return), s.current, s.queue;
            && s'.num == s.num && |s'.status| == |s.status|
            && (k < |q| ==>
                  && s'.current == q[k] && s'.status[q[k]].Running? && s'.status[c].Returned? && s'.queue == q[k + 1..]
                  && forall t :: 0 <= t < |s.status| && t != c && t != q[k] ==> s'.status[t] == s.status[t])
            && (k == |q| ==>
                  && s'.current == c && s'.status[c].Running? && s'.queue == []
                  && forall t :: 0 <= t < |s.status| && t != c ==> s'.status[t] == s.status[t])
  {
    YieldDoes(SetStatus(s, s.current, Returned), k);
  }

  predicate OtherReady(s: Sched, t: nat)
    requires s.Shape() && t < s.num
  {
    t != s.current && s.status[t].Ready?
  }

  predicate Switches(op: Op) {
    op.Yield? || op.Return?
  }

  // Ready, not current, and at place j of the queue.
  ghost predicate WaitsAt(s: Sched, t: nat, j: nat) {
    && Inv(s) && t < s.num && t != s.current
    && s.status[t].Ready? && j < |s.queue| && Position(s.queue, t) == j
  }

  predicate Dispatched(s: Sched, t: nat) {
    s.current == t && t < |s.status| && s.status[t].Running?
  }

  lemma WaitingIsQueued(s: Sched, t: nat)
    requires Inv(s) && t < s.num && t != s.current && s.status[t].Ready?
    ensures WaitsAt(s, t, Position(s.queue, t))
  {
  }

  lemma DispatchAdvances(s: Sched, t: nat, j: nat)
    requires WaitsAt(s, t, j) && !s.status[s.current].Running?
    ensures var s' := Dispatch(s);
            Dispatched(s', t) || exists j' :: 0 <= j' < j && WaitsAt(s', t, j')
  {
    DispatchKeeps(s);
    var k := FirstReady(s.status, s.queue);
    var s' := Dispatch(s);
    assert k <= j;
    if k < j {
      PositionIs(s'.queue, t, j - (k + 1));
      assert WaitsAt(s', t, j - (k + 1));
    }
  }

  lemma YieldAdvances(s: Sched, t: nat, j: nat)
    requires WaitsAt(s, t, j)
    ensures var s' := DoYield(s);
            Dispatched(s', t) || exists j' :: 0 <= j' < j && WaitsAt(s', t, j')
  {
    StepAsideKeeps(s);
    PositionIs(StepAside(s).queue, t, j);
    DispatchAdvances(StepAside(s), t, j);
  }

  // A step that does not stop the thread leaves it waiting at its place or, if it is a yield,
  // nearer or dispatched.
  lemma StepAdvances(s: Sched, op: Op, t: nat, j: nat)
    requires WaitsAt(s, t, j) && Legal(s, op)
    requires op != Suspend(t) && op != Terminate(t)
    ensures var s' := Do(s, op);
            if Switches(op) then Dispatched(s', t) || exists j' :: 0 <= j' < j && WaitsAt(s', t, j')
            else WaitsAt(s', t, j)
  {
    StepKeepsInv(s, op);
    match op {
      case Yield =>
        YieldAdvances(s, t, j);
      case Return =>
        YieldAdvances(SetStatus(s, s.current, Returned), t, j);
      case _ =>
        StepWaits(s, op, t, j);
    }
  }

  // Calls that do not switch leave it where it is.
  lemma StepWaits(s: Sched, op: Op, t: nat, j: nat)
    requires WaitsAt(s, t, j) && Legal(s, op) && !Switches(op) && Inv(Do(s, op))
    requires op != Suspend(t) && op != Terminate(t)
    ensures WaitsAt(Do(s, op), t, j)
  {
    PositionIs(Do(s, op).queue, t, j);
  }

  // ----- runs -----

  predicate LegalRun(s: Sched, ops: seq<Op>)
    decreases |ops|
  {
    ops == [] || (Legal(s, ops[0]) && LegalRun(Do(s, ops[0]), ops[1..]))
  }

  function Run(s: Sched, ops: seq<Op>): Sched
    requires LegalRun(s, ops)
    decreases |ops|
  {
    if ops == [] then s else Run(Do(s, ops[0]), ops[1..])
  }

  function Yields(ops: seq<Op>): nat {
    if ops == [] then 0 else (if Switches(ops[0]) then 1 else 0) + Yields(ops[1..])
  }

  lemma {:induction false} PrefixLegal(s: Sched, ops: seq<Op>, k: nat)
    requires LegalRun(s, ops) && k <= |ops|
    ensures LegalRun(s, ops[..k])
    decreases |ops|
  {
    if k > 0 {
      PrefixLegal(Do(s, ops[0]), ops[1..], k - 1);
      assert ops[..k][1..] == ops[1..][..k - 1];
    }
  }

  lemma {:induction false} RunKeepsInv(s: Sched, ops: seq<Op>)
    requires Inv(s) && LegalRun(s, ops)
    ensures Inv(Run(s, ops))
    decreases |ops|
  {
    if ops != [] {
      StepKeepsInv(s, ops[0]);
      RunKeepsInv(Do(s, ops[0]), ops[1..]);
    }
  }

  lemma InitInv(s: Sched)
    requires Init(s)
    ensures Inv(s)
  {
  }

  // No ready thread is lost: after any run from the start, every ready thread but the current
  // one has an entry in the queue, and only the current thread can be running.
  lemma NoReadyThreadIsLost(s: Sched, ops: seq<Op>)
    requires Init(s) && LegalRun(s, ops)
    ensures var s' := Run(s, ops);
            && s'.Shape()
            && (forall t :: 0 <= t < s'.num && t != s'.current && s'.status[t].Ready? ==> t in s'.queue)
            && (forall t :: 0 <= t < s'.num && s'.status[t].Running? ==> t == s'.current)
  {
    InitInv(s);
    RunKeepsInv(s, ops);
  }

  // The thread has been dispatched by the end of some prefix with at most `limit` yields.
  ghost predicate DispatchedWithin(s: Sched, ops: seq<Op>, t: nat, limit: nat)
    requires LegalRun(s, ops)
  {
    exists k :: 0 < k <= |ops| && LegalRun(s, ops[..k]) && Yields(ops[..k]) <= limit && Dispatched(Run(s, ops[..k]), t)
  }

  // Bounded waiting: a ready thread at place j is dispatched within j + 1 yields of any run in
  // which nobody suspends or terminates it.
  lemma {:induction false} BoundedWaiting(s: Sched, ops: seq<Op>, t: nat, j: nat)
    requires WaitsAt(s, t, j) && LegalRun(s, ops) && Yields(ops) >= j + 1
    requires forall i :: 0 <= i < |ops| ==> ops[i] != Suspend(t) && ops[i] != Terminate(t)
    ensures DispatchedWithin(s, ops, t, j + 1)
    decreases |ops|
  {
    var op, rest := ops[0], ops[1..];
    var s1 := Do(s, op);
    StepAdvances(s, op, t, j);
    if Switches(op) {
      if Dispatched(s1, t) {
        OneStepRun(s, ops);
        assert DispatchedWithin(s, ops, t, j + 1);
      } else {
        var j' :| 0 <= j' < j && WaitsAt(s1, t, j');
        BoundedWaiting(s1, rest, t, j');
        DispatchedLater(s, ops, t, j' + 1);
      }
    } else {
      BoundedWaiting(s1, rest, t, j);
      DispatchedLater(s, ops, t, j + 1);
    }
  }

  lemma OneStepRun(s: Sched, ops: seq<Op>)
    requires LegalRun(s, ops) && ops != []
    ensures LegalRun(s, ops[..1]) && Run(s, ops[..1]) == Do(s, ops[0])
    ensures Yields(ops[..1]) == if Switches(ops[0]) then 1 else 0
  {
  }

  lemma DispatchedLater(s: Sched, ops: seq<Op>, t: nat, limit: nat)
    requires LegalRun(s, ops) && ops != []
    requires DispatchedWithin(Do(s, ops[0]), ops[1..], t, limit)
    ensures DispatchedWithin(s, ops, t, limit + if Switches(ops[0]) then 1 else 0)
  {
    var s1, rest := Do(s, ops[0]), ops[1..];
    var k :| 0 < k <= |rest| && LegalRun(s1, rest[..k]) && Yields(rest[..k]) <= limit &&
             Dispatched(Run(s1, rest[..k]), t);
    assert ops[..k + 1][1..] == rest[..k];
    PrefixLegal(s, ops, k + 1);
  }

  // ----- terminate -----

  // A terminated thread stays terminated until it, still being current, creates a thread,
  // returns, or yields when no thread is ready.
  lemma TerminatedStays(s: Sched, op: Op, t: nat)
    requires Inv(s) && Legal(s, op) && t < s.num && s.status[t].Terminated?
    ensures Do(s, op).status[t].Terminated? <==>
            !(t == s.current && (op.Create? || op.Return? ||
              (op.Yield? && forall u :: 0 <= u < |s.queue| ==> !s.status[s.queue[u]].Ready?)))
  {
  }

  // From the start: the main thread terminates itself, goes on, and creates a thread, which makes it
  // ready again.
  lemma TerminatedIsRevived(s: Sched)
    requires Init(s)
    ensures var ops := [Terminate(0), Create];
            && LegalRun(s, ops[..1]) && Run(s, ops[..1]).status[0].Terminated?
            && LegalRun(s, ops) && Run(s, ops).status[0].Ready? && 0 in Run(s, ops).queue
  {
  }

  // From the start: a thread that has been suspended and resumed while it waited has two entries. It is dispatched by
  // the first, yields while another thread is ready, and runs on by the second.
  lemma CallerRunsOn(s: Sched)
    requires Init(s)
    ensures var ops := [Create, Suspend(0), Resume(0), Yield];
            && LegalRun(s, ops)
            && var s4 := Run(s, ops);
               && s4.Shape() && s4.current == 0 && s4.status[0].Running? && s4.queue == [0, 1] && s4.status[1].Ready?
               && DoYield(s4).current == 0 && DoYield(s4).queue == [1, 0]
  {
    hide LegalRun, Run, DoYield;
    var s3 := TwoEntries(s);
    YieldDoes(s3, 0);
    var s4 := DoYield(s3);
    assert s3.queue[1..] + [1] == [0, 1];
    YieldDoes(s4, 0);
    assert s4.queue[1..] + [0] == [1, 0];
    RunOfFour(s, Create, Suspend(0), Resume(0), Yield);
  }

  lemma TwoEntries(s: Sched) returns (s3: Sched)
    requires Init(s)
    ensures Legal(s, Create) && Legal(Do(s, Create), Suspend(0)) && Legal(Do(Do(s, Create), Suspend(0)), Resume(0))
    ensures s3 == Do(Do(Do(s, Create), Suspend(0)), Resume(0)) && Legal(s3, Yield) && Do(s3, Yield) == DoYield(s3)
    ensures s3.queue == [0, 0] && s3.current == 1 && s3.status[0].Ready? && s3.status[1].Running?
    ensures NextUp(s3, 0)
  {
    s3 := Do(Do(Do(s, Create), Suspend(0)), Resume(0));
    hide DoYield;
  }

  lemma OneMoreOp(s: Sched, op: Op, ops: seq<Op>)
    requires Legal(s, op) && LegalRun(Do(s, op), ops)
    ensures LegalRun(s, [op] + ops) && Run(s, [op] + ops) == Run(Do(s, op), ops)
  {
    assert ([op] + ops)[1..] == ops;
    hide Do, Legal;
  }

  lemma NoOp(s: Sched)
    ensures LegalRun(s, []) && Run(s, []) == s
  {
  }

  lemma RunOfFour(s: Sched, a: Op, b: Op, c: Op, d: Op)
    requires Legal(s, a) && Legal(Do(s, a), b) && Legal(Do(Do(s, a), b), c) && Legal(Do(Do(Do(s, a), b), c), d)
    ensures LegalRun(s, [a, b, c, d]) && Run(s, [a, b, c, d]) == Do(Do(Do(Do(s, a), b), c), d)
  {
    hide *;
    var s1 := Do(s, a);
    var s2 := Do(s1, b);
    var s3 := Do(s2, c);
    NoOp(Do(s3, d));
    OneMoreOp(s3, d, []);
    OneMoreOp(s2, c, [d] + []);
    OneMoreOp(s1, b, [c] + ([d] + []));
    OneMoreOp(s, a, [b] + ([c] + ([d] + [])));
    assert [a] + ([b] + ([c] + ([d] + []))) == [a, b, c, d];
  }
}
