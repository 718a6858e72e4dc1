/** What holds in every reachable state of the scullBuffer driver. */
module ScullTheorems {
  import opened ScullRing
  import opened ScullProtocol

  // ----- counting processes -----

  function One(b: bool): nat {
    if b then 1 else 0
  }

  lemma {:induction false} CountUpdate(ps: seq<Proc>, i: nat, p: Proc, f: Proc -> bool)
    requires i < |ps|
    ensures Count(ps[i := p], f) == Count(ps, f) - One(f(ps[i])) + One(f(p))
    decreases |ps|
  {
    var n := |ps| - 1;
    if i == n {
      assert ps[i := p][..n] == ps[..n];
    } else {
      CountUpdate(ps[..n], i, p, f);
      assert ps[i := p][..n] == ps[..n][i := p];
    }
  }

  lemma {:induction false} CountPositive(ps: seq<Proc>, i: nat, f: Proc -> bool)
    requires i < |ps| && f(ps[i])
    ensures Count(ps, f) >= 1
  {
    var n := |ps| - 1;
    if i < n {
      CountPositive(ps[..n], i, f);
    }
  }

  lemma {:induction false} TwoCounted(ps: seq<Proc>, i: nat, j: nat, f: Proc -> bool)
    requires i < j < |ps| && f(ps[i]) && f(ps[j])
    ensures Count(ps, f) >= 2
  {
    var n := |ps| - 1;
    if j < n {
      TwoCounted(ps[..n], i, j, f);
    } else {
      CountPositive(ps[..n], i, f);
    }
  }

  lemma {:induction false} CountZero(ps: seq<Proc>, f: Proc -> bool)
    requires forall i :: 0 <= i < |ps| ==> !f(ps[i])
    ensures Count(ps, f) == 0
  {
    if ps != [] {
      CountZero(ps[..|ps| - 1], f);
    }
  }

  lemma {:induction false} Counted(ps: seq<Proc>, f: Proc -> bool) returns (i: nat)
    requires Count(ps, f) >= 1
    ensures i < |ps| && f(ps[i])
  {
    var n := |ps| - 1;
    if f(ps[n]) {
      i := n;
    } else {
      i := Counted(ps[..n], f);
    }
  }

  lemma OneHolder(ps: seq<Proc>, i: nat, j: nat, f: Proc -> bool)
    requires i < |ps| && j < |ps| && f(ps[i]) && f(ps[j]) && Count(ps, f) <= 1
    ensures i == j
  {
    if i < j {
      TwoCounted(ps, i, j, f);
    } else if j < i {
      TwoCounted(ps, j, i, f);
    }
  }

  // ----- each step keeps each part of the invariant -----

  lemma OnlyMoves(s: Sys, i: nat, e: Event)
    requires Enabled(s, i, e) && RingReady(s, i)
    ensures var s' := Do(s, i, e);
            |s'.procs| == |s.procs| && s'.procs == s.procs[i := s'.procs[i]]
  {
  }

  // What one process gives and takes balances, seen from that process alone.
  predicate MutexBalance(s: Sys, i: nat, s': Sys)
    requires i < |s.procs| && i < |s'.procs|
  {
    && s'.dev + One(HoldsDev(s'.procs[i])) == s.dev + One(HoldsDev(s.procs[i]))
    && s'.rw + One(HoldsRw(s'.procs[i])) == s.rw + One(HoldsRw(s.procs[i]))
  }

  function Tokens(p: Proc): int {
    One(IsReadTurn(p)) - One(IsReadTake(p)) + One(IsWriteTake(p)) + One(IsWriteSignal(p))
  }

  function Holes(p: Proc): int {
    One(IsWriteTurn(p)) - One(IsWriteTake(p)) + One(IsReadTake(p)) + One(IsReadSignal(p))
  }

  predicate FullBalance(s: Sys, i: nat, s': Sys)
    requires i < |s.procs| && i < |s'.procs|
  {
    s'.full - s'.ring.numItems - s'.skipped + Tokens(s'.procs[i])
    == s.full - s.ring.numItems - s.skipped + Tokens(s.procs[i])
  }

  predicate EmptyBalance(s: Sys, i: nat, s': Sys)
    requires i < |s.procs| && i < |s'.procs|
  {
    && s'.empty + s'.ring.numItems + Holes(s'.procs[i]) == s.empty + s.ring.numItems + Holes(s.procs[i])
    && s'.ring.Size() == s.ring.Size()
  }

  predicate SemaphoreBalance(s: Sys, i: nat, s': Sys)
    requires i < |s.procs| && i < |s'.procs|
  {
    FullBalance(s, i, s') && EmptyBalance(s, i, s')
  }

  predicate UserBalance(s: Sys, i: nat, s': Sys)
    requires i < |s.procs| && i < |s'.procs|
  {
    && s'.readers - s'.lostReaders - One(CountedReader(s'.procs[i]))
       == s.readers - s.lostReaders - One(CountedReader(s.procs[i]))
    && s'.writers - s'.lostWriters - One(CountedWriter(s'.procs[i]))
       == s.writers - s.lostWriters - One(CountedWriter(s.procs[i]))
  }

  lemma WriteMutexBalance(s: Sys, i: nat, e: Event)
    requires Enabled(s, i, e) && RingReady(s, i) && InWrite(s.procs[i].pc)
    ensures MutexBalance(s, i, WriteStep(s, i, e))
  {
  }

  lemma WriteFullBalance(s: Sys, i: nat, e: Event)
    requires Enabled(s, i, e) && RingReady(s, i) && InWrite(s.procs[i].pc)
    ensures FullBalance(s, i, WriteStep(s, i, e))
  {
  }

  lemma WriteEmptyBalance(s: Sys, i: nat, e: Event)
    requires Enabled(s, i, e) && RingReady(s, i) && InWrite(s.procs[i].pc)
    ensures EmptyBalance(s, i, WriteStep(s, i, e))
  {
  }

  lemma WriteSemaphoreBalance(s: Sys, i: nat, e: Event)
    requires Enabled(s, i, e) && RingReady(s, i) && InWrite(s.procs[i].pc)
    ensures SemaphoreBalance(s, i, WriteStep(s, i, e))
  {
    WriteFullBalance(s, i, e);
    WriteEmptyBalance(s, i, e);
    hide FullBalance, EmptyBalance, WriteStep;
  }

  lemma WriteUserBalance(s: Sys, i: nat, e: Event)
    requires Enabled(s, i, e) && RingReady(s, i) && InWrite(s.procs[i].pc)
    ensures UserBalance(s, i, WriteStep(s, i, e))
  {
  }

  lemma ReadMutexBalance(s: Sys, i: nat, e: Event)
    requires Enabled(s, i, e) && RingReady(s, i) && InRead(s.procs[i].pc)
    ensures MutexBalance(s, i, ReadStep(s, i, e))
  {
  }

  lemma ReadFullBalance(s: Sys, i: nat, e: Event)
    requires Enabled(s, i, e) && RingReady(s, i) && InRead(s.procs[i].pc)
    ensures FullBalance(s, i, ReadStep(s, i, e))
  {
  }

  lemma ReadEmptyBalance(s: Sys, i: nat, e: Event)
    requires Enabled(s, i, e) && RingReady(s, i) && InRead(s.procs[i].pc)
    ensures EmptyBalance(s, i, ReadStep(s, i, e))
  {
  }

  lemma ReadSemaphoreBalance(s: Sys, i: nat, e: Event)
    requires Enabled(s, i, e) && RingReady(s, i) && InRead(s.procs[i].pc)
    ensures SemaphoreBalance(s, i, ReadStep(s, i, e))
  {
    ReadFullBalance(s, i, e);
    ReadEmptyBalance(s, i, e);
    hide FullBalance, EmptyBalance, ReadStep;
  }

  lemma ReadUserBalance(s: Sys, i: nat, e: Event)
    requires Enabled(s, i, e) && RingReady(s, i) && InRead(s.procs[i].pc)
    ensures UserBalance(s, i, ReadStep(s, i, e))
  {
  }

  lemma OpenMutexBalance(s: Sys, i: nat, e: Event)
    requires Enabled(s, i, e) && !InWrite(s.procs[i].pc) && !InRead(s.procs[i].pc)
    ensures MutexBalance(s, i, OpenStep(s, i, e))
  {
  }

  lemma OpenSemaphoreBalance(s: Sys, i: nat, e: Event)
    requires Enabled(s, i, e) && !InWrite(s.procs[i].pc) && !InRead(s.procs[i].pc)
    ensures SemaphoreBalance(s, i, OpenStep(s, i, e))
  {
  }

  lemma OpenUserBalance(s: Sys, i: nat, e: Event)
    requires Enabled(s, i, e) && !InWrite(s.procs[i].pc) && !InRead(s.procs[i].pc)
    ensures UserBalance(s, i, OpenStep(s, i, e))
  {
  }

  lemma StepBalances(s: Sys, i: nat, e: Event)
    requires Enabled(s, i, e) && RingReady(s, i)
    ensures |Do(s, i, e).procs| == |s.procs|
    ensures MutexBalance(s, i, Do(s, i, e)) && SemaphoreBalance(s, i, Do(s, i, e)) && UserBalance(s, i, Do(s, i, e))
  {
    OnlyMoves(s, i, e);
    if InWrite(s.procs[i].pc) {
      WriteMutexBalance(s, i, e);
      WriteSemaphoreBalance(s, i, e);
      WriteUserBalance(s, i, e);
    } else if InRead(s.procs[i].pc) {
      ReadMutexBalance(s, i, e);
      ReadSemaphoreBalance(s, i, e);
      ReadUserBalance(s, i, e);
    } else {
      OpenMutexBalance(s, i, e);
      OpenSemaphoreBalance(s, i, e);
      OpenUserBalance(s, i, e);
    }
  }

  lemma BalanceKeepsMutex(s: Sys, i: nat, s': Sys)
    requires i < |s.procs| == |s'.procs| && s'.procs == s.procs[i := s'.procs[i]]
    requires MutexBalance(s, i, s') && Mutex(s)
    ensures Mutex(s')
  {
    CountUpdate(s.procs, i, s'.procs[i], HoldsDev);
    CountUpdate(s.procs, i, s'.procs[i], HoldsRw);
  }

  lemma BalanceKeepsFull(s: Sys, i: nat, s': Sys)
    requires i < |s.procs| == |s'.procs| && s'.procs == s.procs[i := s'.procs[i]]
    requires FullBalance(s, i, s') && FullAccount(s)
    ensures FullAccount(s')
  {
    var p' := s'.procs[i];
    CountUpdate(s.procs, i, p', IsReadTurn);
    CountUpdate(s.procs, i, p', IsReadTake);
    CountUpdate(s.procs, i, p', IsWriteTake);
    CountUpdate(s.procs, i, p', IsWriteSignal);
    hide Count;
  }

  lemma BalanceKeepsEmpty(s: Sys, i: nat, s': Sys)
    requires i < |s.procs| == |s'.procs| && s'.procs == s.procs[i := s'.procs[i]]
    requires EmptyBalance(s, i, s') && EmptyAccount(s)
    ensures EmptyAccount(s')
  {
    var p' := s'.procs[i];
    CountUpdate(s.procs, i, p', IsWriteTurn);
    CountUpdate(s.procs, i, p', IsWriteTake);
    CountUpdate(s.procs, i, p', IsReadTake);
    CountUpdate(s.procs, i, p', IsReadSignal);
    hide Count;
  }

  lemma BalanceKeepsSemaphores(s: Sys, i: nat, s': Sys)
    requires i < |s.procs| == |s'.procs| && s'.procs == s.procs[i := s'.procs[i]]
    requires SemaphoreBalance(s, i, s') && Semaphores(s)
    ensures Semaphores(s')
  {
    BalanceKeepsFull(s, i, s');
    BalanceKeepsEmpty(s, i, s');
  }

  lemma BalanceKeepsUsers(s: Sys, i: nat, s': Sys)
    requires i < |s.procs| == |s'.procs| && s'.procs == s.procs[i := s'.procs[i]]
    requires UserBalance(s, i, s') && Users(s)
    ensures Users(s')
  {
    CountUpdate(s.procs, i, s'.procs[i], CountedReader);
    CountUpdate(s.procs, i, s'.procs[i], CountedWriter);
  }

  lemma WriteKeepsMessages(s: Sys, i: nat, e: Event)
    requires Enabled(s, i, e) && RingReady(s, i) && InWrite(s.procs[i].pc) && Messages(s)
    ensures Messages(WriteStep(s, i, e))
  {
    if s.procs[i].pc.WriteCopy? {
      if e.CopyFault? {
        ScribbleKeepsContents(s.ring, e.junk);
      } else {
        PutAppends(s.ring, Cut(s.procs[i].data));
      }
    }
  }

  lemma ReadKeepsMessages(s: Sys, i: nat, e: Event)
    requires Enabled(s, i, e) && RingReady(s, i) && InRead(s.procs[i].pc) && Messages(s)
    ensures Messages(ReadStep(s, i, e))
  {
    if s.procs[i].pc.ReadCopy? && e.Go? {
      TakeDropsFirst(s.ring);
      assert Items(ReadStep(s, i, e).received) == Items(s.received) + [ItemIn(s.ring, s.ring.nextItem)];
    }
  }

  lemma StepKeepsMessages(s: Sys, i: nat, e: Event)
    requires Enabled(s, i, e) && RingReady(s, i) && Messages(s)
    ensures Messages(Do(s, i, e))
  {
    if InWrite(s.procs[i].pc) {
      WriteKeepsMessages(s, i, e);
    } else if InRead(s.procs[i].pc) {
      ReadKeepsMessages(s, i, e);
    }
  }

  // Only the holder of the device semaphore changes the ring, and only a process that saw room
  // (or an item) while holding it goes on to copy.
  predicate RingDiscipline(s: Sys, i: nat, s': Sys)
    requires i < |s.procs| && i < |s'.procs|
  {
    var p, p' := s.procs[i], s'.procs[i];
    && s'.ring.Valid() && s'.ring.Size() == s.ring.Size()
    && (s'.ring.numItems != s.ring.numItems ==> HoldsDev(p))
    && (p'.pc.WriteCopy? ==> s'.ring.numItems < s'.ring.Size())
    && (p'.pc.ReadCopy? ==> s'.ring.numItems > 0)
  }

  lemma WriteRingDiscipline(s: Sys, i: nat, e: Event)
    requires Enabled(s, i, e) && RingReady(s, i) && InWrite(s.procs[i].pc)
    ensures RingDiscipline(s, i, WriteStep(s, i, e))
  {
    if s.procs[i].pc.WriteCopy? {
      PutAppends(s.ring, Cut(s.procs[i].data));
      if e.CopyFault? {
        ScribbleKeepsContents(s.ring, e.junk);
      }
    }
  }

  lemma ReadRingDiscipline(s: Sys, i: nat, e: Event)
    requires Enabled(s, i, e) && RingReady(s, i) && InRead(s.procs[i].pc)
    ensures RingDiscipline(s, i, ReadStep(s, i, e))
  {
    if s.procs[i].pc.ReadCopy? {
      TakeDropsFirst(s.ring);
    }
  }

  lemma StepRingDiscipline(s: Sys, i: nat, e: Event)
    requires Enabled(s, i, e) && RingReady(s, i)
    ensures |Do(s, i, e).procs| == |s.procs| && RingDiscipline(s, i, Do(s, i, e))
  {
    OnlyMoves(s, i, e);
    if InWrite(s.procs[i].pc) {
      WriteRingDiscipline(s, i, e);
    } else if InRead(s.procs[i].pc) {
      ReadRingDiscipline(s, i, e);
    }
  }

  lemma DisciplineKeepsSlots(s: Sys, i: nat, s': Sys)
    requires i < |s.procs| == |s'.procs| && s'.procs == s.procs[i := s'.procs[i]]
    requires Slots(s) && Mutex(s) && RingDiscipline(s, i, s')
    ensures Slots(s')
  {
    forall j | 0 <= j < |s.procs| && HoldsDev(s.procs[j]) && HoldsDev(s.procs[i])
      ensures j == i
    {
      OneHolder(s.procs, i, j, HoldsDev);
    }
  }

  lemma StepKeepsInv(s: Sys, i: nat, e: Event)
    requires Inv(s) && Enabled(s, i, e)
    ensures RingReady(s, i) && Inv(Do(s, i, e))
  {
    StepKeepsMessages(s, i, e);
    StepBalances(s, i, e);
    StepRingDiscipline(s, i, e);
    OnlyMoves(s, i, e);
    DisciplineKeepsSlots(s, i, Do(s, i, e));
    BalanceKeepsMutex(s, i, Do(s, i, e));
    BalanceKeepsSemaphores(s, i, Do(s, i, e));
    BalanceKeepsUsers(s, i, Do(s, i, e));
  }

  lemma InitInv(s: Sys)
    requires Init(s)
    ensures Inv(s)
  {
    CountZero(s.procs, HoldsDev);
    CountZero(s.procs, HoldsRw);
    CountZero(s.procs, IsReadTurn);
    CountZero(s.procs, IsWriteTurn);
    CountZero(s.procs, IsReadTake);
    CountZero(s.procs, IsWriteTake);
    CountZero(s.procs, IsReadSignal);
    CountZero(s.procs, IsWriteSignal);
    CountZero(s.procs, CountedReader);
    CountZero(s.procs, CountedWriter);
  }

  // ----- runs -----

  datatype Action = Action(proc: nat, event: Event)

  // states[0] is the loaded module; each state follows from the one before by one step.
  ghost predicate IsRun(states: seq<Sys>, acts: seq<Action>) {
    && |states| == |acts| + 1
    && Init(states[0])
    && forall k :: 0 <= k < |acts| ==>
         && Enabled(states[k], acts[k].proc, acts[k].event)
         && RingReady(states[k], acts[k].proc)
         && states[k + 1] == Do(states[k], acts[k].proc, acts[k].event)
  }

  ghost predicate Reachable(s: Sys) {
    exists states, acts :: IsRun(states, acts) && states[|states| - 1] == s
  }

  lemma {:induction false} RunKeepsInv(states: seq<Sys>, acts: seq<Action>, k: nat)
    requires IsRun(states, acts) && k < |states|
    ensures Inv(states[k])
  {
    if k == 0 {
      InitInv(states[0]);
    } else {
      RunKeepsInv(states, acts, k - 1);
      StepKeepsInv(states[k - 1], acts[k - 1].proc, acts[k - 1].event);
    }
  }

  lemma ReachableInv(s: Sys)
    requires Reachable(s)
    ensures Inv(s)
  {
    var states, acts :| IsRun(states, acts) && states[|states| - 1] == s;
    RunKeepsInv(states, acts, |states| - 1);
  }

  // ----- deadlock -----

  // In the middle of open, read, write or release.
  predicate Unfinished(p: Proc) {
    !p.pc.Closed? && !p.pc.Idle?
  }

  ghost predicate SomeoneMoves(s: Sys) {
    exists i :: 0 <= i < |s.procs| && Unfinished(s.procs[i]) && Enabled(s, i, Go)
  }

  ghost predicate AllParkedReading(s: Sys) {
    forall i :: 0 <= i < |s.procs| && Unfinished(s.procs[i]) ==> s.procs[i].pc.ReadParked?
  }

  ghost predicate AllParkedWriting(s: Sys) {
    forall i :: 0 <= i < |s.procs| && Unfinished(s.procs[i]) ==> s.procs[i].pc.WriteParked?
  }

  // While the device is held someone moves: the holder, or whoever holds what it waits for.
  lemma HolderMoves(s: Sys)
    requires Inv(s) && s.dev == 0
    ensures SomeoneMoves(s)
  {
    var i := Counted(s.procs, HoldsDev);
    var p := s.procs[i];
    if p.pc.WriteAskRw? || p.pc.ReadAskRw? {
      CounterMoves(s, i);
    } else if p.pc.WriteTake? && s.empty == 0 {
      HoldersExclude(s, i);
      CountPositive(s.procs, i, IsWriteTake);
      var j := Counted(s.procs, IsWriteTurn);
      assert Enabled(s, j, Go);
    } else if p.pc.ReadTake? && s.full == 0 {
      HoldersExclude(s, i);
      CountPositive(s.procs, i, IsReadTake);
      var j := Counted(s.procs, IsReadTurn);
      assert Enabled(s, j, Go);
    } else {
      assert Enabled(s, i, Go);
    }
  }

  // The holder of the device is the only process in the steps that need it.
  lemma HoldersExclude(s: Sys, i: nat)
    requires Mutex(s) && i < |s.procs| && HoldsDev(s.procs[i])
    ensures !s.procs[i].pc.WriteTake? ==> Count(s.procs, IsWriteTake) == 0
    ensures !s.procs[i].pc.ReadTake? ==> Count(s.procs, IsReadTake) == 0
    ensures !s.procs[i].pc.WriteSignal? ==> Count(s.procs, IsWriteSignal) == 0
    ensures !s.procs[i].pc.ReadSignal? ==> Count(s.procs, IsReadSignal) == 0
  {
    forall j | 0 <= j < |s.procs| && HoldsDev(s.procs[j])
      ensures j == i
    {
      OneHolder(s.procs, i, j, HoldsDev);
    }
    if !s.procs[i].pc.WriteTake? {
      CountZero(s.procs, IsWriteTake);
    }
    if !s.procs[i].pc.ReadTake? {
      CountZero(s.procs, IsReadTake);
    }
    if !s.procs[i].pc.WriteSignal? {
      CountZero(s.procs, IsWriteSignal);
    }
    if !s.procs[i].pc.ReadSignal? {
      CountZero(s.procs, IsReadSignal);
    }
  }

  // Whoever waits for the user counts, someone moves: the waiter or the holder.
  lemma CounterMoves(s: Sys, i: nat)
    requires Mutex(s) && i < |s.procs|
    requires s.procs[i].pc in {OpenWait, ReleaseWait, WriteAskRw, ReadAskRw}
    ensures SomeoneMoves(s)
  {
    if s.rw > 0 {
      assert Enabled(s, i, Go);
    } else {
      var j := Counted(s.procs, HoldsRw);
      assert Enabled(s, j, Go);
    }
  }

  lemma NobodyHolds(s: Sys)
    requires Mutex(s) && s.dev > 0
    ensures Count(s.procs, IsWriteTake) == 0 && Count(s.procs, IsReadTake) == 0
    ensures Count(s.procs, IsWriteSignal) == 0 && Count(s.procs, IsReadSignal) == 0
    ensures forall i :: 0 <= i < |s.procs| ==> !HoldsDev(s.procs[i])
  {
    forall i | 0 <= i < |s.procs|
      ensures !HoldsDev(s.procs[i])
    {
      if HoldsDev(s.procs[i]) {
        CountPositive(s.procs, i, HoldsDev);
      }
    }
    CountZero(s.procs, IsWriteTake);
    CountZero(s.procs, IsReadTake);
    CountZero(s.procs, IsWriteSignal);
    CountZero(s.procs, IsReadSignal);
  }

  // With the device free, a process that cannot move is parked on a semaphore at zero.
  lemma StuckIsParked(s: Sys, i: nat)
    requires Inv(s) && s.dev > 0 && !SomeoneMoves(s)
    requires i < |s.procs| && Unfinished(s.procs[i])
    ensures (s.procs[i].pc.ReadParked? && s.full == 0) || (s.procs[i].pc.WriteParked? && s.empty == 0)
  {
    NobodyHolds(s);
    if s.procs[i].pc in {OpenWait, ReleaseWait, WriteAskRw, ReadAskRw} {
      CounterMoves(s, i);
    }
    assert !Enabled(s, i, Go);
  }

  lemma ParkedCounts(s: Sys)
    requires Inv(s) && s.dev > 0
    ensures s.full == 0 ==> SomeoneMoves(s) || s.ring.numItems == 0
    ensures s.empty == 0 ==> SomeoneMoves(s) || s.ring.numItems == s.ring.Size()
  {
    NobodyHolds(s);
    if Count(s.procs, IsReadTurn) > 0 {
      var j := Counted(s.procs, IsReadTurn);
      assert Enabled(s, j, Go);
    }
    if Count(s.procs, IsWriteTurn) > 0 {
      var j := Counted(s.procs, IsWriteTurn);
      assert Enabled(s, j, Go);
    }
  }

  // Deadlock freedom: in every reachable state with a call in progress some call can take a
  // step, unless all calls in progress are reads parked on an empty buffer, or all are writes
  // parked on a full one; the two are never mixed.
  lemma DeadlockFreedom(s: Sys)
    requires Reachable(s)
    requires exists i :: 0 <= i < |s.procs| && Unfinished(s.procs[i])
    ensures SomeoneMoves(s) <==>
            !(AllParkedReading(s) && s.full == 0) && !(AllParkedWriting(s) && s.empty == 0)
    ensures AllParkedReading(s) && s.full == 0 ==> s.ring.numItems == 0
    ensures AllParkedWriting(s) && s.empty == 0 ==> s.ring.numItems == s.ring.Size()
  {
    ReachableInv(s);
    if s.dev == 0 {
      HolderMoves(s);
    } else {
      ParkedCounts(s);
      if !SomeoneMoves(s) {
        forall i | 0 <= i < |s.procs| && Unfinished(s.procs[i])
          ensures (s.procs[i].pc.ReadParked? && s.full == 0) || (s.procs[i].pc.WriteParked? && s.empty == 0)
        {
          StuckIsParked(s, i);
        }
      }
    }
  }

  // No lost wakeup: while items wait, a reader that finds `full` at zero will be woken by a
  // process already on its way to raise it; and likewise for writers, free slots and `empty`.
  lemma NoLostWakeup(s: Sys)
    requires Reachable(s)
    ensures s.full == 0 && s.ring.numItems > 0 ==>
              exists j :: 0 <= j < |s.procs| &&
                          (IsReadTurn(s.procs[j]) || IsWriteTake(s.procs[j]) || IsWriteSignal(s.procs[j]))
    ensures s.empty == 0 && s.ring.numItems < s.ring.Size() ==>
              exists j :: 0 <= j < |s.procs| &&
                          (IsWriteTurn(s.procs[j]) || IsReadTake(s.procs[j]) || IsReadSignal(s.procs[j]))
  {
    ReachableInv(s);
    if s.full == 0 && s.ring.numItems > 0 {
      if Count(s.procs, IsReadTurn) > 0 {
        var j := Counted(s.procs, IsReadTurn);
      } else if Count(s.procs, IsWriteTake) > 0 {
        var j := Counted(s.procs, IsWriteTake);
      } else {
        var j := Counted(s.procs, IsWriteSignal);
      }
    }
    if s.empty == 0 && s.ring.numItems < s.ring.Size() {
      if Count(s.procs, IsWriteTurn) > 0 {
        var j := Counted(s.procs, IsWriteTurn);
      } else if Count(s.procs, IsReadTake) > 0 {
        var j := Counted(s.procs, IsReadTake);
      } else {
        var j := Counted(s.procs, IsReadSignal);
      }
    }
  }

  // With the device semaphore free, `full` and its turnstile count the items exactly when no
  // signal has made line 282 skip its down; `empty` and its turnstile always count the rest.
  lemma SemaphoresCountItems(s: Sys)
    requires Reachable(s) && s.dev > 0
    ensures s.full + Count(s.procs, IsReadTurn) == s.ring.numItems + s.skipped
    ensures s.full + Count(s.procs, IsReadTurn) == s.ring.numItems <==> s.skipped == 0
    ensures s.empty + Count(s.procs, IsWriteTurn) == s.ring.Size() - s.ring.numItems
  {
    ReachableInv(s);
    NobodyHolds(s);
  }

  // ----- a run that strands a reader -----

  lemma RunExtends(states: seq<Sys>, acts: seq<Action>, i: nat, e: Event)
    requires IsRun(states, acts)
    requires Enabled(states[|acts|], i, e) && RingReady(states[|acts|], i)
    ensures IsRun(states + [Do(states[|acts|], i, e)], acts + [Action(i, e)])
  {
    hide Do, Enabled, RingReady, Init;
  }

  lemma StepReachable(s: Sys, i: nat, e: Event)
    requires Reachable(s) && Enabled(s, i, e)
    ensures RingReady(s, i) && Reachable(Do(s, i, e))
  {
    ReachableInv(s);
    StepKeepsInv(s, i, e);
    hide Do, Enabled, RingReady, Inv, Init;
    var states, acts :| IsRun(states, acts) && states[|states| - 1] == s;
    RunExtends(states, acts, i, e);
    var states' := states + [Do(s, i, e)];
    assert states'[|states'| - 1] == Do(s, i, e);
  }

  lemma InitReachable(s: Sys)
    requires Init(s)
    ensures Reachable(s)
  {
    assert IsRun([s], []);
    assert [s][|[s]| - 1] == s;
  }

  // Process 0 opens the device for writing and process 1 for reading.
  lemma BothOpen(s: Sys) returns (t: Sys)
    requires Init(s) && |s.procs| == 2
    ensures Reachable(t) && |t.procs| == 2
    ensures t == s.(writers := 1, readers := 1,
                    procs := [Proc(Idle, false, true, [], 0, 0), Proc(Idle, true, false, [], 0, 0)])
  {
    InitReachable(s);
    hide Reachable;
    var w, r := CallOpen(false, true), CallOpen(true, false);
    StepReachable(s, 0, w);
    var s1 := Do(s, 0, w);
    StepReachable(s1, 0, Go);
    var s2 := Do(s1, 0, Go);
    StepReachable(s2, 0, Go);
    var s3 := Do(s2, 0, Go);
    assert s3 == s.(writers := 1, procs := [Proc(Idle, false, true, [], 0, 0), s.procs[1]]);
    StepReachable(s3, 1, r);
    var s4 := Do(s3, 1, r);
    StepReachable(s4, 1, Go);
    var s5 := Do(s4, 1, Go);
    StepReachable(s5, 1, Go);
    t := Do(s5, 1, Go);
  }

  // Process 1 starts a read and finds the buffer empty.
  lemma ReaderFindsNothing(s: Sys) returns (t: Sys)
    requires Reachable(s) && |s.procs| == 2 && s.procs[1] == Proc(Idle, true, false, [], 0, 0)
    requires s.dev == 1 && s.ring.numItems == 0
    ensures Reachable(t)
    ensures t == s.(dev := 0, procs := [s.procs[0], Proc(ReadAskRw, true, false, [], 1, 0)])
  {
    hide Reachable;
    var e := CallRead(1);
    StepReachable(s, 1, e);
    var s1 := Do(s, 1, e);
    StepReachable(s1, 1, Go);
    var s2 := Do(s1, 1, Go);
    StepReachable(s2, 1, Go);
    t := Do(s2, 1, Go);
  }

  // It sees a writer, and parks.
  lemma ReaderParks(s: Sys) returns (t: Sys)
    requires Reachable(s) && |s.procs| == 2 && s.procs[1] == Proc(ReadAskRw, true, false, [], 1, 0)
    requires s.dev == 0 && s.rw == 1 && s.writers == 1
    ensures Reachable(t)
    ensures t == s.(dev := 1, procs := [s.procs[0], Proc(ReadParked, true, false, [], 1, 0)])
  {
    hide Reachable;
    StepReachable(s, 1, Go);
    var s1 := Do(s, 1, Go);
    assert s1 == s.(rw := 0, procs := [s.procs[0], Proc(ReadRw, true, false, [], 1, 0)]);
    StepReachable(s1, 1, Go);
    var s2 := Do(s1, 1, Go);
    assert s2 == s.(procs := [s.procs[0], Proc(ReadLetGo, true, false, [], 1, 0)]);
    StepReachable(s2, 1, Go);
    t := Do(s2, 1, Go);
  }

  // ----- when a parked reader stays parked -----

  // Nobody has the device open for writing or is opening it so.
  ghost predicate NoWriter(s: Sys) {
    forall j :: 0 <= j < |s.procs| && s.procs[j].canWrite ==> s.procs[j].pc.Closed?
  }

  // Only an open writer is inside a write.
  ghost predicate Modes(s: Sys) {
    forall j :: 0 <= j < |s.procs| && InWrite(s.procs[j].pc) ==> s.procs[j].canWrite
  }

  lemma StepKeepsModes(s: Sys, i: nat, e: Event)
    requires Modes(s) && Enabled(s, i, e) && RingReady(s, i)
    ensures Modes(Do(s, i, e))
  {
    OnlyMoves(s, i, e);
  }

  lemma {:induction false} RunKeepsModes(states: seq<Sys>, acts: seq<Action>, k: nat)
    requires IsRun(states, acts) && k < |states|
    ensures Modes(states[k])
  {
    if k > 0 {
      RunKeepsModes(states, acts, k - 1);
      hide Do;
      StepKeepsModes(states[k - 1], acts[k - 1].proc, acts[k - 1].event);
    }
  }

  lemma ReachableModes(s: Sys)
    requires Reachable(s)
    ensures Modes(s)
  {
    var states, acts :| IsRun(states, acts) && states[|states| - 1] == s;
    RunKeepsModes(states, acts, |states| - 1);
  }

  // A continuation of a state.
  ghost predicate IsPath(s: Sys, states: seq<Sys>, acts: seq<Action>) {
    && |states| == |acts| + 1
    && states[0] == s
    && forall k :: 0 <= k < |acts| ==>
         && Enabled(states[k], acts[k].proc, acts[k].event)
         && RingReady(states[k], acts[k].proc)
         && states[k + 1] == Do(states[k], acts[k].proc, acts[k].event)
  }

  // Nobody starts to open for writing, and no signal reaches process i.
  ghost predicate Undisturbed(acts: seq<Action>, i: nat) {
    forall k :: 0 <= k < |acts| ==>
      && !(acts[k].event.CallOpen? && acts[k].event.writing)
      && !(acts[k].proc == i && acts[k].event.Interrupt?)
  }

  ghost predicate StaysParked(s: Sys, i: nat) {
    forall states: seq<Sys>, acts: seq<Action> :: IsPath(s, states, acts) && Undisturbed(acts, i) ==>
      var t := states[|acts|];
      i < |t.procs| && t.procs[i].pc.ReadParked?
  }

  // Nothing can raise `full`, and i waits for it.
  ghost predicate Stranded(s: Sys, i: nat) {
    && NoWriter(s) && Modes(s) && s.full == 0 && i < |s.procs| && s.procs[i].pc.ReadParked?
    && forall j :: 0 <= j < |s.procs| ==> !s.procs[j].pc.ReadTurn?
  }

  lemma StrandedStep(s: Sys, i: nat, j: nat, e: Event)
    requires Stranded(s, i) && Enabled(s, j, e) && RingReady(s, j)
    requires !(e.CallOpen? && e.writing) && !(j == i && e.Interrupt?)
    ensures Stranded(Do(s, j, e), i)
  {
    StepKeepsModes(s, j, e);
    OnlyMoves(s, j, e);
    assert !InWrite(s.procs[j].pc);
  }

  lemma {:induction false} StrandedPath(s: Sys, i: nat, states: seq<Sys>, acts: seq<Action>, k: nat)
    requires Stranded(s, i) && IsPath(s, states, acts) && Undisturbed(acts, i) && k <= |acts|
    ensures Stranded(states[k], i)
  {
    if k > 0 {
      StrandedPath(s, i, states, acts, k - 1);
      hide Do, Enabled, RingReady, Stranded;
      StrandedStep(states[k - 1], i, acts[k - 1].proc, acts[k - 1].event);
    }
  }

  // With `full` raised the reader can take it.
  lemma ReaderTakesFull(s: Sys, i: nat)
    requires Inv(s) && i < |s.procs| && s.procs[i].pc.ReadParked? && s.full > 0
    ensures Enabled(s, i, Go) && RingReady(s, i) && Do(s, i, Go).procs[i].pc.ReadTurn?
  {
  }

  // A reader at the turnstile raises it first.
  lemma ReaderRaisesFull(s: Sys, i: nat, j: nat)
    requires Inv(s) && i < |s.procs| && s.procs[i].pc.ReadParked? && j < |s.procs| && s.procs[j].pc.ReadTurn?
    ensures Enabled(s, j, Go) && RingReady(s, j)
    ensures var t := Do(s, j, Go); t.full > 0 && i < |t.procs| && t.procs[i].pc.ReadParked?
  {
  }

  lemma OneStepPath(s: Sys, j: nat, e: Event)
    requires Enabled(s, j, e) && RingReady(s, j)
    ensures IsPath(s, [s, Do(s, j, e)], [Action(j, e)])
  {
  }

  lemma TwoStepPath(s: Sys, j: nat, e: Event, k: nat, f: Event)
    requires Enabled(s, j, e) && RingReady(s, j)
    requires Enabled(Do(s, j, e), k, f) && RingReady(Do(s, j, e), k)
    ensures IsPath(s, [s, Do(s, j, e), Do(Do(s, j, e), k, f)], [Action(j, e), Action(k, f)])
  {
    hide Do, Enabled, RingReady;
  }

  // With no writer open or opening, a parked reader stays parked along every continuation in which
  // nobody starts to open for writing and no signal reaches it, exactly when `full` is zero and no
  // reader is passing through the turnstile.
  lemma ReaderIsStranded(s: Sys, i: nat)
    requires Reachable(s) && NoWriter(s) && i < |s.procs| && s.procs[i].pc.ReadParked?
    ensures StaysParked(s, i) <==>
            s.full == 0 && forall j :: 0 <= j < |s.procs| ==> !s.procs[j].pc.ReadTurn?
  {
    ReachableInv(s);
    ReachableModes(s);
    if s.full > 0 {
      ReaderTakesFull(s, i);
      OneStepPath(s, i, Go);
      NotParked(s, i, [s, Do(s, i, Go)], [Action(i, Go)]);
    } else if j: nat :| j < |s.procs| && s.procs[j].pc.ReadTurn? {
      ReaderRaisesFull(s, i, j);
      var t := Do(s, j, Go);
      StepKeepsInv(s, j, Go);
      ReaderTakesFull(t, i);
      TwoStepPath(s, j, Go, i, Go);
      NotParked(s, i, [s, t, Do(t, i, Go)], [Action(j, Go), Action(i, Go)]);
    } else {
      forall states: seq<Sys>, acts: seq<Action> | IsPath(s, states, acts) && Undisturbed(acts, i)
        ensures var t := states[|acts|]; i < |t.procs| && t.procs[i].pc.ReadParked?
      {
        StrandedPath(s, i, states, acts, |acts|);
      }
    }
  }

  lemma NotParked(s: Sys, i: nat, states: seq<Sys>, acts: seq<Action>)
    requires IsPath(s, states, acts) && Undisturbed(acts, i) && i < |states[|acts|].procs|
    requires !states[|acts|].procs[i].pc.ReadParked?
    ensures !StaysParked(s, i)
  {
  }

  // A reader turns back from an empty buffer when it finds no writer, but the last writer to
  // leave wakes nobody: from boot, two processes reach a state where a read is parked, no writer
  // is open, and no call in progress can take another step.
  lemma ReaderCanBeStranded(s: Sys) returns (t: Sys)
    requires Init(s) && |s.procs| == 2
    ensures Reachable(t)
    ensures |t.procs| == 2 && t.procs[1].pc.ReadParked? && t.writers == 0 && !SomeoneMoves(t)
    ensures NoWriter(t) && StaysParked(t, 1)
  {
    hide Reachable;
    var s1 := BothOpen(s);
    var looked := ReaderFindsNothing(s1);
    var s2 := ReaderParks(looked);
    StepReachable(s2, 0, CallRelease);
    var s3 := Do(s2, 0, CallRelease);
    StepReachable(s3, 0, Go);
    var s4 := Do(s3, 0, Go);
    StepReachable(s4, 0, Go);
    t := Do(s4, 0, Go);
    assert !Unfinished(t.procs[0]) && !Enabled(t, 1, Go);
    ReaderIsStranded(t, 1);
  }

  // ----- a run that skips a down and cuts a message short -----

  const READER: Proc := Proc(Idle, true, false, [], 0, 0)
  const BOTH: Proc := Proc(Idle, true, true, [], 0, 0)

  // Process i opens in three steps: open, take semaphore_rw, be counted.
  lemma Opens(s: Sys, i: nat, reading: bool, writing: bool) returns (t: Sys)
    requires Reachable(s) && i < |s.procs| && s.procs[i].pc == Closed && s.rw == 1 && (reading || writing)
    ensures Reachable(t)
    ensures t == s.(readers := Bump(reading, s.readers, 1), writers := Bump(writing, s.writers, 1),
                    procs := s.procs[i := Proc(Idle, reading, writing, [], 0, 0)])
  {
    hide Reachable;
    var e := CallOpen(reading, writing);
    StepReachable(s, i, e);
    var s1 := Do(s, i, e);
    StepReachable(s1, i, Go);
    var s2 := Do(s1, i, Go);
    StepReachable(s2, i, Go);
    t := Do(s2, i, Go);
    assert t.procs == s.procs[i := Proc(Idle, reading, writing, [], 0, 0)];
  }

  // Process 0, open for both, writes one byte.
  lemma WritesOne(s: Sys, b: Byte) returns (t: Sys)
    requires Reachable(s) && |s.procs| == 2 && s.procs[0] == BOTH && s.dev == 1
    requires s.ring.Valid() && s.ring.numItems == 0 && s.empty > 0
    ensures Reachable(t)
    ensures t == s.(ring := Put(s.ring, [b]), sent := s.sent + [[b]], empty := s.empty - 1, full := s.full + 1,
                    procs := [BOTH.(data := [b], count := 1, ret := 1), s.procs[1]])
  {
    hide Reachable;
    StepReachable(s, 0, CallWrite([b]));
    var s1 := Do(s, 0, CallWrite([b]));
    StepReachable(s1, 0, Go);
    var s2 := Do(s1, 0, Go);
    StepReachable(s2, 0, Go);
    var s3 := Do(s2, 0, Go);
    StepReachable(s3, 0, Go);
    var s4 := Do(s3, 0, Go);
    StepReachable(s4, 0, Go);
    var s5 := Do(s4, 0, Go);
    StepReachable(s5, 0, Go);
    var s6 := Do(s5, 0, Go);
    StepReachable(s6, 0, Go);
    t := Do(s6, 0, Go);
    assert t.procs == [BOTH.(data := [b], count := 1, ret := 1), s.procs[1]];
  }

  // Process 0 calls read with a count of zero and gets to the item.
  lemma ReadGetsIn(s: Sys) returns (t: Sys)
    requires Reachable(s) && |s.procs| == 2 && s.procs[0].pc == Idle && s.procs[0].canRead
    requires s.dev == 1 && s.ring.Valid() && s.ring.numItems == 1
    ensures Reachable(t) && |t.procs| == 2 && t.procs[0].pc == ReadCopy && t.procs[0].count == 0
    ensures t.ring == s.ring && t.full == s.full && t.skipped == s.skipped && t.received == s.received
  {
    hide Reachable;
    StepReachable(s, 0, CallRead(0));
    var s1 := Do(s, 0, CallRead(0));
    StepReachable(s1, 0, Go);
    var s2 := Do(s1, 0, Go);
    StepReachable(s2, 0, Go);
    t := Do(s2, 0, Go);
  }

  // It reads the item, and a signal reaches it at line 282.
  lemma ReadsNothing(s: Sys) returns (t: Sys)
    requires Reachable(s) && |s.procs| == 2 && s.procs[0].pc == ReadCopy && s.procs[0].count == 0
    requires s.ring.Valid() && s.ring.numItems == 1 && s.full == 0
    ensures Reachable(t) && t.skipped == s.skipped + 1
    ensures var item := ItemIn(s.ring, s.ring.nextItem);
            t.received == s.received + [Receipt(item, 0, Delivered(item, 0), |item|)]
  {
    hide Reachable;
    StepReachable(s, 0, Go);
    var s1 := Do(s, 0, Go);
    TakeDropsFirst(s.ring);
    StepReachable(s1, 0, Interrupt);
    t := Do(s1, 0, Interrupt);
  }

  // From boot: process 1 parks on an empty buffer; process 0 writes a byte; process 1 is through the
  // down of its turnstile when process 0 reads the byte, so that line 282 would block and a signal
  // makes it skip its down. The read asked for no byte, delivered none, and returned one.
  lemma DownCanBeSkipped(s: Sys) returns (t: Sys)
    requires Init(s) && |s.procs| == 2
    ensures Reachable(t) && t.skipped == 1
    ensures |t.received| == 1
    ensures var r := t.received[0]; r.asked < |r.item| && r.delivered == [] && r.returned == 1
  {
    hide Reachable;
    InitReachable(s);
    var s1 := Opens(s, 0, true, true);
    var s2 := Opens(s1, 1, true, false);
    assert s2.procs == [BOTH, READER];
    var s3 := ReaderFindsNothing(s2);
    var s4 := ReaderParks(s3);
    assert s4.procs[0] == BOTH;
    var s5 := WritesOne(s4, 7);
    PutAppends(s4.ring, [7]);
    StepReachable(s5, 1, Go);
    var s6 := Do(s5, 1, Go);
    OneItem(s4.ring, [7]);
    var s7 := ReadGetsIn(s6);
    t := ReadsNothing(s7);
  }

  lemma OneItem(ring: Ring, item: Item)
    requires ring.Valid() && ring.numItems == 0
    ensures var r := Put(ring, item); r.Valid() && r.numItems == 1 && ItemIn(r, r.nextItem) == item
  {
  }
}
