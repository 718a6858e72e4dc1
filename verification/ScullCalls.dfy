/** What each call of the driver comes to over a run: the bytes a write commits and returns are those of the buffer it
    was called with, and a read asks for what it was called with. */
module ScullCalls {
  import opened ScullRing
  import opened ScullProtocol
  import opened ScullTheorems

  // ----- the call a process is in -----

  predicate IsCall(e: Event) {
    e.CallOpen? || e.CallRelease? || e.CallWrite? || e.CallRead?
  }

  // The last call of process i before action t; -1 if there is none.
  function LastCall(acts: seq<Action>, t: nat, i: nat): (c: int)
    requires t <= |acts|
    ensures -1 <= c < t
    ensures c >= 0 ==> acts[c].proc == i && IsCall(acts[c].event)
    ensures forall u :: c < u < t && acts[u].proc == i ==> !IsCall(acts[u].event)
  {
    if t == 0 then -1
    else if acts[t - 1].proc == i && IsCall(acts[t - 1].event) then t - 1
    else LastCall(acts, t - 1, i)
  }

  function AtMost512(n: nat): nat {
    if n < 512 then n else 512
  }

  // In a read whose count has been cut.
  predicate ReadCut(pc: PC) {
    InRead(pc) && !pc.ReadEnter? && !pc.ReadCheck?
  }

  // What a process in the middle of a call knows of it.
  ghost predicate InCall(p: Proc, e: Event) {
    && (InWrite(p.pc) ==> e == CallWrite(p.data) && WriteResult(p.pc, AtMost512(|p.data|), p.ret))
    && (InRead(p.pc) ==>
          && e.CallRead? && (p.count == e.wanted || p.count == AtMost512(e.wanted))
          && (ReadCut(p.pc) ==> p.count == AtMost512(e.wanted)) && ReadResult(p.pc, p.ret))
  }

  // The result a write has so far: the length after it committed, or -EFAULT; nothing or -ERESTARTSYS where it gives
  // up.
  predicate WriteResult(pc: PC, length: nat, ret: int) {
    match pc
    case WriteTake | WriteSignal => ret == length
    case WriteLeave => ret == length || ret == -14
    case WriteGiveUp => ret == 0 || ret == -512
    case _ => ret == 0
  }

  predicate ReadResult(pc: PC, ret: int) {
    match pc
    case ReadTake | ReadSignal | ReadLeave => true
    case ReadGiveUp => ret == 0 || ret == -512
    case _ => ret == 0
  }

  lemma WriteStepInCall(s: Sys, i: nat, e: Event, call: Event)
    requires Enabled(s, i, e) && RingReady(s, i) && InWrite(s.procs[i].pc) && InCall(s.procs[i], call)
    ensures |WriteStep(s, i, e).procs| == |s.procs| && InCall(WriteStep(s, i, e).procs[i], call) && !IsCall(e)
  {
  }

  lemma ReadStepInCall(s: Sys, i: nat, e: Event, call: Event)
    requires Enabled(s, i, e) && RingReady(s, i) && InRead(s.procs[i].pc) && InCall(s.procs[i], call)
    ensures |ReadStep(s, i, e).procs| == |s.procs| && InCall(ReadStep(s, i, e).procs[i], call) && !IsCall(e)
  {
  }

  lemma OpenStepInCall(s: Sys, i: nat, e: Event, call: Event)
    requires Enabled(s, i, e) && !InWrite(s.procs[i].pc) && !InRead(s.procs[i].pc)
    ensures |OpenStep(s, i, e).procs| == |s.procs|
    ensures InCall(OpenStep(s, i, e).procs[i], if IsCall(e) then e else call)
  {
  }

  // The event of the last call, or any.
  function CallAt(acts: seq<Action>, t: nat, i: nat): Event
    requires t <= |acts|
  {
    var c := LastCall(acts, t, i);
    if c >= 0 then acts[c].event else CallRelease
  }

  // Along a run every process is in the call it made last.
  lemma {:induction false} RunInCall(states: seq<Sys>, acts: seq<Action>, t: nat, i: nat)
    requires IsRun(states, acts) && t < |states| && i < |states[t].procs|
    ensures InCall(states[t].procs[i], CallAt(acts, t, i))
  {
    if t > 0 {
      var s, j, e := states[t - 1], acts[t - 1].proc, acts[t - 1].event;
      RunStep(states, acts, t - 1);
      RunInCall(states, acts, t - 1, i);
      OnlyMoves(s, j, e);
      hide InCall, WriteStep, ReadStep, OpenStep, Enabled, RingReady, IsRun;
      if i == j {
        if InWrite(s.procs[i].pc) {
          WriteStepInCall(s, i, e, CallAt(acts, t - 1, i));
        } else if InRead(s.procs[i].pc) {
          ReadStepInCall(s, i, e, CallAt(acts, t - 1, i));
        } else {
          OpenStepInCall(s, i, e, CallAt(acts, t - 1, i));
        }
      }
    } else {
      Initially(states, acts, i);
    }
  }

  lemma RunStep(states: seq<Sys>, acts: seq<Action>, t: nat)
    requires IsRun(states, acts) && t < |acts|
    ensures |states| == |acts| + 1 && Enabled(states[t], acts[t].proc, acts[t].event)
    ensures RingReady(states[t], acts[t].proc) && states[t + 1] == Do(states[t], acts[t].proc, acts[t].event)
    ensures acts[t].proc < |states[t].procs| == |states[t + 1].procs|
  {
    OnlyMoves(states[t], acts[t].proc, acts[t].event);
    hide Do;
  }

  lemma Initially(states: seq<Sys>, acts: seq<Action>, i: nat)
    requires IsRun(states, acts) && i < |states[0].procs|
    ensures states[0].procs[i].pc == Closed && states[0].sent == [] && states[0].received == []
  {
  }

  // ----- what a write stores -----

  // Action t commits an item.
  ghost predicate Commits(states: seq<Sys>, acts: seq<Action>, t: nat) {
    t < |acts| && t + 1 < |states| && states[t + 1].sent != states[t].sent
  }

  // Action t completes a read.
  ghost predicate Receives(states: seq<Sys>, acts: seq<Action>, t: nat) {
    t < |acts| && t + 1 < |states| && states[t + 1].received != states[t].received
  }

  lemma CommitStep(s: Sys, i: nat, e: Event)
    requires Enabled(s, i, e) && RingReady(s, i) && Do(s, i, e).sent != s.sent
    ensures var s' := Do(s, i, e);
            && i < |s'.procs| && InWrite(s.procs[i].pc) && s'.procs[i].pc.WriteTake?
            && s'.procs[i].data == s.procs[i].data
            && s'.sent == s.sent + [s.procs[i].data[..AtMost512(|s.procs[i].data|)]]
            && s'.procs[i].ret == AtMost512(|s.procs[i].data|)
  {
    var data := s.procs[i].data;
    assert data[..|data|] == data;
  }

  // Each entry that joins `sent` is a prefix of the buffer of the call its process is in, of the length of the
  // buffer or 512, whichever is less; and that length is what the call is about to return.
  lemma WriteStoresItsBytes(states: seq<Sys>, acts: seq<Action>, t: nat)
    requires IsRun(states, acts) && Commits(states, acts, t)
    ensures var i := acts[t].proc; var c := LastCall(acts, t, i);
            && 0 <= c && acts[c].event.CallWrite? && i < |states[t + 1].procs|
            && var buf := acts[c].event.buf; var length := AtMost512(|buf|);
               && states[t + 1].sent == states[t].sent + [buf[..length]]
               && states[t + 1].procs[i].ret == length && states[t + 1].procs[i].pc.WriteTake?
  {
    var i := acts[t].proc;
    RunStep(states, acts, t);
    CommitStep(states[t], i, acts[t].event);
    RunInCall(states, acts, t, i);
    hide Do, Enabled, RingReady, IsRun;
  }

  // From the commit to the end of the call nothing is committed again and the result stays.
  lemma CommittedStep(s: Sys, i: nat, e: Event)
    requires Enabled(s, i, e) && RingReady(s, i)
    requires s.procs[i].pc.WriteTake? || s.procs[i].pc.WriteSignal? || s.procs[i].pc.WriteLeave?
    ensures var s' := Do(s, i, e);
            && s'.sent == s.sent && i < |s'.procs| && s'.procs[i].ret == s.procs[i].ret
            && (s'.procs[i].pc.WriteSignal? || s'.procs[i].pc.WriteLeave? || s'.procs[i].pc.Idle?)
  {
  }

  // Process i has committed at action t and not made another call before state u.
  ghost predicate StillReturning(states: seq<Sys>, acts: seq<Action>, t: nat, u: nat)
    requires t < u <= |acts| && u < |states|
  {
    var i := acts[t].proc;
    && t + 1 < |states| && i < |states[u].procs| && i < |states[t + 1].procs|
    && (LastCall(acts, u, i) > t ||
        (states[u].procs[i].ret == states[t + 1].procs[i].ret
         && var pc := states[u].procs[i].pc; pc.WriteTake? || pc.WriteSignal? || pc.WriteLeave? || pc.Idle?))
  }

  lemma {:induction false} AfterCommit(states: seq<Sys>, acts: seq<Action>, t: nat, u: nat)
    requires IsRun(states, acts) && Commits(states, acts, t) && t < u < |states|
    ensures u <= |acts| && StillReturning(states, acts, t, u)
    decreases u
  {
    var i := acts[t].proc;
    RunStep(states, acts, t);
    WriteStoresItsBytes(states, acts, t);
    if u > t + 1 {
      AfterCommit(states, acts, t, u - 1);
      RunStep(states, acts, u - 1);
      var s, j, e := states[u - 1], acts[u - 1].proc, acts[u - 1].event;
      OnlyMoves(s, j, e);
      if i == j && !IsCall(e) && !s.procs[i].pc.Idle? && LastCall(acts, u - 1, i) <= t {
        CommittedStep(s, i, e);
      } else if i == j && s.procs[i].pc.Idle? {
        IdleCalls(s, i, e);
      }
    }
    hide Do, Enabled, RingReady, IsRun;
  }

  lemma IdleCalls(s: Sys, i: nat, e: Event)
    requires Enabled(s, i, e) && s.procs[i].pc.Idle?
    ensures IsCall(e)
  {
  }

  // So a call that has committed returns the length of what it stored: the next time its process is idle, before it
  // calls again, that is the result.
  lemma WriteReturnsItsLength(states: seq<Sys>, acts: seq<Action>, t: nat, u: nat)
    requires IsRun(states, acts) && Commits(states, acts, t) && t < u < |states|
    requires LastCall(acts, u, acts[t].proc) <= t
    ensures var i := acts[t].proc; var c := LastCall(acts, t, i);
            && 0 <= c && acts[c].event.CallWrite? && i < |states[u].procs|
            && states[u].procs[i].ret == AtMost512(|acts[c].event.buf|)
  {
    WriteStoresItsBytes(states, acts, t);
    AfterCommit(states, acts, t, u);
    hide IsRun;
  }

  // No call commits twice.
  lemma OneCommitACall(states: seq<Sys>, acts: seq<Action>, t: nat, u: nat)
    requires IsRun(states, acts) && Commits(states, acts, t) && Commits(states, acts, u) && t < u
    ensures LastCall(acts, t, acts[t].proc) >= 0 && LastCall(acts, u, acts[u].proc) >= 0
    ensures LastCall(acts, t, acts[t].proc) != LastCall(acts, u, acts[u].proc)
  {
    WriteStoresItsBytes(states, acts, t);
    WriteStoresItsBytes(states, acts, u);
    if acts[t].proc == acts[u].proc {
      AfterCommit(states, acts, t, u);
      RunStep(states, acts, u);
      NotWhileReturning(states[u], acts[u].proc, acts[u].event);
    }
    hide IsRun, Do, Enabled, RingReady;
  }

  lemma NotWhileReturning(s: Sys, i: nat, e: Event)
    requires Enabled(s, i, e) && RingReady(s, i) && Do(s, i, e).sent != s.sent
    ensures s.procs[i].pc.WriteCopy?
  {
  }

  // Every entry of `sent` was committed by a call of write, made before.
  lemma {:induction false} EachEntryIsAWrite(states: seq<Sys>, acts: seq<Action>, n: nat, k: nat)
    returns (t: nat)
    requires IsRun(states, acts) && n < |states| && k < |states[n].sent|
    ensures t < n && Commits(states, acts, t) && |states[t].sent| == k
    ensures var i := acts[t].proc; var c := LastCall(acts, t, i);
            && 0 <= c && acts[c].event.CallWrite?
            && states[n].sent[k] == acts[c].event.buf[..AtMost512(|acts[c].event.buf|)]
  {
    if n == 0 {
      NothingSent(states, acts);
      assert false;
    } else {
      RunStep(states, acts, n - 1);
      if Commits(states, acts, n - 1) {
        WriteStoresItsBytes(states, acts, n - 1);
      }
      if Commits(states, acts, n - 1) && k == |states[n - 1].sent| {
        t := n - 1;
      } else {
        t := EachEntryIsAWrite(states, acts, n - 1, k);
      }
    }
    hide IsRun, Do, Enabled, RingReady;
  }

  lemma NothingSent(states: seq<Sys>, acts: seq<Action>)
    requires IsRun(states, acts)
    ensures states[0].sent == [] && states[0].received == []
  {
  }

  // ----- what a read delivers -----

  lemma ReceiveStep(s: Sys, i: nat, e: Event)
    requires Enabled(s, i, e) && RingReady(s, i) && Do(s, i, e).received != s.received
    ensures var s' := Do(s, i, e);
            && i < |s'.procs| && ReadCut(s.procs[i].pc) && s'.procs[i].pc.ReadTake?
            && |s'.received| == |s.received| + 1 && s'.received[..|s.received|] == s.received
            && s'.received[|s.received|].asked == s.procs[i].count
            && s'.received[|s.received|].returned == s'.procs[i].ret
  {
  }

  // Each receipt asks for the count of the call its process is in, or 512, whichever is less; it takes the oldest
  // item not yet read, delivers as much of it from the front as was asked for, and the result is the item's size.
  lemma ReadAsksForItsCount(states: seq<Sys>, acts: seq<Action>, t: nat)
    requires IsRun(states, acts) && Receives(states, acts, t)
    ensures var i := acts[t].proc; var c := LastCall(acts, t, i); var k := |states[t].received|;
            && 0 <= c && acts[c].event.CallRead? && i < |states[t + 1].procs|
            && |states[t + 1].received| == k + 1 && k < |states[t].sent|
            && states[t + 1].received[..k] == states[t].received
            && var r, item := states[t + 1].received[k], states[t].sent[k];
               && r.asked == AtMost512(acts[c].event.wanted) && r.item == item
               && r.delivered == (if |item| < r.asked then item else item[..r.asked])
               && r.returned == |item| == states[t + 1].procs[i].ret
  {
    var i := acts[t].proc;
    RunStep(states, acts, t);
    ReceiveStep(states[t], i, acts[t].event);
    RunInCall(states, acts, t, i);
    RunKeepsInv(states, acts, t + 1);
    ReceiptIs(states[t + 1], |states[t].received|);
    hide Do, Enabled, RingReady, IsRun;
  }

  lemma ReceiptIs(s: Sys, k: nat)
    requires Inv(s) && k < |s.received|
    ensures k < |s.sent|
    ensures var r, item := s.received[k], s.sent[k];
            && r.item == item && r.returned == |item|
            && r.delivered == if |item| < r.asked then item else item[..r.asked]
  {
    assert Items(s.received)[k] == s.received[k].item;
    hide Slots, Mutex, Semaphores, Users;
  }

  // From the receipt to the end of the call the result stays, too.
  lemma {:induction false} AfterReceive(states: seq<Sys>, acts: seq<Action>, t: nat, u: nat)
    requires IsRun(states, acts) && Receives(states, acts, t) && t < u < |states|
    requires LastCall(acts, u, acts[t].proc) <= t
    ensures acts[t].proc < |states[u].procs| && acts[t].proc < |states[t + 1].procs|
    ensures states[u].procs[acts[t].proc].ret == states[t + 1].procs[acts[t].proc].ret
    ensures var pc := states[u].procs[acts[t].proc].pc;
            pc.ReadTake? || pc.ReadSignal? || pc.ReadLeave? || pc.Idle?
    decreases u
  {
    var i := acts[t].proc;
    RunStep(states, acts, t);
    ReceiveStep(states[t], i, acts[t].event);
    if u > t + 1 {
      AfterReceive(states, acts, t, u - 1);
      RunStep(states, acts, u - 1);
      var s, j, e := states[u - 1], acts[u - 1].proc, acts[u - 1].event;
      OnlyMoves(s, j, e);
      if i == j {
        if s.procs[i].pc.Idle? {
          IdleCalls(s, i, e);
        } else {
          ReceivedStep(s, i, e);
        }
      }
    }
    hide Do, Enabled, RingReady, IsRun;
  }

  // So a call that has received returns the size of the item it took, whatever it asked for.
  lemma ReadReturnsTheSize(states: seq<Sys>, acts: seq<Action>, t: nat, u: nat)
    requires IsRun(states, acts) && Receives(states, acts, t) && t < u < |states|
    requires LastCall(acts, u, acts[t].proc) <= t
    ensures |states[t].received| < |states[t].sent| && acts[t].proc < |states[u].procs|
    ensures states[u].procs[acts[t].proc].ret == |states[t].sent[|states[t].received|]|
  {
    ReadAsksForItsCount(states, acts, t);
    AfterReceive(states, acts, t, u);
    hide IsRun, Receives;
  }

  lemma ReceivedStep(s: Sys, i: nat, e: Event)
    requires Enabled(s, i, e) && RingReady(s, i)
    requires s.procs[i].pc.ReadTake? || s.procs[i].pc.ReadSignal? || s.procs[i].pc.ReadLeave?
    ensures var s' := Do(s, i, e);
            && i < |s'.procs| && s'.procs[i].ret == s.procs[i].ret
            && (s'.procs[i].pc.ReadSignal? || s'.procs[i].pc.ReadLeave? || s'.procs[i].pc.Idle?)
  {
  }

  // ----- which way a call goes -----

  // Where a signal can end a call.
  predicate Interruptible(pc: PC) {
    pc.WriteEnter? || pc.WriteAskRw? || pc.WriteParked? || pc.ReadEnter? || pc.ReadAskRw? || pc.ReadParked?
  }

  // A write copies exactly where the ring has a free slot; else it gives up with 0 exactly where no reader is open,
  // and otherwise parks and starts over. A read copies exactly where there is an item; else it parks and starts over
  // exactly where a writer is open, and otherwise gives up with 0. A signal ends either with -ERESTARTSYS, a user copy
  // that faults with -EFAULT and nothing stored or taken.
  lemma BranchesTaken(states: seq<Sys>, acts: seq<Action>, t: nat)
    requires IsRun(states, acts) && t < |acts|
    ensures acts[t].proc < |states[t].procs| == |states[t + 1].procs|
    ensures var s, p, p' := states[t], states[t].procs[acts[t].proc], states[t + 1].procs[acts[t].proc];
            && (p.pc.WriteCheck? ==> p'.pc == if s.ring.numItems < |s.ring.slots| then WriteCopy else WriteAskRw)
            && (p.pc.WriteRw? ==> p'.pc == (if s.readers <= 0 then WriteGiveUp else WriteLetGo) && p'.ret == 0)
            && (p.pc.ReadCheck? ==> p'.pc == if s.ring.numItems > 0 then ReadCopy else ReadAskRw)
            && (p.pc.ReadRw? ==> p'.pc == (if s.writers > 0 then ReadLetGo else ReadGiveUp) && p'.ret == 0)
            && (p.pc.WriteLetGo? ==> p'.pc == WriteParked) && (p.pc.ReadLetGo? ==> p'.pc == ReadParked)
            && (p.pc.WriteTurn? ==> p'.pc == WriteEnter) && (p.pc.ReadTurn? ==> p'.pc == ReadEnter)
            && (p.pc.WriteGiveUp? || p.pc.ReadGiveUp? ==> p'.pc == Idle && p'.ret == p.ret)
            && (Interruptible(p.pc) && acts[t].event.Interrupt? ==> p'.ret == -512 && !p'.pc.WriteCopy?)
            && (acts[t].event.CopyFault? ==>
                  && p'.ret == -14 && (p'.pc.WriteLeave? || p'.pc.ReadLeave?)
                  && states[t + 1].sent == s.sent && states[t + 1].received == s.received)
  {
    var i, e := acts[t].proc, acts[t].event;
    RunStep(states, acts, t);
    RunInCall(states, acts, t, i);
    hide IsRun, CallAt;
    if InWrite(states[t].procs[i].pc) {
      WriteBranch(states[t], i, e);
    } else if InRead(states[t].procs[i].pc) {
      ReadBranch(states[t], i, e);
    } else {
      NoCopyThere(states[t], i, e);
    }
    hide WriteStep, ReadStep, OpenStep, Enabled, RingReady;
  }

  lemma NoCopyThere(s: Sys, i: nat, e: Event)
    requires Enabled(s, i, e) && !InWrite(s.procs[i].pc) && !InRead(s.procs[i].pc)
    ensures !e.CopyFault?
  {
  }

  lemma WriteBranch(s: Sys, i: nat, e: Event)
    requires Enabled(s, i, e) && RingReady(s, i) && InWrite(s.procs[i].pc)
    ensures |WriteStep(s, i, e).procs| == |s.procs|
    ensures var p, p' := s.procs[i], WriteStep(s, i, e).procs[i];
            && (p.pc.WriteCheck? ==> p'.pc == if s.ring.numItems < |s.ring.slots| then WriteCopy else WriteAskRw)
            && (p.pc.WriteRw? ==> p'.pc == (if s.readers <= 0 then WriteGiveUp else WriteLetGo) && p'.ret == p.ret)
            && (p.pc.WriteLetGo? ==> p'.pc == WriteParked) && (p.pc.WriteTurn? ==> p'.pc == WriteEnter)
            && (p.pc.WriteGiveUp? ==> p'.pc == Idle && p'.ret == p.ret)
            && (Interruptible(p.pc) && e.Interrupt? ==> p'.ret == -512 && !p'.pc.WriteCopy?)
            && (e.CopyFault? ==> p'.ret == -14 && p'.pc.WriteLeave? && WriteStep(s, i, e).sent == s.sent)
    ensures WriteStep(s, i, e).received == s.received
  {
  }

  lemma ReadBranch(s: Sys, i: nat, e: Event)
    requires Enabled(s, i, e) && RingReady(s, i) && InRead(s.procs[i].pc)
    ensures |ReadStep(s, i, e).procs| == |s.procs|
    ensures var p, p' := s.procs[i], ReadStep(s, i, e).procs[i];
            && (p.pc.ReadCheck? ==> p'.pc == if s.ring.numItems > 0 then ReadCopy else ReadAskRw)
            && (p.pc.ReadRw? ==> p'.pc == (if s.writers > 0 then ReadLetGo else ReadGiveUp) && p'.ret == p.ret)
            && (p.pc.ReadLetGo? ==> p'.pc == ReadParked) && (p.pc.ReadTurn? ==> p'.pc == ReadEnter)
            && (p.pc.ReadGiveUp? ==> p'.pc == Idle && p'.ret == p.ret)
            && (Interruptible(p.pc) && e.Interrupt? ==> p'.ret == -512 && !p'.pc.WriteCopy?)
            && (e.CopyFault? ==> p'.ret == -14 && p'.pc.ReadLeave? && ReadStep(s, i, e).received == s.received)
    ensures ReadStep(s, i, e).sent == s.sent
  {
  }

  // ----- from call to call -----

  // Every receipt was made by a call of read.
  lemma {:induction false} EachReceiptIsARead(states: seq<Sys>, acts: seq<Action>, n: nat, k: nat) returns (u: nat)
    requires IsRun(states, acts) && n < |states| && k < |states[n].received|
    ensures u < n && Receives(states, acts, u) && |states[u].received| == k
    ensures |states[u + 1].received| == k + 1 && states[u + 1].received[k] == states[n].received[k]
    ensures states[u + 1].sent <= states[n].sent
  {
    hide Do, Enabled, RingReady, IsRun, InRead;
    NothingSent(states, acts);
    RunLength(states, acts);
    RunStep(states, acts, n - 1);
    OnlyGrows(states, acts, n - 1);
    if Receives(states, acts, n - 1) && k == |states[n - 1].received| {
      u := n - 1;
    } else {
      u := EachReceiptIsARead(states, acts, n - 1, k);
    }
  }

  lemma RunLength(states: seq<Sys>, acts: seq<Action>)
    requires IsRun(states, acts)
    ensures |states| == |acts| + 1
  {
  }

  lemma OnlyGrows(states: seq<Sys>, acts: seq<Action>, t: nat)
    requires IsRun(states, acts) && t < |acts|
    ensures t + 1 < |states| && states[t].sent <= states[t + 1].sent
    ensures if Receives(states, acts, t) then
              |states[t + 1].received| == |states[t].received| + 1
              && states[t + 1].received[..|states[t].received|] == states[t].received
            else states[t + 1].received == states[t].received
  {
    RunStep(states, acts, t);
    if Commits(states, acts, t) {
      CommitStep(states[t], acts[t].proc, acts[t].event);
    }
    if Receives(states, acts, t) {
      ReceiveStep(states[t], acts[t].proc, acts[t].event);
    }
    hide Do, Enabled, RingReady, IsRun, InRead, InWrite;
  }

  // Main result: messages come out whole, in order and once. In any state of any run the items of the reads are the
  // first of the writes and the rest waits in the ring; and receipt k is that of a call of read for `wanted` bytes,
  // made after commit k, which is that of a call of write with a buffer: what came out is the front of that buffer,
  // as much as was asked for and stored, and the result is the length stored.
  lemma FifoDelivery(states: seq<Sys>, acts: seq<Action>, n: nat, k: nat) returns (t: nat, u: nat)
    requires IsRun(states, acts) && n < |states| && k < |states[n].received|
    ensures states[n].ring.Valid() && |states[n].received| <= |states[n].sent|
    ensures states[n].sent[|states[n].received|..] == Contents(states[n].ring)
    ensures t < n && u < n && Commits(states, acts, t) && Receives(states, acts, u)
    ensures |states[t].sent| == k == |states[u].received|
    ensures var c, d := LastCall(acts, t, acts[t].proc), LastCall(acts, u, acts[u].proc);
            && c >= 0 && d >= 0 && acts[c].event.CallWrite? && acts[d].event.CallRead?
            && var buf, wanted, r := acts[c].event.buf, acts[d].event.wanted, states[n].received[k];
               var stored := AtMost512(|buf|);
               && r.item == buf[..stored] && r.returned == stored
               && r.delivered == buf[..if wanted < stored then wanted else stored]
  {
    hide Do, Enabled, RingReady, IsRun, InRead, InWrite;
    RunKeepsInv(states, acts, n);
    ReceiptIs(states[n], k);
    RestWaitsInRing(states, acts, n);
    u := EachReceiptIsARead(states, acts, n, k);
    ReadAsksForItsCount(states, acts, u);
    t := EachEntryIsAWrite(states, acts, n, k);
    var buf := acts[LastCall(acts, t, acts[t].proc)].event.buf;
    var r := states[n].received[k];
    assert r.item == buf[..AtMost512(|buf|)];
    assert r.asked <= |r.item| ==> r.item[..r.asked] == buf[..r.asked];
  }

  lemma RestWaitsInRing(states: seq<Sys>, acts: seq<Action>, n: nat)
    requires IsRun(states, acts) && n < |states|
    ensures var s := states[n];
            s.ring.Valid() && |s.received| <= |s.sent| && s.sent[|s.received|..] == Contents(s.ring)
  {
    RunKeepsInv(states, acts, n);
    assert states[n].sent == Items(states[n].received) + Contents(states[n].ring);
    hide Slots, Mutex, Semaphores, Users, IsRun;
  }
}
