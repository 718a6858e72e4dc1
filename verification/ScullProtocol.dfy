/** The scullBuffer driver as interleaved steps: any number of open files, each with a program
    counter, sharing the device semaphore, the reader/writer-count semaphore, `full` and
    `empty`.  Step names carry the line of scullBuffer.c they execute. */
module ScullProtocol {
  import opened ScullRing

  datatype PC =
    | Closed
    | OpenWait                  // 129: down semaphore_rw
    | OpenCrit                  // 132-140: count the user, up semaphore_rw
    | Idle                      // open, between calls
    | ReleaseWait               // 150
    | ReleaseCrit               // 153-159
    | WriteEnter                // 175: down semaphore_dev
    | WriteCheck                // 178-182: cut the count, is the buffer full?
    | WriteAskRw                // 184: down semaphore_rw, holding dev
    | WriteRw                   // 188: any readers?  up semaphore_rw
    | WriteGiveUp               // 185, 190: up semaphore_dev and return
    | WriteLetGo                // 194: up semaphore_dev and wait
    | WriteParked               // 196: down semaphore_empty
    | WriteTurn                 // 199: up semaphore_empty, go to begin2
    | WriteCopy                 // 204-213: fill the slot
    | WriteTake                 // 214: down semaphore_empty, holding dev
    | WriteSignal               // 215: up semaphore_full
    | WriteLeave                // 219: up semaphore_dev
    | ReadEnter                 // 238
    | ReadCheck                 // 241-244
    | ReadAskRw                 // 245
    | ReadRw                    // 249: any writers?
    | ReadGiveUp                // 246, 263
    | ReadLetGo                 // 253
    | ReadParked                // 254: down semaphore_full
    | ReadTurn                  // 257: up semaphore_full, go to begin1
    | ReadCopy                  // 269-280: empty the slot
    | ReadTake                  // 282: down semaphore_full, holding dev, result ignored
    | ReadSignal                // 284: up semaphore_empty
    | ReadLeave                 // 291

  // One open file: its mode, and the arguments and result of its current or last call.
  datatype Proc = Proc(pc: PC, canRead: bool, canWrite: bool, data: seq<Byte>, count: nat, ret: int)

  datatype Event =
    | Go                        // the next instruction; a down needs a positive semaphore
    | Interrupt                 // a signal ends an interruptible down that would block
    | CopyFault(junk: Item)     // the user copy stops after writing `junk`
    | CallOpen(reading: bool, writing: bool)
    | CallRelease
    | CallWrite(buf: seq<Byte>)
    | CallRead(wanted: nat)

  // What a read took, what it copied out, and what it returned.
  datatype Receipt = Receipt(item: Item, asked: nat, delivered: Item, returned: int)

  datatype Sys = Sys(
    ring: Ring,
    dev: nat,
    rw: nat,
    full: nat,
    empty: nat,
    readers: int,
    writers: int,
    procs: seq<Proc>,
    sent: seq<Item>,            // committed writes, in order
    received: seq<Receipt>,     // completed reads, in order
    skipped: nat,               // signals at line 282, whose down was skipped
    lostReaders: nat,           // signals at line 150, whose decrement was skipped
    lostWriters: nat)

  const ERESTARTSYS: int := -512

  // The bytes of a user buffer that one write stores.
  function Cut(buf: seq<Byte>): Item {
    if |buf| > ITEM_SIZE then buf[..ITEM_SIZE] else buf
  }

  predicate Enabled(s: Sys, i: nat, e: Event) {
    && i < |s.procs|
    && match s.procs[i].pc {
         case Closed => e.CallOpen? && (e.reading || e.writing)
         case Idle =>
           || e.CallRelease?
           || (e.CallWrite? && s.procs[i].canWrite)
           || (e.CallRead? && s.procs[i].canRead)
         case OpenWait | ReleaseWait | WriteAskRw | ReadAskRw =>
           (e.Go? && s.rw > 0) || (e.Interrupt? && s.rw == 0)
         case WriteEnter | ReadEnter =>
           (e.Go? && s.dev > 0) || (e.Interrupt? && s.dev == 0)
         case WriteParked => (e.Go? && s.empty > 0) || (e.Interrupt? && s.empty == 0)
         case ReadParked | ReadTake => (e.Go? && s.full > 0) || (e.Interrupt? && s.full == 0)
         case WriteTake => e.Go? && s.empty > 0
         case WriteCopy | ReadCopy => e.Go? || e.CopyFault?
         case _ => e.Go?
       }
  }

  function Bump(b: bool, n: int, step: int): int {
    if b then n + step else n
  }

  function NatBump(b: bool, n: nat): nat {
    if b then n + 1 else n
  }

  function Move(s: Sys, i: nat, pc: PC): Sys
    requires i < |s.procs|
  {
    s.(procs := s.procs[i := s.procs[i].(pc := pc)])
  }

  // Return from a call with a result.
  function Return(s: Sys, i: nat, ret: int): Sys
    requires i < |s.procs|
  {
    s.(procs := s.procs[i := s.procs[i].(pc := Idle, ret := ret)])
  }

  predicate RingReady(s: Sys, i: nat) {
    && i < |s.procs| && s.ring.Valid()
    && (s.procs[i].pc.WriteCopy? ==> s.ring.numItems < s.ring.Size())
    && (s.procs[i].pc.ReadCopy? ==> s.ring.numItems > 0)
  }

  function OpenStep(s: Sys, i: nat, e: Event): Sys
    requires Enabled(s, i, e)
  {
    var p := s.procs[i];
    match p.pc
    case Closed =>
      s.(procs := s.procs[i := Proc(OpenWait, e.reading, e.writing, [], 0, 0)])
    case OpenWait =>
      if e.Interrupt? then Move(s, i, Closed) else Move(s.(rw := s.rw - 1), i, OpenCrit)
    case OpenCrit =>
      Return(s.(readers := Bump(p.canRead, s.readers, 1), writers := Bump(p.canWrite, s.writers, 1),
                rw := s.rw + 1), i, 0)
    case Idle =>
      (match e
       case CallWrite(buf) => s.(procs := s.procs[i := p.(pc := WriteEnter, data := buf, count := |buf|, ret := 0)])
       case CallRead(wanted) => s.(procs := s.procs[i := p.(pc := ReadEnter, count := wanted, ret := 0)])
       case _ => Move(s, i, ReleaseWait))
    case ReleaseWait =>
      if e.Interrupt? then
        Move(s.(lostReaders := NatBump(p.canRead, s.lostReaders),
                lostWriters := NatBump(p.canWrite, s.lostWriters)), i, Closed)
      else Move(s.(rw := s.rw - 1), i, ReleaseCrit)
    case ReleaseCrit =>
      Move(s.(readers := Bump(p.canRead, s.readers, -1), writers := Bump(p.canWrite, s.writers, -1),
              rw := s.rw + 1), i, Closed)
    case _ => s
  }

  function WriteStep(s: Sys, i: nat, e: Event): Sys
    requires Enabled(s, i, e) && RingReady(s, i)
  {
    var p := s.procs[i];
    match p.pc
    case WriteEnter =>
      if e.Interrupt? then Return(s, i, ERESTARTSYS) else Move(s.(dev := s.dev - 1), i, WriteCheck)
    case WriteCheck =>
      s.(procs := s.procs[i := p.(count := if p.count > ITEM_SIZE then ITEM_SIZE else p.count,
                                  pc := if s.ring.numItems >= s.ring.Size() then WriteAskRw else WriteCopy)])
    case WriteAskRw =>
      if e.Interrupt? then s.(procs := s.procs[i := p.(pc := WriteGiveUp, ret := ERESTARTSYS)])
      else Move(s.(rw := s.rw - 1), i, WriteRw)
    case WriteRw =>
      Move(s.(rw := s.rw + 1), i, if s.readers <= 0 then WriteGiveUp else WriteLetGo)
    case WriteGiveUp => Move(s.(dev := s.dev + 1), i, Idle)
    case WriteLetGo => Move(s.(dev := s.dev + 1), i, WriteParked)
    case WriteParked =>
      if e.Interrupt? then Return(s, i, ERESTARTSYS) else Move(s.(empty := s.empty - 1), i, WriteTurn)
    case WriteTurn => Move(s.(empty := s.empty + 1), i, WriteEnter)
    case WriteCopy =>
      var data := Cut(p.data);
      if e.CopyFault? then
        s.(ring := Scribble(s.ring, e.junk),
           procs := s.procs[i := p.(pc := WriteLeave, ret := EFAULT)])
      else
        s.(ring := Put(s.ring, data), sent := s.sent + [data],
           procs := s.procs[i := p.(pc := WriteTake, ret := |data|)])
    case WriteTake => if s.empty == 0 then s else Move(s.(empty := s.empty - 1), i, WriteSignal)
    case WriteSignal => Move(s.(full := s.full + 1), i, WriteLeave)
    case WriteLeave => Move(s.(dev := s.dev + 1), i, Idle)
    case _ => s
  }

  function ReadStep(s: Sys, i: nat, e: Event): Sys
    requires Enabled(s, i, e) && RingReady(s, i)
  {
    var p := s.procs[i];
    match p.pc
    case ReadEnter =>
      if e.Interrupt? then Return(s, i, ERESTARTSYS) else Move(s.(dev := s.dev - 1), i, ReadCheck)
    case ReadCheck =>
      s.(procs := s.procs[i := p.(count := if p.count > ITEM_SIZE then ITEM_SIZE else p.count,
                                  pc := if s.ring.numItems == 0 then ReadAskRw else ReadCopy)])
    case ReadAskRw =>
      if e.Interrupt? then s.(procs := s.procs[i := p.(pc := ReadGiveUp, ret := ERESTARTSYS)])
      else Move(s.(rw := s.rw - 1), i, ReadRw)
    case ReadRw =>
      Move(s.(rw := s.rw + 1), i, if s.writers > 0 then ReadLetGo else ReadGiveUp)
    case ReadGiveUp => Move(s.(dev := s.dev + 1), i, Idle)
    case ReadLetGo => Move(s.(dev := s.dev + 1), i, ReadParked)
    case ReadParked =>
      if e.Interrupt? then Return(s, i, ERESTARTSYS) else Move(s.(full := s.full - 1), i, ReadTurn)
    case ReadTurn => Move(s.(full := s.full + 1), i, ReadEnter)
    case ReadCopy =>
      var item := ItemIn(s.ring, s.ring.nextItem);
      if e.CopyFault? then s.(procs := s.procs[i := p.(pc := ReadLeave, ret := EFAULT)])
      else
        s.(ring := Take(s.ring),
           received := s.received + [Receipt(item, p.count, Delivered(item, p.count), |item|)],
           procs := s.procs[i := p.(pc := ReadTake, ret := |item|)])
    case ReadTake =>
      if e.Interrupt? then Move(s.(skipped := s.skipped + 1), i, ReadSignal)
      else Move(s.(full := s.full - 1), i, ReadSignal)
    case ReadSignal => Move(s.(empty := s.empty + 1), i, ReadLeave)
    case ReadLeave => Move(s.(dev := s.dev + 1), i, Idle)
    case _ => s
  }

  predicate InWrite(pc: PC) {
    match pc
    case WriteEnter | WriteCheck | WriteAskRw | WriteRw | WriteGiveUp | WriteLetGo |
           WriteParked | WriteTurn | WriteCopy | WriteTake | WriteSignal | WriteLeave => true
    case _ => false
  }

  predicate InRead(pc: PC) {
    match pc
    case ReadEnter | ReadCheck | ReadAskRw | ReadRw | ReadGiveUp | ReadLetGo | ReadParked |
           ReadTurn | ReadCopy | ReadTake | ReadSignal | ReadLeave => true
    case _ => false
  }

  function Do(s: Sys, i: nat, e: Event): Sys
    requires Enabled(s, i, e) && RingReady(s, i)
  {
    if InWrite(s.procs[i].pc) then WriteStep(s, i, e)
    else if InRead(s.procs[i].pc) then ReadStep(s, i, e)
    else OpenStep(s, i, e)
  }

  // The state after scull_init_module, with room for any number of open files.
  predicate Init(s: Sys) {
    && s.ring.Valid() && s.ring.nextItem == 0 && s.ring.numItems == 0
    && s.dev == 1 && s.rw == 1 && s.full == 0 && s.empty == s.ring.Size()
    && s.readers == 0 && s.writers == 0
    && (forall i :: 0 <= i < |s.procs| ==> s.procs[i].pc == Closed)
    && s.sent == [] && s.received == []
    && s.skipped == 0 && s.lostReaders == 0 && s.lostWriters == 0
  }

  // ----- who holds what -----

  predicate HoldsDev(p: Proc) {
    match p.pc
    case WriteCheck | WriteAskRw | WriteRw | WriteGiveUp | WriteLetGo | WriteCopy |
           WriteTake | WriteSignal | WriteLeave | ReadCheck | ReadAskRw | ReadRw | ReadGiveUp |
           ReadLetGo | ReadCopy | ReadTake | ReadSignal | ReadLeave => true
    case _ => false
  }

  predicate HoldsRw(p: Proc) {
    match p.pc
    case OpenCrit | ReleaseCrit | WriteRw | ReadRw => true
    case _ => false
  }

  predicate Opened(pc: PC) {
    !pc.Closed? && !pc.OpenWait? && !pc.OpenCrit?
  }

  predicate CountedReader(p: Proc) {
    p.canRead && Opened(p.pc)
  }

  predicate CountedWriter(p: Proc) {
    p.canWrite && Opened(p.pc)
  }

  predicate IsWriteTurn(p: Proc) { p.pc.WriteTurn? }
  predicate IsReadTurn(p: Proc) { p.pc.ReadTurn? }
  predicate IsWriteTake(p: Proc) { p.pc.WriteTake? }
  predicate IsReadTake(p: Proc) { p.pc.ReadTake? }
  predicate IsWriteSignal(p: Proc) { p.pc.WriteSignal? }
  predicate IsReadSignal(p: Proc) { p.pc.ReadSignal? }

  function Count(ps: seq<Proc>, f: Proc -> bool): nat {
    if ps == [] then 0 else Count(ps[..|ps| - 1], f) + if f(ps[|ps| - 1]) then 1 else 0
  }

  function Items(rs: seq<Receipt>): (items: seq<Item>)
    ensures |items| == |rs|
    ensures forall k :: 0 <= k < |rs| ==> items[k] == rs[k].item
  {
    seq(|rs|, k requires 0 <= k < |rs| => rs[k].item)
  }

  // ----- the invariant -----

  ghost predicate Mutex(s: Sys) {
    && s.dev + Count(s.procs, HoldsDev) == 1
    && s.rw + Count(s.procs, HoldsRw) == 1
  }

  // `full` and the readers passing through its turnstile account for the items, and `empty` and
  // its turnstile for the free slots, but for the process inside the critical section and the
  // downs that signals skipped at line 282.
  ghost predicate FullAccount(s: Sys) {
    s.full + Count(s.procs, IsReadTurn)
    == s.ring.numItems + Count(s.procs, IsReadTake) + s.skipped
       - Count(s.procs, IsWriteTake) - Count(s.procs, IsWriteSignal)
  }

  ghost predicate EmptyAccount(s: Sys) {
    s.empty + Count(s.procs, IsWriteTurn)
    == s.ring.Size() - s.ring.numItems + Count(s.procs, IsWriteTake)
       - Count(s.procs, IsReadTake) - Count(s.procs, IsReadSignal)
  }

  ghost predicate Semaphores(s: Sys) {
    FullAccount(s) && EmptyAccount(s)
  }

  ghost predicate Users(s: Sys) {
    && s.readers == Count(s.procs, CountedReader) + s.lostReaders
    && s.writers == Count(s.procs, CountedWriter) + s.lostWriters
  }

  ghost predicate Slots(s: Sys) {
    && s.ring.Valid()
    && forall i :: 0 <= i < |s.procs| ==>
         && (s.procs[i].pc.WriteCopy? ==> s.ring.numItems < s.ring.Size())
         && (s.procs[i].pc.ReadCopy? ==> s.ring.numItems > 0)
  }

  ghost predicate Messages(s: Sys) {
    && s.ring.Valid()
    && s.sent == Items(s.received) + Contents(s.ring)
    && forall k :: 0 <= k < |s.received| ==>
         var r := s.received[k];
         r.delivered == Delivered(r.item, r.asked) && r.returned == |r.item|
  }

  ghost predicate Inv(s: Sys) {
    Slots(s) && Mutex(s) && Semaphores(s) && Users(s) && Messages(s)
  }
}
