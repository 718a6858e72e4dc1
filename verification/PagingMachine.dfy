/** The demand paging machine of Project_2 as a value: page table, frame table, physical
    frames, disk, FIFO ring, eviction counts and the three counters.  Every operation of
    main.c is a function from machine to machine; `PagingMemory` runs them in place. */
module PagingMachine {

  const PAGE_SIZE: nat := 4096
  const INT_MAX: nat := 0x7fff_ffff

  const PROT_NONE: bv8 := 0
  const PROT_READ: bv8 := 1
  const PROT_WRITE: bv8 := 2
  const READ_WRITE: bv8 := 3 // PROT_READ | PROT_WRITE

  type Byte = b: int | 0 <= b < 256
  type Page = p: seq<Byte> | |p| == PAGE_SIZE witness seq(PAGE_SIZE, _ => 0)

  datatype Policy = Rand | Fifo | Custom

  datatype FrameEntry = FrameEntry(page: int, bits: bv8)

  // page_mapping, page_bits, frame_table, physmem and the disk
  datatype Memory = Memory(
    mapping: seq<int>,
    bits: seq<bv8>,
    frames: seq<FrameEntry>,
    physmem: seq<Page>,
    disk: seq<Page>)
  {
    function NPages(): nat { |bits| }
    function NFrames(): nat { |frames| }

    predicate Shape() {
      |mapping| == |bits| == |disk| && 1 <= |frames| == |physmem|
    }

    predicate HoldsPage(frame: int)
    {
      0 <= frame < |frames| && 0 <= frames[frame].page < NPages()
    }
  }

  // fifo_array, front and back
  datatype Ring = Ring(slots: seq<int>, front: nat, back: nat)

  // page_fault, disk_reads and disk_writes
  datatype Counters = Counters(pageFaults: nat, diskReads: nat, diskWrites: nat)

  datatype Machine = Machine(mem: Memory, ring: Ring, evics: seq<nat>, count: Counters) {
    predicate Shape() {
      && mem.Shape()
      && |evics| == mem.NPages()
      && |ring.slots| == mem.NFrames()
      && ring.front < mem.NFrames() && ring.back < mem.NFrames()
    }
  }

  // ----- the handlers as functions -----

  function SetEntry(mem: Memory, page: nat, frame: nat, bits: bv8): Memory
    requires mem.Shape() && page < mem.NPages() && frame < mem.NFrames()
  {
    mem.(mapping := mem.mapping[page := frame], bits := mem.bits[page := bits])
  }

  predicate NeedsWriteBack(mem: Memory, frame: nat)
    requires frame < mem.NFrames()
  {
    mem.frames[frame].bits & PROT_WRITE != 0
  }

  function Evict(mem: Memory, frame: nat): Memory
    requires mem.Shape() && mem.HoldsPage(frame)
  {
    var page := mem.frames[frame].page;
    var mem1 := if NeedsWriteBack(mem, frame)
                then mem.(disk := mem.disk[page := mem.physmem[frame]])
                else mem;
    SetEntry(mem1, page, frame, PROT_NONE)
      .(frames := mem.frames[frame := FrameEntry(page, PROT_NONE)])
  }

  function Load(mem: Memory, page: nat, frame: nat): Memory
    requires mem.Shape() && page < mem.NPages() && frame < mem.NFrames()
  {
    SetEntry(mem, page, frame, PROT_READ)
      .(physmem := mem.physmem[frame := mem.disk[page]],
        frames := mem.frames[frame := FrameEntry(page, PROT_READ)])
  }

  function Upgrade(mem: Memory, page: nat): Memory
    requires mem.Shape() && page < mem.NPages() && 0 <= mem.mapping[page] < mem.NFrames()
  {
    var frame := mem.mapping[page];
    SetEntry(mem, page, frame, READ_WRITE)
      .(frames := mem.frames[frame := FrameEntry(page, READ_WRITE)])
  }

  // The first frame whose bits are zero, or the number of frames when all are in use.
  function FirstFree(fs: seq<FrameEntry>): (k: nat)
    ensures k <= |fs|
    ensures forall i :: 0 <= i < k ==> fs[i].bits != PROT_NONE
    ensures k < |fs| ==> fs[k].bits == PROT_NONE
  {
    if fs == [] || fs[0].bits == PROT_NONE then 0 else 1 + FirstFree(fs[1..])
  }

  // The frame, lowest first, whose page has been evicted least often among the first n.
  function LeastEvicted(fs: seq<FrameEntry>, evics: seq<nat>, n: nat): (f: nat)
    requires 1 <= n <= |fs|
    requires forall i :: 0 <= i < n ==> 0 <= fs[i].page < |evics|
    ensures f < n
    ensures forall i :: 0 <= i < n ==> evics[fs[f].page] <= evics[fs[i].page]
    ensures forall i :: 0 <= i < f ==> evics[fs[f].page] < evics[fs[i].page]
  {
    if n == 1 then 0
    else
      var f := LeastEvicted(fs, evics, n - 1);
      if evics[fs[n - 1].page] < evics[fs[f].page] then n - 1 else f
  }

  // Load a page into a free frame: one disk read.
  function Fill(m: Machine, page: nat, frame: nat): Machine
    requires m.mem.Shape() && page < m.mem.NPages() && frame < m.mem.NFrames()
  {
    m.(mem := Load(m.mem, page, frame),
       count := m.count.(diskReads := m.count.diskReads + 1))
  }

  // Evict the page in a frame, then load another in its place.
  function Replace(m: Machine, page: nat, frame: nat): Machine
    requires m.mem.Shape() && page < m.mem.NPages() && m.mem.HoldsPage(frame)
  {
    m.(mem := Load(Evict(m.mem, frame), page, frame),
       count := m.count.(diskReads := m.count.diskReads + 1,
                         diskWrites := m.count.diskWrites + if NeedsWriteBack(m.mem, frame) then 1 else 0))
  }

  predicate AllHoldPages(mem: Memory) {
    forall f :: 0 <= f < mem.NFrames() ==> 0 <= mem.frames[f].page < mem.NPages()
  }

  // What the handlers need of the machine: a frame to use, found the way the policy finds it.
  predicate CanReplace(m: Machine, page: nat) {
    && m.Shape() && page < m.mem.NPages()
    && (FirstFree(m.mem.frames) == m.mem.NFrames() ==> AllHoldPages(m.mem))
  }

  function RandHandle(m: Machine, page: nat, choice: nat): Machine
    requires CanReplace(m, page) && choice < m.mem.NFrames()
  {
    var free := FirstFree(m.mem.frames);
    if free < m.mem.NFrames() then Fill(m, page, free) else Replace(m, page, choice)
  }

  function CustomVictim(m: Machine): nat
    requires m.Shape() && AllHoldPages(m.mem)
  {
    LeastEvicted(m.mem.frames, m.evics, m.mem.NFrames())
  }

  function CountEviction(m: Machine, victim: nat): Machine
    requires m.Shape() && m.mem.HoldsPage(victim)
  {
    var page := m.mem.frames[victim].page;
    m.(evics := m.evics[page := m.evics[page] + 1])
  }

  function CustomHandle(m: Machine, page: nat): Machine
    requires CanReplace(m, page)
  {
    var free := FirstFree(m.mem.frames);
    if free < m.mem.NFrames() then Fill(m, page, free)
    else
      var victim := CustomVictim(m);
      Replace(CountEviction(m, victim), page, victim)
  }

  // The next index round the ring.
  function Next(i: nat, n: nat): (j: nat)
    requires i < n
    ensures j == if i + 1 < n then i + 1 else 0
  {
    (i + 1) % n
  }

  // Record `frame` at the back of the ring.
  function PushBack(ring: Ring, frame: nat): Ring
    requires ring.back < |ring.slots|
  {
    ring.(slots := ring.slots[ring.back := frame], back := Next(ring.back, |ring.slots|))
  }

  function DropFront(ring: Ring): Ring
    requires ring.front < |ring.slots|
  {
    ring.(front := Next(ring.front, |ring.slots|))
  }

  predicate FrontInRange(m: Machine) {
    m.Shape() && (FirstFree(m.mem.frames) == m.mem.NFrames() ==> 0 <= m.ring.slots[m.ring.front] < m.mem.NFrames())
  }

  function FifoHandle(m: Machine, page: nat): Machine
    requires CanReplace(m, page) && FrontInRange(m)
  {
    var free := FirstFree(m.mem.frames);
    if free < m.mem.NFrames() then Fill(m.(ring := PushBack(m.ring, free)), page, free)
    else if m.ring.front == m.ring.back then
      var victim := m.ring.slots[m.ring.front];
      Replace(m.(ring := PushBack(DropFront(m.ring), victim)), page, victim)
    else m // the "error in fifo handler" branch
  }

  // What the page fault handler may be called on, for each policy.
  predicate CanFault(m: Machine, policy: Policy, page: nat, choice: nat) {
    && CanReplace(m, page)
    && (policy.Rand? ==> choice < m.mem.NFrames())
    && (policy.Fifo? ==> FrontInRange(m))
    && (m.mem.bits[page] != PROT_NONE ==> 0 <= m.mem.mapping[page] < m.mem.NFrames())
  }

  function Handle(m: Machine, policy: Policy, page: nat, choice: nat): Machine
    requires CanFault(m, policy, page, choice)
  {
    match policy
    case Rand => RandHandle(m, page, choice)
    case Fifo => FifoHandle(m, page)
    case Custom => CustomHandle(m, page)
  }

  function OneMoreFault(m: Machine): Machine {
    m.(count := m.count.(pageFaults := m.count.pageFaults + 1))
  }

  function Fault(m: Machine, policy: Policy, page: nat, choice: nat): Machine
    requires CanFault(m, policy, page, choice)
  {
    var m1 := OneMoreFault(m);
    if m.mem.bits[page] == PROT_NONE then Handle(m1, policy, page, choice)
    else if m.mem.bits[page] ^ PROT_READ == 0 then m1.(mem := Upgrade(m1.mem, page))
    else m1 // the "Error in page fault handler" branch
  }

  // ----- the invariant every handler keeps -----

  ghost predicate ResidentPages(mem: Memory)
    requires mem.Shape()
  {
    forall p :: 0 <= p < mem.NPages() && mem.bits[p] != PROT_NONE ==>
      && 0 <= mem.mapping[p] < mem.NFrames()
      && mem.frames[mem.mapping[p]] == FrameEntry(p, mem.bits[p])
  }

  ghost predicate HeldFrames(mem: Memory)
    requires mem.Shape()
  {
    forall f :: 0 <= f < mem.NFrames() && mem.frames[f].bits != PROT_NONE ==>
      && mem.HoldsPage(f)
      && mem.mapping[mem.frames[f].page] == f
      && mem.bits[mem.frames[f].page] == mem.frames[f].bits
      && (mem.frames[f].bits == PROT_READ || mem.frames[f].bits == READ_WRITE)
  }

  // A frame without the write bit is an exact copy of its disk block.
  ghost predicate CleanFrames(mem: Memory)
    requires mem.Shape()
  {
    forall f :: 0 <= f < mem.NFrames() && mem.frames[f].bits == PROT_READ && mem.HoldsPage(f) ==>
      mem.physmem[f] == mem.disk[mem.frames[f].page]
  }

  ghost predicate Coherent(mem: Memory) {
    mem.Shape() && ResidentPages(mem) && HeldFrames(mem) && CleanFrames(mem)
  }

  // Frames are taken in order and never given back.
  ghost predicate UsedIsPrefix(fs: seq<FrameEntry>) {
    forall f :: FirstFree(fs) <= f < |fs| ==> fs[f].bits == PROT_NONE
  }

  // With k of n frames used: front meets back exactly when every frame is used; before that
  // the ring lists the frames in order, afterwards it is a permutation of them.
  ghost predicate RingOrdered(ring: Ring, k: nat) {
    && var n := |ring.slots|;
    && k <= n && ring.front < n && ring.back < n
    && (k < n ==> ring.front == 0 && ring.back == k && forall i :: 0 <= i < k ==> ring.slots[i] == i)
    && (k == n ==>
          && ring.front == ring.back
          && (forall i :: 0 <= i < n ==> 0 <= ring.slots[i] < n)
          && (forall i, j :: 0 <= i < j < n ==> ring.slots[i] != ring.slots[j]))
  }

  function Sum(xs: seq<nat>): nat {
    if xs == [] then 0 else Sum(xs[..|xs| - 1]) + xs[|xs| - 1]
  }

  // The number of resident pages with the write bit.
  function Dirty(fs: seq<FrameEntry>): nat {
    if fs == [] then 0
    else Dirty(fs[..|fs| - 1]) + if fs[|fs| - 1].bits == READ_WRITE then 1 else 0
  }

  // Pages, frames and disk agree, and the counters account for every fault and transfer, but
  // for `pending` faults still being served.
  ghost predicate Base(m: Machine, pending: nat) {
    && m.Shape()
    && Coherent(m.mem)
    && UsedIsPrefix(m.mem.frames)
    && m.count.pageFaults == m.count.diskReads + m.count.diskWrites + Dirty(m.mem.frames) + pending
    && FirstFree(m.mem.frames) <= m.count.diskReads
  }

  ghost predicate Inv(m: Machine, policy: Policy) {
    && Base(m, 0)
    && (policy.Fifo? ==> RingOrdered(m.ring, FirstFree(m.mem.frames)))
    && (policy.Custom? ==> Sum(m.evics) == m.count.diskReads - FirstFree(m.mem.frames))
  }

  // The state main() builds: empty page table and frame table, counters at zero.
  predicate Booted(m: Machine) {
    && m.Shape()
    && (forall p :: 0 <= p < m.mem.NPages() ==> m.mem.bits[p] == PROT_NONE && m.evics[p] == 0)
    && (forall f :: 0 <= f < m.mem.NFrames() ==> m.mem.frames[f].bits == PROT_NONE)
    && m.ring.front == m.ring.back == 0
    && m.count == Counters(0, 0, 0)
  }
}
