/** What demand paging is for: a machine with few frames answers every access as the flat
    memory would, under any replacement policy, with exact accounts. */
module PagingTheorems {
  import opened PagingMachine

  // ----- arithmetic of the two summaries -----

  lemma {:induction false} SumUpdate(xs: seq<nat>, k: nat, v: nat)
    requires k < |xs|
    ensures Sum(xs[k := v]) == Sum(xs) - xs[k] + v
    decreases |xs|
  {
    var n := |xs| - 1;
    if k == n {
      assert xs[k := v][..n] == xs[..n];
    } else {
      SumUpdate(xs[..n], k, v);
      assert xs[k := v][..n] == xs[..n][k := v];
    }
  }

  lemma {:induction false} EachIsAtMostSum(xs: seq<nat>, k: nat)
    requires k < |xs|
    ensures xs[k] <= Sum(xs)
  {
    var n := |xs| - 1;
    if k < n {
      EachIsAtMostSum(xs[..n], k);
    }
  }

  function Weight(e: FrameEntry): nat {
    if e.bits == READ_WRITE then 1 else 0
  }

  lemma {:induction false} DirtyUpdate(fs: seq<FrameEntry>, k: nat, e: FrameEntry)
    requires k < |fs|
    ensures Dirty(fs[k := e]) == Dirty(fs) - Weight(fs[k]) + Weight(e)
    decreases |fs|
  {
    var n := |fs| - 1;
    if k == n {
      assert fs[k := e][..n] == fs[..n];
    } else {
      DirtyUpdate(fs[..n], k, e);
      assert fs[k := e][..n] == fs[..n][k := e];
    }
  }

  lemma {:induction false} NoneDirty(fs: seq<FrameEntry>)
    requires forall f :: 0 <= f < |fs| ==> fs[f].bits != READ_WRITE
    ensures Dirty(fs) == 0
  {
    if fs != [] {
      NoneDirty(fs[..|fs| - 1]);
    }
  }

  lemma {:induction false} SumOfZeros(xs: seq<nat>)
    requires forall i :: 0 <= i < |xs| ==> xs[i] == 0
    ensures Sum(xs) == 0
  {
    if xs != [] {
      SumOfZeros(xs[..|xs| - 1]);
    }
  }

  lemma FirstFreeIs(fs: seq<FrameEntry>, k: nat)
    requires k <= |fs|
    requires forall i :: 0 <= i < k ==> fs[i].bits != PROT_NONE
    requires k < |fs| ==> fs[k].bits == PROT_NONE
    ensures FirstFree(fs) == k
  {
  }

  // ----- the flat memory a machine stands for -----

  ghost function Backing(mem: Memory, p: nat): Page
    requires mem.Shape() && ResidentPages(mem) && p < mem.NPages()
  {
    if mem.bits[p] != PROT_NONE then mem.physmem[mem.mapping[p]] else mem.disk[p]
  }

  ghost function Flat(mem: Memory): (flat: seq<Page>)
    requires Coherent(mem)
    ensures |flat| == mem.NPages()
    ensures forall p :: 0 <= p < mem.NPages() ==> flat[p] == Backing(mem, p)
  {
    seq(mem.NPages(), p requires 0 <= p < mem.NPages() => Backing(mem, p))
  }

  lemma EvictIsInvisible(mem: Memory, frame: nat)
    requires Coherent(mem) && frame < mem.NFrames() && mem.frames[frame].bits != PROT_NONE
    ensures mem.HoldsPage(frame)
    ensures var mem' := Evict(mem, frame);
            && Coherent(mem') && Flat(mem') == Flat(mem)
            && mem'.bits[mem.frames[frame].page] == PROT_NONE
            && Dirty(mem.frames) == Dirty(mem'.frames) + if NeedsWriteBack(mem, frame) then 1 else 0
  {
    assert mem.HoldsPage(frame);
    var mem' := Evict(mem, frame);
    var page := mem.frames[frame].page;
    DirtyUpdate(mem.frames, frame, FrameEntry(page, PROT_NONE));
    assert NeedsWriteBack(mem, frame) <==> mem.frames[frame].bits == READ_WRITE;
    forall p | 0 <= p < mem.NPages()
      ensures Coherent(mem') && Backing(mem', p) == Backing(mem, p)
    {
      if p != page && mem.bits[p] != PROT_NONE {
        assert mem.mapping[p] != frame;
      }
    }
  }

  lemma LoadIsInvisible(mem: Memory, page: nat, frame: nat)
    requires Coherent(mem) && page < mem.NPages() && mem.bits[page] == PROT_NONE
    requires frame < mem.NFrames() && mem.frames[frame].bits == PROT_NONE
    ensures var mem' := Load(mem, page, frame);
            && Coherent(mem') && Flat(mem') == Flat(mem)
            && Dirty(mem'.frames) == Dirty(mem.frames)
  {
    var mem' := Load(mem, page, frame);
    DirtyUpdate(mem.frames, frame, FrameEntry(page, PROT_READ));
    forall f | 0 <= f < mem.NFrames() && f != frame && mem.frames[f].bits != PROT_NONE
      ensures mem.frames[f].page != page
    {
      assert mem.bits[mem.frames[f].page] == mem.frames[f].bits;
    }
    forall p | 0 <= p < mem.NPages()
      ensures Coherent(mem') && Backing(mem', p) == Backing(mem, p)
    {
      if p != page && mem.bits[p] != PROT_NONE {
        assert mem.mapping[p] != frame;
      }
    }
  }

  lemma UpgradeIsInvisible(mem: Memory, page: nat)
    requires Coherent(mem) && page < mem.NPages() && mem.bits[page] == PROT_READ
    ensures 0 <= mem.mapping[page] < mem.NFrames()
    ensures var mem' := Upgrade(mem, page);
            && Coherent(mem') && Flat(mem') == Flat(mem)
            && Dirty(mem'.frames) == Dirty(mem.frames) + 1
  {
    var frame := mem.mapping[page];
    assert mem.frames[frame] == FrameEntry(page, PROT_READ);
    var mem' := Upgrade(mem, page);
    DirtyUpdate(mem.frames, frame, FrameEntry(page, READ_WRITE));
    forall p | 0 <= p < mem.NPages()
      ensures Coherent(mem') && Backing(mem', p) == Backing(mem, p)
    {
    }
  }

  // ----- one fault -----

  lemma LoadIntoFree(mem: Memory, page: nat)
    requires Coherent(mem) && UsedIsPrefix(mem.frames)
    requires page < mem.NPages() && mem.bits[page] == PROT_NONE
    requires FirstFree(mem.frames) < mem.NFrames()
    ensures var k := FirstFree(mem.frames); var mem' := Load(mem, page, k);
            && Coherent(mem') && UsedIsPrefix(mem'.frames) && Flat(mem') == Flat(mem)
            && FirstFree(mem'.frames) == k + 1
            && Dirty(mem'.frames) == Dirty(mem.frames)
  {
    var k := FirstFree(mem.frames);
    LoadIsInvisible(mem, page, k);
    FirstFreeIs(Load(mem, page, k).frames, k + 1);
  }

  lemma LoadOverVictim(mem: Memory, page: nat, victim: nat)
    requires Coherent(mem)
    requires page < mem.NPages() && mem.bits[page] == PROT_NONE
    requires FirstFree(mem.frames) == mem.NFrames() && victim < mem.NFrames()
    ensures mem.HoldsPage(victim)
    ensures var mem' := Load(Evict(mem, victim), page, victim);
            && Coherent(mem') && UsedIsPrefix(mem'.frames) && Flat(mem') == Flat(mem)
            && FirstFree(mem'.frames) == mem.NFrames()
            && Dirty(mem.frames) == Dirty(mem'.frames) + if NeedsWriteBack(mem, victim) then 1 else 0
  {
    EvictIsInvisible(mem, victim);
    var mem1 := Evict(mem, victim);
    LoadIsInvisible(mem1, page, victim);
    FirstFreeIs(Load(mem1, page, victim).frames, mem.NFrames());
  }

  // A page that is being touched, and the arbitrary frame lrand48() may pick.
  predicate Legal(m: Machine, policy: Policy, page: nat, choice: nat) {
    page < m.mem.NPages() && (policy.Rand? ==> choice < m.mem.NFrames())
  }

  lemma InvAllowsFault(m: Machine, policy: Policy, page: nat, choice: nat)
    requires Inv(m, policy) && Legal(m, policy, page, choice)
    ensures CanFault(m, policy, page, choice)
  {
  }

  lemma RingGrows(ring: Ring, k: nat)
    requires RingOrdered(ring, k) && k < |ring.slots|
    ensures RingOrdered(PushBack(ring, k), k + 1)
  {
  }

  function Wrap(i: nat, n: nat): nat {
    if i < n then i else i - n
  }

  lemma RingTurns(ring: Ring)
    requires RingOrdered(ring, |ring.slots|)
    ensures var ring' := PushBack(DropFront(ring), ring.slots[ring.front]);
            && RingOrdered(ring', |ring.slots|)
            && ring'.slots == ring.slots
            && ring'.front == Wrap(ring.front + 1, |ring.slots|)
  {
  }

  lemma FillKeepsBase(m: Machine, page: nat)
    requires Base(m, 1) && page < m.mem.NPages() && m.mem.bits[page] == PROT_NONE
    requires FirstFree(m.mem.frames) < m.mem.NFrames()
    ensures var m' := Fill(m, page, FirstFree(m.mem.frames));
            && Base(m', 0) && Flat(m'.mem) == Flat(m.mem)
            && FirstFree(m'.mem.frames) == FirstFree(m.mem.frames) + 1
            && m'.mem.bits[page] == PROT_READ
  {
    LoadIntoFree(m.mem, page);
  }

  lemma ReplaceKeepsBase(m: Machine, page: nat, victim: nat)
    requires Base(m, 1) && page < m.mem.NPages() && m.mem.bits[page] == PROT_NONE
    requires FirstFree(m.mem.frames) == m.mem.NFrames() && victim < m.mem.NFrames()
    ensures m.mem.HoldsPage(victim)
    ensures var m' := Replace(m, page, victim);
            && Base(m', 0) && Flat(m'.mem) == Flat(m.mem)
            && FirstFree(m'.mem.frames) == m.mem.NFrames()
            && m'.mem.bits[page] == PROT_READ
  {
    LoadOverVictim(m.mem, page, victim);
  }

  lemma UpgradeKeepsBase(m: Machine, page: nat)
    requires Base(m, 1) && page < m.mem.NPages() && m.mem.bits[page] == PROT_READ
    ensures 0 <= m.mem.mapping[page] < m.mem.NFrames()
    ensures var m' := m.(mem := Upgrade(m.mem, page));
            && Base(m', 0) && Flat(m'.mem) == Flat(m.mem)
            && FirstFree(m'.mem.frames) == FirstFree(m.mem.frames)
  {
    UpgradeIsInvisible(m.mem, page);
    FirstFreeIs(Upgrade(m.mem, page).frames, FirstFree(m.mem.frames));
  }

  lemma FaultUpgrades(m: Machine, policy: Policy, page: nat, choice: nat)
    requires Inv(m, policy) && Legal(m, policy, page, choice)
    requires m.mem.bits[page] == PROT_READ
    ensures CanFault(m, policy, page, choice)
    ensures var m' := Fault(m, policy, page, choice);
            Inv(m', policy) && Flat(m'.mem) == Flat(m.mem) && m'.mem.bits[page] == READ_WRITE
  {
    InvAllowsFault(m, policy, page, choice);
    UpgradeKeepsBase(OneMoreFault(m), page);
  }

  lemma FaultFillsFree(m: Machine, policy: Policy, page: nat, choice: nat)
    requires Inv(m, policy) && Legal(m, policy, page, choice) && !policy.Fifo?
    requires m.mem.bits[page] == PROT_NONE && FirstFree(m.mem.frames) < m.mem.NFrames()
    ensures CanFault(m, policy, page, choice)
    ensures var m' := Fault(m, policy, page, choice);
            Inv(m', policy) && Flat(m'.mem) == Flat(m.mem) && m'.mem.bits[page] == PROT_READ
  {
    InvAllowsFault(m, policy, page, choice);
    FillKeepsBase(OneMoreFault(m), page);
  }

  lemma FifoFillsFree(m: Machine, page: nat, choice: nat)
    requires Inv(m, Fifo) && Legal(m, Fifo, page, choice)
    requires m.mem.bits[page] == PROT_NONE && FirstFree(m.mem.frames) < m.mem.NFrames()
    ensures CanFault(m, Fifo, page, choice)
    ensures var m' := Fault(m, Fifo, page, choice);
            Inv(m', Fifo) && Flat(m'.mem) == Flat(m.mem) && m'.mem.bits[page] == PROT_READ
  {
    var k := FirstFree(m.mem.frames);
    InvAllowsFault(m, Fifo, page, choice);
    RingGrows(m.ring, k);
    FillKeepsBase(OneMoreFault(m).(ring := PushBack(m.ring, k)), page);
  }

  lemma FifoReplaces(m: Machine, page: nat, choice: nat)
    requires CanFault(m, Fifo, page, choice) && m.mem.bits[page] == PROT_NONE
    requires FirstFree(m.mem.frames) == m.mem.NFrames() && m.ring.front == m.ring.back
    ensures var victim := m.ring.slots[m.ring.front];
            Fault(m, Fifo, page, choice)
              == Replace(OneMoreFault(m).(ring := PushBack(DropFront(m.ring), victim)), page, victim)
  {
  }

  lemma CountEvictionKeepsBase(m: Machine, victim: nat)
    requires Base(m, 0) && m.mem.HoldsPage(victim)
    ensures var m' := CountEviction(OneMoreFault(m), victim);
            Base(m', 1) && m'.mem == m.mem && Sum(m'.evics) == Sum(m.evics) + 1
  {
    SumUpdate(m.evics, m.mem.frames[victim].page, m.evics[m.mem.frames[victim].page] + 1);
  }

  lemma CustomReplaces(m: Machine, page: nat, choice: nat)
    requires CanFault(m, Custom, page, choice) && m.mem.bits[page] == PROT_NONE
    requires FirstFree(m.mem.frames) == m.mem.NFrames()
    ensures var victim := CustomVictim(m);
            Fault(m, Custom, page, choice) == Replace(CountEviction(OneMoreFault(m), victim), page, victim)
  {
  }

  lemma RandFaultKeeps(m: Machine, page: nat, choice: nat)
    requires Inv(m, Rand) && Legal(m, Rand, page, choice)
    requires m.mem.bits[page] == PROT_NONE && FirstFree(m.mem.frames) == m.mem.NFrames()
    ensures CanFault(m, Rand, page, choice)
    ensures var m' := Fault(m, Rand, page, choice);
            Inv(m', Rand) && Flat(m'.mem) == Flat(m.mem) && m'.mem.bits[page] == PROT_READ
  {
    InvAllowsFault(m, Rand, page, choice);
    ReplaceKeepsBase(OneMoreFault(m), page, choice);
  }

  lemma FifoFaultKeeps(m: Machine, page: nat, choice: nat)
    requires Inv(m, Fifo) && Legal(m, Fifo, page, choice)
    requires m.mem.bits[page] == PROT_NONE && FirstFree(m.mem.frames) == m.mem.NFrames()
    ensures CanFault(m, Fifo, page, choice)
    ensures var m' := Fault(m, Fifo, page, choice);
            Inv(m', Fifo) && Flat(m'.mem) == Flat(m.mem) && m'.mem.bits[page] == PROT_READ
  {
    InvAllowsFault(m, Fifo, page, choice);
    var victim := m.ring.slots[m.ring.front];
    RingTurns(m.ring);
    FifoReplaces(m, page, choice);
    ReplaceKeepsBase(OneMoreFault(m).(ring := PushBack(DropFront(m.ring), victim)), page, victim);
  }

  lemma CustomFaultKeeps(m: Machine, page: nat, choice: nat)
    requires Inv(m, Custom) && Legal(m, Custom, page, choice)
    requires m.mem.bits[page] == PROT_NONE && FirstFree(m.mem.frames) == m.mem.NFrames()
    ensures CanFault(m, Custom, page, choice)
    ensures var m' := Fault(m, Custom, page, choice);
            Inv(m', Custom) && Flat(m'.mem) == Flat(m.mem) && m'.mem.bits[page] == PROT_READ
  {
    InvAllowsFault(m, Custom, page, choice);
    var victim := CustomVictim(m);
    CustomReplaces(m, page, choice);
    CountEvictionKeepsBase(m, victim);
    ReplaceKeepsBase(CountEviction(OneMoreFault(m), victim), page, victim);
  }

  // Every fault taken on a page that is not yet writable keeps the invariant, changes no byte
  // of the flat memory, and grants exactly the next permission.
  lemma FaultKeepsInv(m: Machine, policy: Policy, page: nat, choice: nat)
    requires Inv(m, policy) && Legal(m, policy, page, choice)
    requires m.mem.bits[page] != READ_WRITE
    ensures CanFault(m, policy, page, choice)
    ensures var m' := Fault(m, policy, page, choice);
            && Inv(m', policy) && Flat(m'.mem) == Flat(m.mem)
            && m'.mem.bits[page] == (if m.mem.bits[page] == PROT_NONE then PROT_READ else READ_WRITE)
  {
    if m.mem.bits[page] != PROT_NONE {
      assert m.mem.frames[m.mem.mapping[page]].bits == m.mem.bits[page];
      FaultUpgrades(m, policy, page, choice);
    } else if FirstFree(m.mem.frames) < m.mem.NFrames() {
      if policy.Fifo? {
        FifoFillsFree(m, page, choice);
      } else {
        FaultFillsFree(m, policy, page, choice);
      }
    } else {
      match policy
      case Rand => RandFaultKeeps(m, page, choice);
      case Fifo => FifoFaultKeeps(m, page, choice);
      case Custom => CustomFaultKeeps(m, page, choice);
    }
  }

  // The state built by main() satisfies the invariant.
  lemma BootedInv(m: Machine, policy: Policy)
    requires Booted(m)
    ensures Inv(m, policy) && Flat(m.mem) == m.mem.disk
  {
    FirstFreeIs(m.mem.frames, 0);
    NoneDirty(m.mem.frames);
    SumOfZeros(m.evics);
  }

  // Frame f is the lowest without a page.
  predicate LowestFree(fs: seq<FrameEntry>, f: int) {
    0 <= f < |fs| && fs[f].bits == PROT_NONE && forall k :: 0 <= k < f ==> fs[k].bits != PROT_NONE
  }

  // The page in frame f has been evicted least often, and f is the lowest such frame.
  predicate LowestOfLeast(m: Machine, f: int) {
    && AllHoldPages(m.mem) && |m.evics| == m.mem.NPages() && 0 <= f < m.mem.NFrames()
    && forall k :: 0 <= k < m.mem.NFrames() ==>
         && m.evics[m.mem.frames[f].page] <= m.evics[m.mem.frames[k].page]
         && (k < f ==> m.evics[m.mem.frames[f].page] < m.evics[m.mem.frames[k].page])
  }

  // Where a missing page goes: to the lowest free frame and, where there is none, to the frame drawn at random, to
  // the one at the front of the ring, or to the lowest of those whose page has been evicted least often.
  lemma FaultPlaces(m: Machine, policy: Policy, page: nat, choice: nat)
    requires Inv(m, policy) && Legal(m, policy, page, choice) && m.mem.bits[page] == PROT_NONE
    ensures CanFault(m, policy, page, choice)
    ensures var f := Fault(m, policy, page, choice).mem.mapping[page];
            if exists k :: 0 <= k < m.mem.NFrames() && m.mem.frames[k].bits == PROT_NONE then
              LowestFree(m.mem.frames, f)
            else
              match policy
              case Rand => f == choice
              case Fifo => f == m.ring.slots[m.ring.front]
              case Custom => LowestOfLeast(m, f)
  {
    InvAllowsFault(m, policy, page, choice);
    ErrorBranchesUnreachable(m, policy, page);
    hide Inv, Base, Coherent, RingOrdered, Sum, Dirty;
    HandlePlaces(OneMoreFault(m), policy, page, choice);
  }

  lemma HandlePlaces(m: Machine, policy: Policy, page: nat, choice: nat)
    requires CanFault(m, policy, page, choice)
    requires policy.Fifo? && FirstFree(m.mem.frames) == m.mem.NFrames() ==> m.ring.front == m.ring.back
    ensures var f := Handle(m, policy, page, choice).mem.mapping[page];
            if exists k :: 0 <= k < m.mem.NFrames() && m.mem.frames[k].bits == PROT_NONE then
              LowestFree(m.mem.frames, f)
            else
              match policy
              case Rand => f == choice
              case Fifo => f == m.ring.slots[m.ring.front]
              case Custom => LowestOfLeast(m, f)
  {
  }

  // The branches that print an error are never taken: a full ring has front at back, and a page
  // that is neither absent nor read-only permits every access, so it cannot fault.
  lemma ErrorBranchesUnreachable(m: Machine, policy: Policy, page: nat)
    requires Inv(m, policy) && page < m.mem.NPages()
    ensures policy.Fifo? && FirstFree(m.mem.frames) == m.mem.NFrames() ==> m.ring.front == m.ring.back
    ensures m.mem.bits[page] != PROT_NONE && m.mem.bits[page] ^ PROT_READ != 0 ==>
              m.mem.bits[page] & PROT_READ != 0 && m.mem.bits[page] & PROT_WRITE != 0
  {
  }
}
