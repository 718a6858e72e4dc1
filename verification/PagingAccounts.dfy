/** Exact accounts of a run, and the bound that makes FIFO worth having. */
module PagingAccounts {
  import opened Collections
  import opened PagingMachine
  import opened PagingTheorems
  import opened PagingRuns

  // ----- one access -----

  predicate Absent(m: Machine, page: nat)
    requires page < m.mem.NPages()
  {
    m.mem.bits[page] == PROT_NONE
  }

  predicate Evicts(m: Machine, page: nat)
    requires page < m.mem.NPages()
  {
    Absent(m, page) && FirstFree(m.mem.frames) == m.mem.NFrames()
  }

  lemma FaultCounts(m: Machine, policy: Policy, page: nat, choice: nat)
    requires Inv(m, policy) && Legal(m, policy, page, choice) && m.mem.bits[page] != READ_WRITE
    ensures CanFault(m, policy, page, choice)
    ensures var m' := Fault(m, policy, page, choice);
            && m'.count.pageFaults == m.count.pageFaults + 1
            && m'.count.diskReads == m.count.diskReads + (if Absent(m, page) then 1 else 0)
            && (!Evicts(m, page) ==> m'.count.diskWrites == m.count.diskWrites)
  {
    FaultKeepsInv(m, policy, page, choice);
    if m.mem.bits[page] != PROT_NONE {
      assert m.mem.frames[m.mem.mapping[page]].bits == m.mem.bits[page];
    }
  }

  lemma FaultUses(m: Machine, policy: Policy, page: nat, choice: nat)
    requires Inv(m, policy) && Legal(m, policy, page, choice) && m.mem.bits[page] != READ_WRITE
    ensures CanFault(m, policy, page, choice)
    ensures var m' := Fault(m, policy, page, choice);
            FirstFree(m'.mem.frames) == FirstFree(m.mem.frames)
            + (if Absent(m, page) && !Evicts(m, page) then 1 else 0)
  {
    FaultKeepsInv(m, policy, page, choice);
    if m.mem.bits[page] != PROT_NONE {
      assert m.mem.frames[m.mem.mapping[page]].bits == m.mem.bits[page];
      UpgradeKeepsBase(OneMoreFault(m), page);
    } else if FirstFree(m.mem.frames) < m.mem.NFrames() {
      LoadIntoFree(m.mem, page);
    } else {
      LoadOverVictim(m.mem, page,
                     match policy
                     case Rand => choice
                     case Fifo => m.ring.slots[m.ring.front]
                     case Custom => CustomVictim(m));
    }
  }

  lemma SettleCounts(m: Machine, policy: Policy, r: Request)
    requires Inv(m, policy) && LegalRequest(m, policy, r)
    ensures var page := r.access.Page(); var m' := Settle(m, policy, r);
            && m.count.pageFaults <= m'.count.pageFaults <= m.count.pageFaults + 2
            && m'.count.diskReads == m.count.diskReads + (if Absent(m, page) then 1 else 0)
            && (!Evicts(m, page) ==> m'.count.diskWrites == m.count.diskWrites)
            && FirstFree(m'.mem.frames) == FirstFree(m.mem.frames)
               + (if Absent(m, page) && !Evicts(m, page) then 1 else 0)
  {
    var page := r.access.Page();
    hide Inv;
    if !Permitted(m.mem, r.access) {
      FaultKeepsInv(m, policy, page, r.choice);
      FaultCounts(m, policy, page, r.choice);
      FaultUses(m, policy, page, r.choice);
      var m1 := Fault(m, policy, page, r.choice);
      if !Permitted(m1.mem, r.access) {
        FaultKeepsInv(m1, policy, page, r.choice);
        FaultCounts(m1, policy, page, r.choice);
        FaultUses(m1, policy, page, r.choice);
      }
    }
  }

  // ----- whole runs -----

  function Evictions(m: Machine, policy: Policy, rs: seq<Request>): nat
    requires Inv(m, policy) && LegalFrom(m, policy, rs)
    decreases |rs|
  {
    if rs == [] then 0
    else
      assert LegalRequest(m, policy, rs[0]);
      StepMatchesFlat(m, policy, rs[0]);
      (if Evicts(m, rs[0].access.Page()) then 1 else 0) + Evictions(Step(m, policy, rs[0]), policy, rs[1..])
  }

  // The pages read from disk, in order.
  function Loads(m: Machine, policy: Policy, rs: seq<Request>): seq<nat>
    requires Inv(m, policy) && LegalFrom(m, policy, rs)
    decreases |rs|
  {
    if rs == [] then []
    else
      assert LegalRequest(m, policy, rs[0]);
      StepMatchesFlat(m, policy, rs[0]);
      (if Absent(m, rs[0].access.Page()) then [rs[0].access.Page()] else [])
      + Loads(Step(m, policy, rs[0]), policy, rs[1..])
  }

  lemma StepCounts(m: Machine, policy: Policy, r: Request)
    requires Inv(m, policy) && LegalRequest(m, policy, r)
    ensures var page := r.access.Page(); var m' := Step(m, policy, r);
            && m'.count.pageFaults <= m.count.pageFaults + 2
            && m'.count.diskReads == m.count.diskReads + (if Absent(m, page) then 1 else 0)
            && (!Evicts(m, page) ==> m'.count.diskWrites == m.count.diskWrites)
            && m'.count.diskReads - FirstFree(m'.mem.frames)
               == m.count.diskReads - FirstFree(m.mem.frames) + (if Evicts(m, page) then 1 else 0)
  {
    SettleCounts(m, policy, r);
  }

  lemma {:induction false} RunCounts(m: Machine, policy: Policy, rs: seq<Request>)
    requires Inv(m, policy) && LegalFrom(m, policy, rs)
    ensures Run(m, policy, rs).count.pageFaults <= m.count.pageFaults + 2 * |rs|
    ensures Run(m, policy, rs).count.diskReads == m.count.diskReads + |Loads(m, policy, rs)|
    ensures Evictions(m, policy, rs) == 0 ==> Run(m, policy, rs).count.diskWrites == m.count.diskWrites
    ensures Run(m, policy, rs).count.diskReads - FirstFree(Run(m, policy, rs).mem.frames)
            == m.count.diskReads - FirstFree(m.mem.frames) + Evictions(m, policy, rs)
    decreases |rs|
  {
    if rs != [] {
      assert LegalRequest(m, policy, rs[0]);
      StepMatchesFlat(m, policy, rs[0]);
      StepCounts(m, policy, rs[0]);
      RunUnfolds(m, policy, rs);
      hide Inv, LegalRun, Run, Loads, Evictions, Step, Absent, Evicts;
      RunCounts(Step(m, policy, rs[0]), policy, rs[1..]);
    }
  }

  lemma RunUnfolds(m: Machine, policy: Policy, rs: seq<Request>)
    requires Inv(m, policy) && LegalFrom(m, policy, rs) && rs != []
    ensures LegalRequest(m, policy, rs[0])
    ensures var m1, page := Step(m, policy, rs[0]), rs[0].access.Page();
            && Inv(m1, policy) && LegalFrom(m1, policy, rs[1..])
            && Run(m, policy, rs) == Run(m1, policy, rs[1..])
            && |Loads(m, policy, rs)| == |Loads(m1, policy, rs[1..])| + (if Absent(m, page) then 1 else 0)
            && Evictions(m, policy, rs) == Evictions(m1, policy, rs[1..]) + (if Evicts(m, page) then 1 else 0)
  {
    assert LegalRequest(m, policy, rs[0]);
    StepMatchesFlat(m, policy, rs[0]);
  }

  // From boot: each fault is a disk read, a disk write or a write bit still set; each disk read
  // is an eviction or a frame in use; an access costs at most two faults; and under the
  // least-evicted-first policy the eviction counts add up to the evictions.
  lemma ExactAccounts(m: Machine, policy: Policy, rs: seq<Request>)
    requires Booted(m) && LegalFrom(m, policy, rs)
    ensures Inv(m, policy)
    ensures var m' := Run(m, policy, rs);
            && m'.count.pageFaults == m'.count.diskReads + m'.count.diskWrites + Dirty(m'.mem.frames)
            && m'.count.diskReads == Evictions(m, policy, rs) + FirstFree(m'.mem.frames)
            && m'.count.diskReads == |Loads(m, policy, rs)|
            && m'.count.pageFaults <= 2 * |rs|
            && (policy.Custom? ==> Sum(m'.evics) == Evictions(m, policy, rs))
  {
    BootedInv(m, policy);
    FirstFreeIs(m.mem.frames, 0);
    RunCounts(m, policy, rs);
  }

  // ----- as many frames as pages -----

  ghost function PagesIn(fs: seq<FrameEntry>, k: nat): set<int>
    requires k <= |fs|
  {
    set f | 0 <= f < k :: fs[f].page
  }

  // Used frames hold distinct pages.
  lemma DistinctPagesCount(mem: Memory, k: nat)
    requires Coherent(mem) && k <= FirstFree(mem.frames)
    ensures |PagesIn(mem.frames, k)| == k
  {
    var pages := seq(k, i requires 0 <= i < |mem.frames| => mem.frames[i].page);
    forall i, j | 0 <= i < j < k
      ensures pages[i] != pages[j]
    {
      assert mem.mapping[mem.frames[i].page] == i && mem.mapping[mem.frames[j].page] == j;
    }
    InjectiveImage(pages, k);
    var image := set i | 0 <= i < k :: pages[i];
    forall x | x in PagesIn(mem.frames, k)
      ensures x in image
    {
      var f :| 0 <= f < k && mem.frames[f].page == x;
      assert pages[f] == x;
    }
    assert image <= PagesIn(mem.frames, k);
    assert PagesIn(mem.frames, k) == image;
  }

  lemma HeldPagesInRange(mem: Memory)
    requires Coherent(mem)
    ensures forall x :: x in PagesIn(mem.frames, FirstFree(mem.frames)) ==>
              0 <= x < mem.NPages() && mem.bits[x] != PROT_NONE
  {
  }

  lemma UsedAtMostPages(mem: Memory)
    requires Coherent(mem)
    ensures FirstFree(mem.frames) <= mem.NPages()
  {
    HeldPagesInRange(mem);
    DistinctPagesCount(mem, FirstFree(mem.frames));
    BoundedSetSize(PagesIn(mem.frames, FirstFree(mem.frames)), mem.NPages());
  }

  // A page that is not resident leaves a frame for itself when there are frames enough.
  lemma RoomForAbsentPage(m: Machine, page: nat)
    requires m.Shape() && Coherent(m.mem) && page < m.mem.NPages() <= m.mem.NFrames()
    ensures !Evicts(m, page)
  {
    var held := PagesIn(m.mem.frames, FirstFree(m.mem.frames));
    HeldPagesInRange(m.mem);
    DistinctPagesCount(m.mem, FirstFree(m.mem.frames));
    if Absent(m, page) {
      BoundedSetSize(held + {page}, m.mem.NPages());
    }
  }

  lemma {:induction false} NeverEvicts(m: Machine, policy: Policy, rs: seq<Request>)
    requires Inv(m, policy) && LegalFrom(m, policy, rs) && m.mem.NPages() <= m.mem.NFrames()
    ensures Evictions(m, policy, rs) == 0
    decreases |rs|
  {
    if rs != [] {
      assert LegalRequest(m, policy, rs[0]);
      StepMatchesFlat(m, policy, rs[0]);
      RoomForAbsentPage(m, rs[0].access.Page());
      NeverEvicts(Step(m, policy, rs[0]), policy, rs[1..]);
    }
  }

  // With a frame for every page the disk is never written and each page is read at most once.
  lemma EnoughFrames(m: Machine, policy: Policy, rs: seq<Request>)
    requires Booted(m) && LegalFrom(m, policy, rs) && m.mem.NPages() <= m.mem.NFrames()
    ensures Inv(m, policy)
    ensures var m' := Run(m, policy, rs);
            m'.count.diskReads <= m.mem.NPages() && m'.count.diskWrites == 0
  {
    BootedInv(m, policy);
    NeverEvicts(m, policy, rs);
    ExactAccounts(m, policy, rs);
    RunCounts(m, policy, rs);
    UsedAtMostPages(Run(m, policy, rs).mem);
  }

  // ----- FIFO -----

  // The pages in the first k frames of the ring, from the front.
  function QueueIn(fs: seq<FrameEntry>, ring: Ring, k: nat): (q: seq<int>)
    requires RingOrdered(ring, k) && |fs| == |ring.slots|
    ensures |q| == k
    ensures forall i :: 0 <= i < k ==> q[i] == fs[ring.slots[Wrap(ring.front + i, |fs|)]].page
  {
    seq(k, i requires 0 <= i < k => fs[ring.slots[Wrap(ring.front + i, |fs|)]].page)
  }

  // The resident pages, longest resident first.
  function QueueOf(m: Machine): (q: seq<int>)
    requires m.Shape() && RingOrdered(m.ring, FirstFree(m.mem.frames))
  {
    QueueIn(m.mem.frames, m.ring, FirstFree(m.mem.frames))
  }

  // A queue of pages with room for `cap`, touched at `page`.
  function Touch(q: seq<int>, cap: nat, page: int): seq<int>
    requires cap >= 1
  {
    if page in q then q else (if |q| < cap then q else q[1..]) + [page]
  }

  lemma FrameIsQueued(fs: seq<FrameEntry>, ring: Ring, k: nat, f: nat)
    requires RingOrdered(ring, k) && |fs| == |ring.slots| && f < k
    ensures fs[f].page in QueueIn(fs, ring, k)
  {
    var j := SlotOf(ring, k, f);
    var i := if j >= ring.front then j - ring.front else j + |fs| - ring.front;
    assert Wrap(ring.front + i, |fs|) == j;
    assert QueueIn(fs, ring, k)[i] == fs[f].page;
  }

  lemma QueuedIsHeld(fs: seq<FrameEntry>, ring: Ring, k: nat, page: int) returns (f: nat)
    requires RingOrdered(ring, k) && |fs| == |ring.slots|
    requires page in QueueIn(fs, ring, k)
    ensures f < k && fs[f].page == page
  {
    var i :| 0 <= i < k && QueueIn(fs, ring, k)[i] == page;
    f := ring.slots[Wrap(ring.front + i, |fs|)];
  }

  lemma QueueHoldsResidents(m: Machine, page: nat)
    requires Inv(m, Fifo) && page < m.mem.NPages()
    ensures page in QueueOf(m) <==> !Absent(m, page)
  {
    var k := FirstFree(m.mem.frames);
    if page in QueueOf(m) {
      var f := QueuedIsHeld(m.mem.frames, m.ring, k, page);
    }
    if !Absent(m, page) {
      FrameIsQueued(m.mem.frames, m.ring, k, m.mem.mapping[page]);
    }
  }

  // Every used frame has a slot in the ring.
  lemma SlotOf(ring: Ring, k: nat, f: nat) returns (j: nat)
    requires RingOrdered(ring, k) && f < k
    ensures j < k && ring.slots[j] == f
  {
    var n := |ring.slots|;
    if k < n {
      j := f;
    } else {
      var image := set i | 0 <= i < n :: ring.slots[i];
      InjectiveImage(ring.slots, n);
      if f !in image {
        BoundedSetSize(image + {f}, n);
      }
      j :| 0 <= j < n && ring.slots[j] == f;
    }
  }

  lemma QueueGrows(fs: seq<FrameEntry>, ring: Ring, k: nat, e: FrameEntry)
    requires RingOrdered(ring, k) && k < |fs| == |ring.slots|
    ensures RingOrdered(PushBack(ring, k), k + 1)
    ensures QueueIn(fs[k := e], PushBack(ring, k), k + 1) == QueueIn(fs, ring, k) + [e.page]
  {
  }

  lemma QueueTurns(fs: seq<FrameEntry>, ring: Ring, e: FrameEntry)
    requires RingOrdered(ring, |fs|) && 1 <= |fs| == |ring.slots|
    ensures var victim := ring.slots[ring.front]; var ring' := PushBack(DropFront(ring), victim);
            && RingOrdered(ring', |fs|)
            && QueueIn(fs[victim := e], ring', |fs|) == QueueIn(fs, ring, |fs|)[1..] + [e.page]
  {
    var n, victim := |fs|, ring.slots[ring.front];
    var ring' := PushBack(DropFront(ring), victim);
    RingTurns(ring);
    var q, q' := QueueIn(fs, ring, n), QueueIn(fs[victim := e], ring', n);
    forall i | 0 <= i < n
      ensures q'[i] == (q[1..] + [e.page])[i]
    {
      if i < n - 1 {
        assert Wrap(ring'.front + i, n) == Wrap(ring.front + (i + 1), n) != ring.front;
      } else {
        assert Wrap(ring'.front + i, n) == ring.front;
      }
    }
  }

  // One FIFO load, as the queue of resident pages sees it.
  lemma QueueAfterLoad(m: Machine, page: nat)
    requires Inv(m, Fifo) && page < m.mem.NPages() && Absent(m, page)
    ensures CanReplace(m, page) && FrontInRange(m)
    ensures var m' := FifoHandle(m, page);
            && m'.Shape() && RingOrdered(m'.ring, FirstFree(m'.mem.frames))
            && QueueOf(m') == Touch(QueueOf(m), m.mem.NFrames(), page)
  {
    InvAllowsFault(m, Fifo, page, 0);
    QueueHoldsResidents(m, page);
    if FirstFree(m.mem.frames) < m.mem.NFrames() {
      QueueAfterFill(m, page);
    } else {
      QueueAfterReplace(m, page);
    }
  }

  lemma QueueAfterFill(m: Machine, page: nat)
    requires Inv(m, Fifo) && page < m.mem.NPages() && Absent(m, page)
    requires FirstFree(m.mem.frames) < m.mem.NFrames()
    ensures var m' := FifoHandle(m, page);
            && m'.Shape() && RingOrdered(m'.ring, FirstFree(m'.mem.frames))
            && QueueOf(m') == QueueOf(m) + [page]
  {
    LoadIntoFree(m.mem, page);
    QueueGrows(m.mem.frames, m.ring, FirstFree(m.mem.frames), FrameEntry(page, PROT_READ));
  }

  lemma QueueAfterReplace(m: Machine, page: nat)
    requires Inv(m, Fifo) && page < m.mem.NPages() && Absent(m, page)
    requires FirstFree(m.mem.frames) == m.mem.NFrames()
    requires CanReplace(m, page) && FrontInRange(m)
    ensures var m' := FifoHandle(m, page);
            && m'.Shape() && RingOrdered(m'.ring, FirstFree(m'.mem.frames))
            && QueueOf(m') == QueueOf(m)[1..] + [page]
  {
    var victim := m.ring.slots[m.ring.front];
    var e := FrameEntry(page, PROT_READ);
    LoadOverVictim(m.mem, page, victim);
    ReloadedFrames(m.mem, page, victim);
    hide Coherent, Flat, UsedIsPrefix, Dirty, CanReplace, Load, Evict, RingOrdered, QueueIn;
    QueueTurns(m.mem.frames, m.ring, e);
  }

  lemma ReloadedFrames(mem: Memory, page: nat, victim: nat)
    requires mem.Shape() && mem.HoldsPage(victim) && page < mem.NPages()
    ensures Load(Evict(mem, victim), page, victim).frames == mem.frames[victim := FrameEntry(page, PROT_READ)]
  {
  }

  lemma QueueAfterFault(m: Machine, page: nat, choice: nat)
    requires Inv(m, Fifo) && page < m.mem.NPages() && m.mem.bits[page] != READ_WRITE
    ensures CanFault(m, Fifo, page, choice)
    ensures var m' := Fault(m, Fifo, page, choice);
            && Inv(m', Fifo)
            && QueueOf(m') == Touch(QueueOf(m), m.mem.NFrames(), page)
  {
    FaultKeepsInv(m, Fifo, page, choice);
    if Absent(m, page) {
      QueueAfterLoad(m, page);
      FaultIsHandle(m, page, choice);
    } else {
      QueueHoldsResidents(m, page);
      QueueAfterUpgrade(m, page);
    }
  }

  lemma FaultIsHandle(m: Machine, page: nat, choice: nat)
    requires CanFault(m, Fifo, page, choice) && Absent(m, page)
    ensures Fault(m, Fifo, page, choice) == OneMoreFault(FifoHandle(m, page))
  {
  }

  lemma QueueAfterUpgrade(m: Machine, page: nat)
    requires Inv(m, Fifo) && page < m.mem.NPages() && m.mem.bits[page] != READ_WRITE && !Absent(m, page)
    ensures CanFault(m, Fifo, page, 0)
    ensures var m' := Fault(m, Fifo, page, 0);
            && Inv(m', Fifo) && QueueOf(m') == QueueOf(m)
            && forall choice :: CanFault(m, Fifo, page, choice) ==> Fault(m, Fifo, page, choice) == m'
  {
    FaultKeepsInv(m, Fifo, page, 0);
    assert m.mem.frames[m.mem.mapping[page]] == FrameEntry(page, PROT_READ);
    UpgradeKeepsBase(OneMoreFault(m), page);
  }

  // One access, as the queue of resident pages sees it: the ring buffer refines a plain queue.
  lemma QueueAfterStep(m: Machine, r: Request)
    requires Inv(m, Fifo) && LegalRequest(m, Fifo, r)
    ensures var m' := Step(m, Fifo, r);
            && Inv(m', Fifo)
            && QueueOf(m') == Touch(QueueOf(m), m.mem.NFrames(), r.access.Page())
  {
    var page := r.access.Page();
    StepMatchesFlat(m, Fifo, r);
    SameSize(m, Fifo, r);
    QueueHoldsResidents(m, page);
    PermissionLadder(m, Fifo, r.access);
    hide Inv;
    if !Permitted(m.mem, r.access) {
      QueueAfterFault(m, page, r.choice);
      FaultKeepsInv(m, Fifo, page, r.choice);
      FaultSameSize(m, Fifo, page, r.choice);
      var m1 := Fault(m, Fifo, page, r.choice);
      PermissionLadder(m1, Fifo, r.access);
      if !Permitted(m1.mem, r.access) {
        QueueAfterFault(m1, page, r.choice);
      }
    }
  }

  function QueueLoads(q: seq<int>, cap: nat, pages: seq<int>): seq<int>
    requires cap >= 1
    decreases |pages|
  {
    if pages == [] then []
    else (if pages[0] in q then [] else [pages[0]]) + QueueLoads(Touch(q, cap, pages[0]), cap, pages[1..])
  }

  function PagesTouched(rs: seq<Request>): (ps: seq<int>)
    ensures |ps| == |rs|
    ensures forall i :: 0 <= i < |rs| ==> ps[i] == rs[i].access.Page()
  {
    if rs == [] then [] else [rs[0].access.Page()] + PagesTouched(rs[1..])
  }

  lemma {:induction false} LoadsOfTheQueue(m: Machine, rs: seq<Request>)
    requires Inv(m, Fifo) && LegalFrom(m, Fifo, rs)
    ensures Loads(m, Fifo, rs) == QueueLoads(QueueOf(m), m.mem.NFrames(), PagesTouched(rs))
    decreases |rs|
  {
    if rs != [] {
      assert LegalRequest(m, Fifo, rs[0]);
      StepMatchesFlat(m, Fifo, rs[0]);
      QueueAfterStep(m, rs[0]);
      QueueHoldsResidents(m, rs[0].access.Page());
      LoadsOfTheQueue(Step(m, Fifo, rs[0]), rs[1..]);
      assert PagesTouched(rs)[1..] == PagesTouched(rs[1..]);
    }
  }

  ghost predicate NoDuplicates(xs: seq<int>) {
    forall i, j :: 0 <= i < j < |xs| ==> xs[i] != xs[j]
  }

  ghost predicate Within(xs: seq<int>, s: set<int>) {
    forall i :: 0 <= i < |xs| ==> xs[i] in s
  }

  ghost predicate IsSuffix(xs: seq<int>, q: seq<int>) {
    |xs| <= |q| && q[|q| - |xs|..] == xs
  }

  ghost predicate Avoids(xs: seq<int>, loaded: seq<int>) {
    forall i :: 0 <= i < |xs| ==> xs[i] !in loaded
  }

  lemma MissIsNew(q: seq<int>, loaded: seq<int>, page: int)
    requires IsSuffix(loaded, q) && page !in q && NoDuplicates(loaded)
    ensures page !in loaded && NoDuplicates(loaded + [page])
  {
  }

  lemma Prepend(page: int, later: seq<int>, loaded: seq<int>)
    requires NoDuplicates(later) && Avoids(later, loaded + [page]) && page !in loaded
    ensures NoDuplicates([page] + later) && Avoids([page] + later, loaded)
  {
  }

  lemma SuffixGrows(q: seq<int>, cap: nat, loaded: seq<int>, page: int)
    requires 1 <= cap && |q| <= cap && |loaded| + 1 <= cap && page !in q
    requires IsSuffix(loaded, q)
    ensures |Touch(q, cap, page)| <= cap && IsSuffix(loaded + [page], Touch(q, cap, page))
  {
  }

  // While the pages loaded so far, all from a working set of at most `cap` pages, are the last
  // in the queue, none of them is loaded again.
  lemma {:induction false} NoReload(q: seq<int>, cap: nat, pages: seq<int>, loaded: seq<int>, working: set<int>)
    requires 1 <= cap && |q| <= cap && |working| <= cap
    requires Within(pages, working) && Within(loaded, working) && NoDuplicates(loaded)
    requires IsSuffix(loaded, q)
    ensures NoDuplicates(QueueLoads(q, cap, pages)) && Avoids(QueueLoads(q, cap, pages), loaded)
    decreases |pages|
  {
    if pages != [] {
      var page, rest := pages[0], pages[1..];
      assert page in working && Within(rest, working);
      QueueLoadsFirst(q, cap, pages);
      hide NoDuplicates, IsSuffix, Avoids, Touch, Within, QueueLoads;
      if page in q {
        NoReload(q, cap, rest, loaded, working);
      } else {
        MissGrows(q, cap, page, loaded, working);
        NoReload(Touch(q, cap, page), cap, rest, loaded + [page], working);
        Prepend(page, QueueLoads(Touch(q, cap, page), cap, rest), loaded);
      }
    }
  }

  lemma QueueLoadsFirst(q: seq<int>, cap: nat, pages: seq<int>)
    requires cap >= 1 && pages != []
    ensures QueueLoads(q, cap, pages) ==
            if pages[0] in q then QueueLoads(q, cap, pages[1..])
            else [pages[0]] + QueueLoads(Touch(q, cap, pages[0]), cap, pages[1..])
  {
  }

  // One miss: the page joins both the queue and the pages loaded so far.
  lemma MissGrows(q: seq<int>, cap: nat, page: int, loaded: seq<int>, working: set<int>)
    requires 1 <= cap && |q| <= cap && |working| <= cap && IsSuffix(loaded, q) && NoDuplicates(loaded)
    requires Within(loaded, working) && page in working && page !in q
    ensures page !in loaded && NoDuplicates(loaded + [page]) && Within(loaded + [page], working)
    ensures |Touch(q, cap, page)| <= cap && IsSuffix(loaded + [page], Touch(q, cap, page))
  {
    MissIsNew(q, loaded, page);
    FitsWorkingSet(loaded + [page], working);
    SuffixGrows(q, cap, loaded, page);
  }

  lemma FitsWorkingSet(xs: seq<int>, s: set<int>)
    requires NoDuplicates(xs) && Within(xs, s)
    ensures |xs| <= |s|
  {
    var image := set i | 0 <= i < |xs| :: xs[i];
    InjectiveImage(xs, |xs|);
    assert image <= s;
    SubsetSize(image, s);
  }

  // The FIFO bound: from any reachable state, a stretch of accesses to at most as many distinct
  // pages as there are frames reads each of them from disk at most once.
  lemma FifoWorkingSetBound(m: Machine, rs: seq<Request>, working: set<int>)
    requires Inv(m, Fifo) && LegalFrom(m, Fifo, rs)
    requires |working| <= m.mem.NFrames()
    requires forall i :: 0 <= i < |rs| ==> rs[i].access.Page() in working
    ensures NoDuplicates(Loads(m, Fifo, rs))
    ensures Run(m, Fifo, rs).count.diskReads <= m.count.diskReads + |working|
  {
    LoadsOfTheQueue(m, rs);
    var q, pages := QueueOf(m), PagesTouched(rs);
    assert IsSuffix([], q);
    NoReload(q, m.mem.NFrames(), pages, [], working);
    LoadsComeFrom(q, m.mem.NFrames(), pages, working);
    FitsWorkingSet(Loads(m, Fifo, rs), working);
    RunCounts(m, Fifo, rs);
  }

  lemma {:induction false} LoadsComeFrom(q: seq<int>, cap: nat, pages: seq<int>, s: set<int>)
    requires cap >= 1 && Within(pages, s)
    ensures Within(QueueLoads(q, cap, pages), s)
    decreases |pages|
  {
    if pages != [] {
      assert pages[0] in s;
      LoadsComeFrom(Touch(q, cap, pages[0]), cap, pages[1..], s);
    }
  }

  // ----- least evicted first -----

  // With no frame free, the custom policy puts out the page with the fewest evictions, the one
  // in the lowest frame among equals, and counts that eviction and no other.
  lemma CustomVictimIsLeastEvicted(m: Machine, page: nat)
    requires Inv(m, Custom) && page < m.mem.NPages() && Evicts(m, page)
    ensures CanReplace(m, page)
    ensures var v := CustomVictim(m); var out := m.mem.frames[v].page; var m' := CustomHandle(m, page);
            && (forall f :: 0 <= f < m.mem.NFrames() ==> m.evics[out] <= m.evics[m.mem.frames[f].page])
            && (forall f :: 0 <= f < v ==> m.evics[out] < m.evics[m.mem.frames[f].page])
            && m'.mem.bits == m.mem.bits[out := PROT_NONE][page := PROT_READ]
            && m'.evics == m.evics[out := m.evics[out] + 1]
  {
    InvAllowsFault(m, Custom, page, 0);
    var v := CustomVictim(m);
    assert m.mem.frames[v].page != page;
  }
}
