/** The paging code of Project_2 as it runs: handlers that update the page table, frame table,
    ring and counters in place. */
module PagingMemory {
  import opened PagingMachine
  import opened PagingTheorems
  import opened PagingRuns

  class VirtualMemory {
    const policy: Policy
    const pageMapping: array<int>
    const pageBits: array<bv8>
    const frameTable: array<FrameEntry>
    const physmem: array<Page>
    const disk: array<Page>
    const fifoArray: array<int>
    var front: nat
    var back: nat
    const pageEvics: array<nat>
    var pageFaults: nat
    var diskReads: nat
    var diskWrites: nat

    ghost predicate Valid()
      reads this
    {
      && pageMapping.Length == pageBits.Length == disk.Length == pageEvics.Length
      && 1 <= frameTable.Length == physmem.Length == fifoArray.Length
      && front < fifoArray.Length && back < fifoArray.Length
      && Separate()
    }

    // The seven tables are seven pieces of memory.
    ghost predicate Separate()
    {
      var o1: object, o2: object, o3: object, o4: object := pageMapping, pageBits, frameTable, physmem;
      var o5: object, o6: object, o7: object := disk, fifoArray, pageEvics;
      && o1 != o2 && o1 != o3 && o1 != o4 && o1 != o5 && o1 != o6 && o1 != o7
      && o2 != o3 && o2 != o4 && o2 != o5 && o2 != o6 && o2 != o7
      && o3 != o4 && o3 != o5 && o3 != o6 && o3 != o7
      && o4 != o5 && o4 != o6 && o4 != o7
      && o5 != o6 && o5 != o7 && o6 != o7
    }

    ghost function Mem(): Memory
      reads pageMapping, pageBits, frameTable, physmem, disk
    {
      Memory(pageMapping[..], pageBits[..], frameTable[..], physmem[..], disk[..])
    }

    ghost function View(): Machine
      reads this, pageMapping, pageBits, frameTable, physmem, disk, fifoArray, pageEvics
    {
      Machine(Mem(), Ring(fifoArray[..], front, back), pageEvics[..],
              Counters(pageFaults, diskReads, diskWrites))
    }

    // The start of main(): an empty machine over a given disk.  The entries of the mapping, ring
    // and frame table are whatever malloc left there, but for the frame bits.
    constructor (policy: Policy, blocks: seq<Page>, nframes: nat, junk: int, noise: Page)
      requires 1 <= nframes
      ensures Valid() && this.policy == policy
      ensures Booted(View()) && View().mem.disk == blocks && View().mem.NFrames() == nframes
    {
      var npages := |blocks|;
      this.policy := policy;
      pageMapping := new int[npages](_ => junk);
      pageBits := new bv8[npages](_ => PROT_NONE);
      frameTable := new FrameEntry[nframes](_ => FrameEntry(junk, PROT_NONE));
      physmem := new Page[nframes](_ => noise);
      disk := new Page[npages](i requires 0 <= i < npages => blocks[i]);
      fifoArray := new int[nframes](_ => junk);
      pageEvics := new nat[npages](_ => 0);
      front, back := 0, 0;
      pageFaults, diskReads, diskWrites := 0, 0, 0;
    }

    method PageTableSetEntry(page: nat, frame: nat, bits: bv8)
      requires Valid() && page < pageBits.Length && frame < frameTable.Length
      modifies pageMapping, pageBits
      ensures Valid()
      ensures View() == old(View()).(mem := SetEntry(old(Mem()), page, frame, bits))
    {
      pageMapping[page] := frame;
      pageBits[page] := bits;
      assert pageMapping[..] == old(pageMapping[..])[page := frame];
      assert pageBits[..] == old(pageBits[..])[page := bits];
    }

    method EvictPage(frame: nat)
      requires Valid() && frame < frameTable.Length && 0 <= frameTable[frame].page < pageBits.Length
      modifies pageMapping, pageBits, frameTable, disk, `diskWrites
      ensures Valid()
      ensures Mem() == Evict(old(Mem()), frame)
      ensures View() == old(View()).(mem := Mem(), count := old(View()).count.(diskWrites := diskWrites))
      ensures diskWrites == old(diskWrites) + if NeedsWriteBack(old(Mem()), frame) then 1 else 0
    {
      var page := frameTable[frame].page;
      if frameTable[frame].bits & PROT_WRITE != 0 {
        disk[page] := physmem[frame];
        diskWrites := diskWrites + 1;
        assert disk[..] == old(disk[..])[page := physmem[frame]];
      }
      PageTableSetEntry(page, frame, PROT_NONE);
      frameTable[frame] := FrameEntry(page, PROT_NONE);
      assert frameTable[..] == old(frameTable[..])[frame := FrameEntry(page, PROT_NONE)];
    }

    // The scan every handler starts with.
    method FindFreeFrame() returns (frame: int)
      requires Valid()
      ensures frame == if FirstFree(frameTable[..]) < frameTable.Length then FirstFree(frameTable[..]) else -1
    {
      frame := -1;
      var i := 0;
      while i < frameTable.Length
        invariant 0 <= i <= frameTable.Length
        invariant forall j :: 0 <= j < i ==> frameTable[j].bits != PROT_NONE
      {
        if frameTable[i].bits == PROT_NONE {
          frame := i;
          FirstFreeIs(frameTable[..], i);
          return;
        }
        i := i + 1;
      }
      FirstFreeIs(frameTable[..], i);
    }

    // The steps every handler ends with.
    method ReadIn(page: nat, frame: nat)
      requires Valid() && page < pageBits.Length && frame < frameTable.Length
      modifies pageMapping, pageBits, frameTable, physmem, `diskReads
      ensures Valid()
      ensures View() == Fill(old(View()), page, frame)
    {
      physmem[frame] := disk[page];
      diskReads := diskReads + 1;
      PageTableSetEntry(page, frame, PROT_READ);
      frameTable[frame] := FrameEntry(page, PROT_READ);
      assert physmem[..] == old(physmem[..])[frame := disk[page]];
      assert frameTable[..] == old(frameTable[..])[frame := FrameEntry(page, PROT_READ)];
    }

    method RandHandler(page: nat, choice: nat)
      requires Valid() && CanReplace(View(), page) && choice < frameTable.Length
      modifies pageMapping, pageBits, frameTable, physmem, disk, `diskReads, `diskWrites
      ensures Valid()
      ensures View() == RandHandle(old(View()), page, choice)
    {
      var frame := FindFreeFrame();
      if frame < 0 {
        frame := choice;
        assert View().mem.HoldsPage(frame);
        EvictPage(frame);
      }
      ReadIn(page, frame);
    }

    // The scan for the page evicted least often, starting from min = INT_MAX.
    method FindLeastEvicted() returns (frame: int)
      requires Valid() && AllHoldPages(Mem())
      requires forall p :: 0 <= p < pageEvics.Length ==> pageEvics[p] < INT_MAX
      ensures frame == CustomVictim(View())
    {
      var min := INT_MAX;
      frame := -1;
      var i := 0;
      while i < frameTable.Length
        invariant 0 <= i <= frameTable.Length
        invariant i == 0 ==> frame == -1 && min == INT_MAX
        invariant i > 0 ==>
                    && frame == LeastEvicted(frameTable[..], pageEvics[..], i)
                    && min == pageEvics[frameTable[frame].page]
      {
        assert View().mem.HoldsPage(i);
        if pageEvics[frameTable[i].page] < min {
          frame := i;
          min := pageEvics[frameTable[i].page];
        }
        i := i + 1;
      }
    }

    method CustomHandler(page: nat)
      requires Valid() && CanReplace(View(), page)
      requires forall p :: 0 <= p < pageEvics.Length ==> pageEvics[p] < INT_MAX
      modifies pageMapping, pageBits, frameTable, physmem, disk, pageEvics, `diskReads, `diskWrites
      ensures Valid()
      ensures View() == CustomHandle(old(View()), page)
    {
      var frame := FindFreeFrame();
      if frame < 0 {
        frame := FindLeastEvicted();
        var victim := frameTable[frame].page;
        pageEvics[victim] := pageEvics[victim] + 1;
        assert View() == CountEviction(old(View()), frame);
        EvictPage(frame);
      }
      ReadIn(page, frame);
    }

    method FifoHandler(page: nat)
      requires Valid() && CanReplace(View(), page) && FrontInRange(View())
      modifies pageMapping, pageBits, frameTable, physmem, disk, fifoArray
      modifies `front, `back, `diskReads, `diskWrites
      ensures Valid()
      ensures View() == FifoHandle(old(View()), page)
    {
      var frame := FindFreeFrame();
      if frame < 0 {
        if front == back {
          frame := fifoArray[front];
          assert View().mem.HoldsPage(frame);
          EvictPage(frame);
          front := Next(front, frameTable.Length);
        } else {
          return; // prints "error in fifo handler"
        }
      }
      fifoArray[back] := frame;
      assert fifoArray[..] == old(fifoArray[..])[back := frame];
      back := Next(back, frameTable.Length);
      ReadIn(page, frame);
    }

    // Dispatch on the policy named on the command line.
    method LoadPage(page: nat, choice: nat)
      requires Valid() && CanFault(View(), policy, page, choice)
      requires policy.Custom? ==> forall p :: 0 <= p < pageEvics.Length ==> pageEvics[p] < INT_MAX
      modifies pageMapping, pageBits, frameTable, physmem, disk, fifoArray, pageEvics
      modifies `front, `back, `diskReads, `diskWrites
      ensures Valid()
      ensures View() == Handle(old(View()), policy, page, choice)
    {
      match policy {
        case Rand =>
          RandHandler(page, choice);
        case Fifo =>
          FifoHandler(page);
        case Custom =>
          CustomHandler(page);
      }
    }

    // Add the write bit to a page that has only the read bit.
    method GrantWrite(page: nat)
      requires Valid() && page < pageBits.Length && 0 <= pageMapping[page] < frameTable.Length
      modifies pageMapping, pageBits, frameTable
      ensures Valid()
      ensures View() == old(View()).(mem := Upgrade(old(Mem()), page))
    {
      var frame := pageMapping[page];
      PageTableSetEntry(page, frame, READ_WRITE);
      frameTable[frame] := FrameEntry(page, READ_WRITE);
      assert frameTable[..] == old(frameTable[..])[frame := FrameEntry(page, READ_WRITE)];
    }

    method PageFaultHandler(page: nat, choice: nat)
      requires Valid() && CanFault(View(), policy, page, choice)
      requires policy.Custom? ==> forall p :: 0 <= p < pageEvics.Length ==> pageEvics[p] < INT_MAX
      modifies this, pageMapping, pageBits, frameTable, physmem, disk, fifoArray, pageEvics
      ensures Valid()
      ensures View() == Fault(old(View()), policy, page, choice)
    {
      pageFaults := pageFaults + 1;
      var bits := pageBits[page];
      assert View() == OneMoreFault(old(View()));
      if bits == PROT_NONE {
        LoadPage(page, choice);
      } else if bits ^ PROT_READ == 0 {
        GrantWrite(page);
      }
    }

    // No eviction count overflows an int before the page fault counter does.
    static lemma EvictionCountsFit(m: Machine)
      requires Inv(m, Custom) && m.count.pageFaults < INT_MAX
      ensures forall p :: 0 <= p < |m.evics| ==> m.evics[p] < INT_MAX
    {
      forall p | 0 <= p < |m.evics|
        ensures m.evics[p] < INT_MAX
      {
        EachIsAtMostSum(m.evics, p);
      }
    }

    // One fault of a retried access.
    method ServeFault(r: Request)
      requires Valid() && Inv(View(), policy) && LegalRequest(View(), policy, r)
      requires !Permitted(Mem(), r.access) && pageFaults < INT_MAX
      modifies this, pageMapping, pageBits, frameTable, physmem, disk, fifoArray, pageEvics
      ensures Valid() && Inv(View(), policy) && LegalRequest(View(), policy, r)
      ensures Settle(View(), policy, r) == old(Settle(View(), policy, r))
      ensures pageFaults == old(pageFaults) + 1
      ensures Rank(Mem(), r.access.Page()) < old(Rank(Mem(), r.access.Page()))
    {
      ghost var before := View();
      SettleAgain(before, policy, r);
      if policy.Custom? {
        EvictionCountsFit(before);
      }
      hide Inv, Base, Handle, CanReplace, FrontInRange, Settle;
      PageFaultHandler(r.access.Page(), r.choice);
    }

    // The hardware retries an access until the handler has made it legal.
    method RetryUntilPermitted(r: Request)
      requires Valid() && Inv(View(), policy) && LegalRequest(View(), policy, r)
      requires pageFaults + 2 <= INT_MAX
      modifies this, pageMapping, pageBits, frameTable, physmem, disk, fifoArray, pageEvics
      ensures Valid()
      ensures View() == Settle(old(View()), policy, r)
    {
      var page := r.access.Page();
      while pageBits[page] & r.access.Needs() == 0
        invariant Valid() && Inv(View(), policy) && LegalRequest(View(), policy, r)
        invariant Settle(View(), policy, r) == old(Settle(View(), policy, r))
        invariant pageFaults + Rank(Mem(), page) <= INT_MAX
        decreases Rank(Mem(), page)
      {
        PermissionLadder(View(), policy, r.access);
        ServeFault(r);
      }
    }

    method ReadByte(r: Request) returns (b: Byte)
      requires Valid() && Inv(View(), policy) && LegalRequest(View(), policy, r) && r.access.Get?
      requires pageFaults + 2 <= INT_MAX
      modifies this, pageMapping, pageBits, frameTable, physmem, disk, fifoArray, pageEvics
      ensures Valid() && Inv(View(), policy)
      ensures View() == Step(old(View()), policy, r) && b == StepResult(old(View()), policy, r)
      ensures Flat(Mem()) == old(Flat(Mem())) && r.access.addr < |BytesOf(Flat(Mem()))|
      ensures b == BytesOf(Flat(Mem()))[r.access.addr]
    {
      StepMatchesFlat(View(), policy, r);
      StepByAddress(View(), policy, r);
      SettleGrantsAccess(View(), policy, r);
      RetryUntilPermitted(r);
      b := physmem[pageMapping[r.access.Page()]][r.access.Offset()];
    }

    method WriteByte(r: Request)
      requires Valid() && Inv(View(), policy) && LegalRequest(View(), policy, r) && r.access.Put?
      requires pageFaults + 2 <= INT_MAX
      modifies this, pageMapping, pageBits, frameTable, physmem, disk, fifoArray, pageEvics
      ensures Valid() && Inv(View(), policy)
      ensures View() == Step(old(View()), policy, r)
      ensures r.access.addr < |BytesOf(old(Flat(Mem())))|
      ensures BytesOf(Flat(Mem())) == BytesOf(old(Flat(Mem())))[r.access.addr := r.access.value]
    {
      StepMatchesFlat(View(), policy, r);
      StepByAddress(View(), policy, r);
      SettleGrantsAccess(View(), policy, r);
      RetryUntilPermitted(r);
      var f := pageMapping[r.access.Page()];
      ghost var settled := View();
      physmem[f] := physmem[f][r.access.Offset() := r.access.value];
      assert Mem().physmem == settled.mem.physmem[f := physmem[f]];
      assert Mem() == Perform(settled.mem, r.access);
    }
  }

  // How many faults a page can still cause.
  function Rank(mem: Memory, page: nat): nat
    requires page < mem.NPages()
  {
    if mem.bits[page] == READ_WRITE then 0 else if mem.bits[page] == PROT_NONE then 2 else 1
  }

  // One more fault never changes where the retries end.
  lemma SettleAgain(m: Machine, policy: Policy, r: Request)
    requires Inv(m, policy) && LegalRequest(m, policy, r) && !Permitted(m.mem, r.access)
    ensures CanFault(m, policy, r.access.Page(), r.choice)
    ensures var m1 := Fault(m, policy, r.access.Page(), r.choice);
            && Inv(m1, policy) && LegalRequest(m1, policy, r)
            && Settle(m1, policy, r) == Settle(m, policy, r)
            && m1.count.pageFaults == m.count.pageFaults + 1
            && Rank(m1.mem, r.access.Page()) < Rank(m.mem, r.access.Page())
  {
    PermissionLadder(m, policy, r.access);
    FaultKeepsInv(m, policy, r.access.Page(), r.choice);
    FaultSameSize(m, policy, r.access.Page(), r.choice);
    SettleGrantsAccess(m, policy, r);
    SettleUnfolds(m, policy, r);
  }

  lemma SettleUnfolds(m: Machine, policy: Policy, r: Request)
    requires Inv(m, policy) && LegalRequest(m, policy, r) && !Permitted(m.mem, r.access)
    requires CanFault(m, policy, r.access.Page(), r.choice)
    requires var m1 := Fault(m, policy, r.access.Page(), r.choice); Inv(m1, policy) && LegalRequest(m1, policy, r)
    ensures Settle(m, policy, r) == Settle(Fault(m, policy, r.access.Page(), r.choice), policy, r)
  {
    var m1 := Fault(m, policy, r.access.Page(), r.choice);
    PermissionLadder(m, policy, r.access);
    FaultKeepsInv(m, policy, r.access.Page(), r.choice);
    PermissionLadder(m1, policy, r.access);
    if !Permitted(m1.mem, r.access) {
      FaultKeepsInv(m1, policy, r.access.Page(), r.choice);
      var m2 := Fault(m1, policy, r.access.Page(), r.choice);
      PermissionLadder(m2, policy, r.access);
    }
  }
}
