/** Whole runs of the paging machine: each access is retried until the page grants it. */
module PagingRuns {
  import opened PagingMachine
  import opened PagingTheorems

  datatype Access = Get(addr: nat) | Put(addr: nat, value: Byte) {
    function Page(): nat { addr / PAGE_SIZE }
    function Offset(): nat { addr % PAGE_SIZE }
    function Needs(): bv8 { if Get? then PROT_READ else PROT_WRITE }
  }

  // An access together with the frame lrand48() would pick should it cause a replacement.
  datatype Request = Request(access: Access, choice: nat)

  predicate Permitted(mem: Memory, a: Access)
    requires a.Page() < mem.NPages()
  {
    mem.bits[a.Page()] & a.Needs() != 0
  }

  // Nothing is permitted on an absent page and everything on a writable one.
  lemma PermissionLadder(m: Machine, policy: Policy, a: Access)
    requires Inv(m, policy) && a.Page() < m.mem.NPages()
    ensures m.mem.bits[a.Page()] in {PROT_NONE, PROT_READ, READ_WRITE}
    ensures Permitted(m.mem, a) <==>
              m.mem.bits[a.Page()] == READ_WRITE || (a.Get? && m.mem.bits[a.Page()] == PROT_READ)
  {
  }

  predicate LegalRequest(m: Machine, policy: Policy, r: Request) {
    Legal(m, policy, r.access.Page(), r.choice)
  }

  // The machine after the faults one access takes: none, one, or two.
  function Settle(m: Machine, policy: Policy, r: Request): (m': Machine)
    requires Inv(m, policy) && LegalRequest(m, policy, r)
    ensures Inv(m', policy) && m'.mem.NPages() == m.mem.NPages()
  {
    if Permitted(m.mem, r.access) then m
    else
      FaultKeepsInv(m, policy, r.access.Page(), r.choice);
      var m1 := Fault(m, policy, r.access.Page(), r.choice);
      if Permitted(m1.mem, r.access) then m1
      else
        FaultKeepsInv(m1, policy, r.access.Page(), r.choice);
        Fault(m1, policy, r.access.Page(), r.choice)
  }

  // Two faults always suffice, and no fault disturbs the flat memory.
  lemma SettleGrantsAccess(m: Machine, policy: Policy, r: Request)
    requires Inv(m, policy) && LegalRequest(m, policy, r)
    ensures Permitted(Settle(m, policy, r).mem, r.access)
    ensures Flat(Settle(m, policy, r).mem) == Flat(m.mem)
  {
    PermissionLadder(m, policy, r.access);
    if !Permitted(m.mem, r.access) {
      FaultKeepsInv(m, policy, r.access.Page(), r.choice);
      var m1 := Fault(m, policy, r.access.Page(), r.choice);
      PermissionLadder(m1, policy, r.access);
      if !Permitted(m1.mem, r.access) {
        FaultKeepsInv(m1, policy, r.access.Page(), r.choice);
        PermissionLadder(Fault(m1, policy, r.access.Page(), r.choice), policy, r.access);
      }
    }
  }

  // The access itself, through the mapping the hardware was given.
  function Perform(mem: Memory, a: Access): Memory
    requires Coherent(mem) && a.Page() < mem.NPages() && Permitted(mem, a)
  {
    if a.Get? then mem
    else
      var f := mem.mapping[a.Page()];
      mem.(physmem := mem.physmem[f := mem.physmem[f][a.Offset() := a.value]])
  }

  function Result(mem: Memory, a: Access): Byte
    requires Coherent(mem) && a.Page() < mem.NPages() && Permitted(mem, a)
  {
    if a.Get? then mem.physmem[mem.mapping[a.Page()]][a.Offset()] else a.value
  }

  // The flat memory the programs believe they have.
  function FlatPerform(flat: seq<Page>, a: Access): seq<Page>
    requires a.Page() < |flat|
  {
    if a.Get? then flat else flat[a.Page() := flat[a.Page()][a.Offset() := a.value]]
  }

  function FlatResult(flat: seq<Page>, a: Access): Byte
    requires a.Page() < |flat|
  {
    if a.Get? then flat[a.Page()][a.Offset()] else a.value
  }

  lemma PerformMatchesFlat(mem: Memory, a: Access)
    requires Coherent(mem) && a.Page() < mem.NPages() && Permitted(mem, a)
    ensures Result(mem, a) == FlatResult(Flat(mem), a)
    ensures var mem' := Perform(mem, a);
            Coherent(mem') && Flat(mem') == FlatPerform(Flat(mem), a)
  {
    var page := a.Page();
    assert mem.bits[page] != PROT_NONE;
    var f := mem.mapping[page];
    assert mem.frames[f].bits == mem.bits[page];
    var mem' := Perform(mem, a);
    assert a.Put? ==> mem.frames[f].bits == READ_WRITE;
    forall p | 0 <= p < mem.NPages()
      ensures Coherent(mem') && Backing(mem', p) == FlatPerform(Flat(mem), a)[p]
    {
      if p != page && mem.bits[p] != PROT_NONE {
        assert mem.frames[mem.mapping[p]].page == p;
      }
    }
  }

  // ----- the same by address -----

  // The bytes of a list of pages, one page after another.
  ghost function BytesOf(pages: seq<Page>): (bytes: seq<Byte>)
    ensures |bytes| == 4096 * |pages|
  {
    if pages == [] then [] else BytesOf(pages[..|pages| - 1]) + pages[|pages| - 1]
  }

  // The byte at an address is in the page of the address, at its place there.
  lemma {:induction false} ByteOfPage(pages: seq<Page>, a: Access)
    requires a.Page() < |pages|
    ensures a.addr < 4096 * |pages| && BytesOf(pages)[a.addr] == pages[a.Page()][a.Offset()]
  {
    var last := |pages| - 1;
    if a.Page() < last {
      ByteOfPage(pages[..last], a);
    }
  }

  // Changing a byte of a page changes the byte at that address, and no other.
  lemma {:induction false} BytePut(pages: seq<Page>, a: Access, v: Byte)
    requires a.Page() < |pages|
    ensures a.addr < 4096 * |pages|
    ensures BytesOf(pages[a.Page() := pages[a.Page()][a.Offset() := v]]) == BytesOf(pages)[a.addr := v]
  {
    var last := |pages| - 1;
    var pages' := pages[a.Page() := pages[a.Page()][a.Offset() := v]];
    if a.Page() < last {
      BytePut(pages[..last], a, v);
      assert pages'[..last] == pages[..last][a.Page() := pages[..last][a.Page()][a.Offset() := v]];
    } else {
      assert pages'[..last] == pages[..last];
      assert a.addr == 4096 * last + a.Offset();
    }
  }

  // An access reads or writes the byte at its address.
  lemma FlatByAddress(flat: seq<Page>, a: Access)
    requires a.Page() < |flat|
    ensures a.addr < 4096 * |flat|
    ensures FlatResult(flat, a) == if a.Get? then BytesOf(flat)[a.addr] else a.value
    ensures BytesOf(FlatPerform(flat, a)) == if a.Get? then BytesOf(flat) else BytesOf(flat)[a.addr := a.value]
  {
    ByteOfPage(flat, a);
    if a.Put? {
      BytePut(flat, a, a.value);
    }
  }

  // Just the addresses of the pages there are can be accessed.
  lemma AddressInRange(a: Access, npages: nat)
    ensures a.Page() < npages <==> a.addr < 4096 * npages
  {
  }

  function Step(m: Machine, policy: Policy, r: Request): Machine
    requires Inv(m, policy) && LegalRequest(m, policy, r)
  {
    SettleGrantsAccess(m, policy, r);
    var m' := Settle(m, policy, r);
    m'.(mem := Perform(m'.mem, r.access))
  }

  function StepResult(m: Machine, policy: Policy, r: Request): Byte
    requires Inv(m, policy) && LegalRequest(m, policy, r)
  {
    SettleGrantsAccess(m, policy, r);
    Result(Settle(m, policy, r).mem, r.access)
  }

  lemma StepMatchesFlat(m: Machine, policy: Policy, r: Request)
    requires Inv(m, policy) && LegalRequest(m, policy, r)
    ensures var m' := Step(m, policy, r);
            && Inv(m', policy)
            && Flat(m'.mem) == FlatPerform(Flat(m.mem), r.access)
            && m'.mem.NFrames() == m.mem.NFrames()
    ensures StepResult(m, policy, r) == FlatResult(Flat(m.mem), r.access)
  {
    SettleGrantsAccess(m, policy, r);
    PerformMatchesFlat(Settle(m, policy, r).mem, r.access);
    SameSize(m, policy, r);
  }

  // By address: a read returns the byte there and changes none, a write changes that byte and no other.
  lemma StepByAddress(m: Machine, policy: Policy, r: Request)
    requires Inv(m, policy) && LegalRequest(m, policy, r)
    ensures Inv(Step(m, policy, r), policy)
    ensures var before, after := BytesOf(Flat(m.mem)), BytesOf(Flat(Step(m, policy, r).mem));
            var a := r.access;
            && a.addr < |before|
            && (a.Get? ==> StepResult(m, policy, r) == before[a.addr] && after == before)
            && (a.Put? ==> after == before[a.addr := a.value])
  {
    StepMatchesFlat(m, policy, r);
    FlatByAddress(Flat(m.mem), r.access);
    hide Inv, Step, StepResult, FlatPerform, FlatResult, BytesOf;
  }

  lemma SameSize(m: Machine, policy: Policy, r: Request)
    requires Inv(m, policy) && LegalRequest(m, policy, r)
    ensures Settle(m, policy, r).mem.NFrames() == m.mem.NFrames()
  {
    if !Permitted(m.mem, r.access) {
      FaultKeepsInv(m, policy, r.access.Page(), r.choice);
      FaultSameSize(m, policy, r.access.Page(), r.choice);
      var m1 := Fault(m, policy, r.access.Page(), r.choice);
      if !Permitted(m1.mem, r.access) {
        FaultKeepsInv(m1, policy, r.access.Page(), r.choice);
        FaultSameSize(m1, policy, r.access.Page(), r.choice);
      }
    }
  }

  lemma FaultSameSize(m: Machine, policy: Policy, page: nat, choice: nat)
    requires CanFault(m, policy, page, choice)
    ensures Fault(m, policy, page, choice).mem.NFrames() == m.mem.NFrames()
    ensures Fault(m, policy, page, choice).mem.NPages() == m.mem.NPages()
  {
  }

  // ----- runs -----

  predicate LegalRun(npages: nat, nframes: nat, policy: Policy, rs: seq<Request>) {
    forall i :: 0 <= i < |rs| ==>
      rs[i].access.Page() < npages && (policy.Rand? ==> rs[i].choice < nframes)
  }

  predicate LegalFrom(m: Machine, policy: Policy, rs: seq<Request>) {
    LegalRun(m.mem.NPages(), m.mem.NFrames(), policy, rs)
  }

  function Run(m: Machine, policy: Policy, rs: seq<Request>): (m': Machine)
    requires Inv(m, policy) && LegalFrom(m, policy, rs)
    ensures Inv(m', policy)
    ensures m'.mem.NPages() == m.mem.NPages() && m'.mem.NFrames() == m.mem.NFrames()
    decreases |rs|
  {
    if rs == [] then m
    else
      assert LegalRequest(m, policy, rs[0]);
      StepMatchesFlat(m, policy, rs[0]);
      Run(Step(m, policy, rs[0]), policy, rs[1..])
  }

  function Results(m: Machine, policy: Policy, rs: seq<Request>): seq<Byte>
    requires Inv(m, policy) && LegalFrom(m, policy, rs)
    decreases |rs|
  {
    if rs == [] then []
    else
      assert LegalRequest(m, policy, rs[0]);
      StepMatchesFlat(m, policy, rs[0]);
      [StepResult(m, policy, rs[0])] + Results(Step(m, policy, rs[0]), policy, rs[1..])
  }

  function Accesses(rs: seq<Request>): (as': seq<Access>)
    ensures |as'| == |rs|
    ensures forall i :: 0 <= i < |rs| ==> as'[i] == rs[i].access
  {
    if rs == [] then [] else [rs[0].access] + Accesses(rs[1..])
  }

  predicate InBounds(npages: nat, accesses: seq<Access>) {
    forall i :: 0 <= i < |accesses| ==> accesses[i].Page() < npages
  }

  function FlatRun(flat: seq<Page>, accesses: seq<Access>): (flat': seq<Page>)
    requires InBounds(|flat|, accesses)
    ensures |flat'| == |flat|
    decreases |accesses|
  {
    if accesses == [] then flat else FlatRun(FlatPerform(flat, accesses[0]), accesses[1..])
  }

  function FlatResults(flat: seq<Page>, accesses: seq<Access>): seq<Byte>
    requires InBounds(|flat|, accesses)
    decreases |accesses|
  {
    if accesses == [] then []
    else [FlatResult(flat, accesses[0])] + FlatResults(FlatPerform(flat, accesses[0]), accesses[1..])
  }

  // Main theorem: every byte a program reads, and the memory it leaves, are those of the flat
  // memory, whatever the policy, the number of frames and the random choices.
  lemma {:induction false} PagedRefinesFlat(m: Machine, policy: Policy, rs: seq<Request>)
    requires Inv(m, policy) && LegalFrom(m, policy, rs)
    ensures Results(m, policy, rs) == FlatResults(Flat(m.mem), Accesses(rs))
    ensures Flat(Run(m, policy, rs).mem) == FlatRun(Flat(m.mem), Accesses(rs))
    decreases |rs|
  {
    if rs != [] {
      assert LegalRequest(m, policy, rs[0]);
      StepMatchesFlat(m, policy, rs[0]);
      PagedRefinesFlat(Step(m, policy, rs[0]), policy, rs[1..]);
      assert Accesses(rs)[1..] == Accesses(rs[1..]);
    }
  }

  // ----- what a program reads -----

  // Access j is the last write to the address of access i before it.
  predicate LastPut(accesses: seq<Access>, j: nat, i: nat) {
    && j < i < |accesses| && IsPut(accesses[j], accesses[i].addr)
    && forall k :: j < k < i ==> !IsPut(accesses[k], accesses[i].addr)
  }

  predicate IsPut(a: Access, addr: nat) {
    a.Put? && a.addr == addr
  }

  // No access before i writes to its address.
  predicate NeverPut(accesses: seq<Access>, i: nat) {
    i < |accesses| && forall k :: 0 <= k < i ==> !IsPut(accesses[k], accesses[i].addr)
  }

  // The first access is dropped.
  lemma OneEarlier(accesses: seq<Access>, i: nat)
    requires 0 < i < |accesses|
    ensures forall j: nat :: 0 < j ==> (LastPut(accesses, j, i) <==> LastPut(accesses[1..], j - 1, i - 1))
    ensures LastPut(accesses, 0, i) <==> IsPut(accesses[0], accesses[i].addr) && NeverPut(accesses[1..], i - 1)
    ensures NeverPut(accesses, i) <==> !IsPut(accesses[0], accesses[i].addr) && NeverPut(accesses[1..], i - 1)
  {
    var rest := accesses[1..];
    assert forall k :: 0 <= k < |rest| ==> rest[k] == accesses[k + 1];
    forall k | 0 < k < i
      ensures IsPut(accesses[k], accesses[i].addr) <==> IsPut(rest[k - 1], rest[i - 1].addr)
    {
    }
    hide IsPut;
    forall j: nat | 0 < j
      ensures LastPut(accesses, j, i) <==> LastPut(rest, j - 1, i - 1)
    {
      if LastPut(rest, j - 1, i - 1) {
        forall k | j < k < i
          ensures !IsPut(accesses[k], accesses[i].addr)
        {
          assert !IsPut(rest[k - 1], rest[i - 1].addr);
        }
      }
    }
    if NeverPut(rest, i - 1) {
      forall k | 0 < k < i
        ensures !IsPut(accesses[k], accesses[i].addr)
      {
        assert !IsPut(rest[k - 1], rest[i - 1].addr);
      }
    }
  }

  lemma {:induction false} FlatRemembers(flat: seq<Page>, accesses: seq<Access>, i: nat)
    requires InBounds(|flat|, accesses) && i < |accesses| && accesses[i].Get?
    ensures |FlatResults(flat, accesses)| == |accesses| && accesses[i].addr < 4096 * |flat|
    ensures forall j: nat :: LastPut(accesses, j, i) ==> FlatResults(flat, accesses)[i] == accesses[j].value
    ensures NeverPut(accesses, i) ==> FlatResults(flat, accesses)[i] == BytesOf(flat)[accesses[i].addr]
    decreases |accesses|
  {
    FlatByAddress(flat, accesses[0]);
    FlatLength(flat, accesses);
    if i > 0 {
      var flat1, rest := FlatPerform(flat, accesses[0]), accesses[1..];
      FlatRemembers(flat1, rest, i - 1);
      OneEarlier(accesses, i);
      assert FlatResults(flat, accesses)[i] == FlatResults(flat1, rest)[i - 1];
    }
  }

  lemma {:induction false} FlatLength(flat: seq<Page>, accesses: seq<Access>)
    requires InBounds(|flat|, accesses)
    ensures |FlatResults(flat, accesses)| == |accesses|
    decreases |accesses|
  {
    if accesses != [] {
      FlatLength(FlatPerform(flat, accesses[0]), accesses[1..]);
    }
  }

  lemma ReadsFlat(m: Machine, policy: Policy, rs: seq<Request>, i: nat)
    requires Inv(m, policy) && LegalFrom(m, policy, rs) && i < |rs| && rs[i].access.Get?
    ensures |Results(m, policy, rs)| == |rs| && rs[i].access.addr < |BytesOf(Flat(m.mem))|
    ensures forall j: nat :: LastPut(Accesses(rs), j, i) ==> Results(m, policy, rs)[i] == Accesses(rs)[j].value
    ensures NeverPut(Accesses(rs), i) ==> Results(m, policy, rs)[i] == BytesOf(Flat(m.mem))[rs[i].access.addr]
  {
    PagedRefinesFlat(m, policy, rs);
    FlatRemembers(Flat(m.mem), Accesses(rs), i);
    hide Inv, Run, Results, FlatRun, FlatResults, BytesOf, Coherent;
  }

  // Main theorem by address: from boot, under every policy and choice, a read returns what the last earlier write to
  // the same address stored, and what the disk held at that address if there was none.
  lemma ReadsReturnLastWrite(m: Machine, policy: Policy, rs: seq<Request>, i: nat)
    requires Booted(m) && i < |rs| && rs[i].access.Get?
    requires forall k :: 0 <= k < |rs| ==>
               rs[k].access.addr < 4096 * |m.mem.disk| && (policy.Rand? ==> rs[k].choice < |m.mem.frames|)
    ensures Inv(m, policy) && LegalFrom(m, policy, rs) && |Results(m, policy, rs)| == |rs|
    ensures forall j: nat :: LastPut(Accesses(rs), j, i) ==> Results(m, policy, rs)[i] == rs[j].access.value
    ensures NeverPut(Accesses(rs), i) ==> Results(m, policy, rs)[i] == BytesOf(m.mem.disk)[rs[i].access.addr]
  {
    BootedInv(m, policy);
    forall k | 0 <= k < |rs|
      ensures rs[k].access.Page() < m.mem.NPages()
    {
      AddressInRange(rs[k].access, m.mem.NPages());
    }
    hide Inv, Booted, Run, Results, FlatRun, FlatResults, Flat, BytesOf, Coherent, LastPut, NeverPut, InBounds;
    ReadsFlat(m, policy, rs, i);
  }

  // So any two policies, from boot on the same disk, give a program the same bytes.
  lemma PoliciesAgree(m1: Machine, p1: Policy, rs1: seq<Request>, m2: Machine, p2: Policy, rs2: seq<Request>)
    requires Booted(m1) && Booted(m2) && m1.mem.disk == m2.mem.disk
    requires LegalFrom(m1, p1, rs1) && LegalFrom(m2, p2, rs2)
    requires Accesses(rs1) == Accesses(rs2)
    ensures Inv(m1, p1) && Inv(m2, p2)
    ensures Results(m1, p1, rs1) == Results(m2, p2, rs2)
  {
    BootedInv(m1, p1);
    BootedInv(m2, p2);
    PagedRefinesFlat(m1, p1, rs1);
    PagedRefinesFlat(m2, p2, rs2);
  }
}
