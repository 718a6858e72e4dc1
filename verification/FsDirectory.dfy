/** Directories: readdir, writedir and lseek on an open directory, the shifting edits of creat and
    unlink, and the search of findNextIndexNode. */
module FsDirectory {
  import opened FsCodec
  import opened FsGeometry
  import opened FsFile
  import opened FsDescriptor
  import opened DirectoryEntries
  import K = FsKernel
  import T = FsTruncate

  // ----- a directory as a list of entries -----

  lemma CellFits(n: nat, k: nat)
    requires n >= DIRECTORY_ENTRY_SIZE && n % DIRECTORY_ENTRY_SIZE == 0
    ensures Rem(DIRECTORY_ENTRY_SIZE * k, n) + DIRECTORY_ENTRY_SIZE <= n
  {
    var m, q := n / DIRECTORY_ENTRY_SIZE, Quot(DIRECTORY_ENTRY_SIZE * k, n);
    DivMod(DIRECTORY_ENTRY_SIZE * k, n);
    assert q * n == DIRECTORY_ENTRY_SIZE * (q * m);
  }

  lemma CellsApart(n: nat, j: nat, k: nat)
    requires n >= 1 && j != k && Quot(DIRECTORY_ENTRY_SIZE * j, n) == Quot(DIRECTORY_ENTRY_SIZE * k, n)
    ensures var r, t := Rem(DIRECTORY_ENTRY_SIZE * j, n), Rem(DIRECTORY_ENTRY_SIZE * k, n);
            r + DIRECTORY_ENTRY_SIZE <= t || t + DIRECTORY_ENTRY_SIZE <= r
  {
  }

  // Entry k of a directory given as blocks of n bytes.
  function EntryOf(c: seq<Block>, n: nat, k: nat): Entry
  {
    if n >= 1 && Quot(DIRECTORY_ENTRY_SIZE * k, n) < |c|
       && Rem(DIRECTORY_ENTRY_SIZE * k, n) + DIRECTORY_ENTRY_SIZE <= |c[Quot(DIRECTORY_ENTRY_SIZE * k, n)]|
    then DecodeEntry(c[Quot(DIRECTORY_ENTRY_SIZE * k, n)], Rem(DIRECTORY_ENTRY_SIZE * k, n))
    else Entry(0, [])
  }

  function Listing(c: seq<Block>, n: nat, count: nat): (s: seq<Entry>)
    ensures |s| == count
    ensures forall k :: 0 <= k < count ==> s[k] == EntryOf(c, n, k)
  {
    seq(count, k requires 0 <= k < count => EntryOf(c, n, k))
  }

  // Writing one entry changes that entry of the listing and no other.
  lemma CellWritten(c: seq<Block>, n: nat, k: nat, e: Entry, j: nat)
    requires K.Cells(c, n) && n % DIRECTORY_ENTRY_SIZE == 0 && n >= DIRECTORY_ENTRY_SIZE && e.Fits()
    requires Quot(DIRECTORY_ENTRY_SIZE * k, n) < |c|
    ensures Rem(DIRECTORY_ENTRY_SIZE * k, n) + DIRECTORY_ENTRY_SIZE <= n
    ensures var q, at := Quot(DIRECTORY_ENTRY_SIZE * k, n), Rem(DIRECTORY_ENTRY_SIZE * k, n);
            EntryOf(c[q := Patch(c[q], at, EncodeEntry(e))], n, j) == if j == k then e else EntryOf(c, n, j)
  {
    CellFits(n, k);
    CellFits(n, j);
    var q, at := Quot(DIRECTORY_ENTRY_SIZE * k, n), Rem(DIRECTORY_ENTRY_SIZE * k, n);
    if j == k {
      EntryRoundTrip(c[q], at, e);
    } else if Quot(DIRECTORY_ENTRY_SIZE * j, n) == q {
      CellsApart(n, j, k);
      OtherCellKept(c[q], at, e, Rem(DIRECTORY_ENTRY_SIZE * j, n));
    }
  }

  // The listing after writing entry k of a directory, or appending one.
  function Put(s: seq<Entry>, k: nat, e: Entry): seq<Entry>
    requires k <= |s|
  {
    if k < |s| then s[k := e] else s + [e]
  }

  lemma ListingWritten(c: seq<Block>, n: nat, s: seq<Entry>, k: nat, e: Entry)
    requires K.Cells(c, n) && n % DIRECTORY_ENTRY_SIZE == 0 && n >= DIRECTORY_ENTRY_SIZE && e.Fits()
    requires Quot(DIRECTORY_ENTRY_SIZE * k, n) < |c| && k <= |s| && s == Listing(c, n, |s|)
    ensures Rem(DIRECTORY_ENTRY_SIZE * k, n) + DIRECTORY_ENTRY_SIZE <= n
    ensures var q, at := Quot(DIRECTORY_ENTRY_SIZE * k, n), Rem(DIRECTORY_ENTRY_SIZE * k, n);
            Put(s, k, e) == Listing(c[q := Patch(c[q], at, EncodeEntry(e))], n, |Put(s, k, e)|)
  {
    CellFits(n, k);
    var q, at := Quot(DIRECTORY_ENTRY_SIZE * k, n), Rem(DIRECTORY_ENTRY_SIZE * k, n);
    forall j | 0 <= j < |Put(s, k, e)|
      ensures EntryOf(c[q := Patch(c[q], at, EncodeEntry(e))], n, j) == Put(s, k, e)[j]
    {
      CellWritten(c, n, k, e, j);
    }
  }

  // ----- a directory on disk -----

  // The block of entry k.
  function BlockOf(g: Geometry, k: nat): nat
    requires g.Valid()
  {
    Quot(DIRECTORY_ENTRY_SIZE * k, g.blockSize)
  }

  // Each of the first `count` entries lies in an allocated block.
  ghost predicate NoHoles(g: Geometry, node: IndexNode, data: seq<Block>, count: nat) {
    && DataShape(g, data) && NodeShape(g, node)
    && forall k: nat :: k < count ==> InUse(g, node, data, BlockOf(g, k))
  }

  ghost predicate AllFit(s: seq<Entry>) {
    forall i :: 0 <= i < |s| ==> s[i].Fits()
  }

  // The blocks of a directory hold s, whatever its size says.
  ghost predicate Holding(g: Geometry, node: IndexNode, data: seq<Block>, s: seq<Entry>) {
    && DataShape(g, data) && NodeShape(g, node) && K.Fits(g, DIRECTORY_ENTRY_SIZE * |s|)
    && s == Listing(Contents(g, node, data), g.blockSize, |s|) && AllFit(s) && NoHoles(g, node, data, |s|)
  }

  // A directory lists s.
  ghost predicate Lists(g: Geometry, node: IndexNode, data: seq<Block>, s: seq<Entry>) {
    Holding(g, node, data, s) && node.size == DIRECTORY_ENTRY_SIZE * |s|
  }

  lemma EntrySize()
    ensures DIRECTORY_ENTRY_SIZE == 16
  {
  }

  lemma SixteenDivides(n: nat)
    requires n >= INDEX_NODE_SIZE && n % INDEX_NODE_SIZE == 0
    ensures n % DIRECTORY_ENTRY_SIZE == 0
  {
    var m := n / INDEX_NODE_SIZE;
    assert n == DIRECTORY_ENTRY_SIZE * (4 * m);
  }

  lemma WholeEntries(g: Geometry)
    requires g.Valid()
    ensures g.blockSize >= DIRECTORY_ENTRY_SIZE && g.blockSize % DIRECTORY_ENTRY_SIZE == 0
  {
    SixteenDivides(g.blockSize);
  }

  lemma FitsBefore(g: Geometry, k: nat, count: nat)
    requires k < count && K.Fits(g, DIRECTORY_ENTRY_SIZE * count)
    ensures K.Fits(g, DIRECTORY_ENTRY_SIZE * (k + 1))
  {
  }

  // Where entry k of a directory is.
  lemma CellOf(g: Geometry, k: nat)
    requires g.Valid() && K.Fits(g, DIRECTORY_ENTRY_SIZE * (k + 1))
    ensures g.blockSize >= DIRECTORY_ENTRY_SIZE && g.blockSize % DIRECTORY_ENTRY_SIZE == 0
    ensures BlockOf(g, k) == Quot(DIRECTORY_ENTRY_SIZE * k, g.blockSize) < Slots(g)
    ensures Rem(DIRECTORY_ENTRY_SIZE * k, g.blockSize) + DIRECTORY_ENTRY_SIZE <= g.blockSize
    ensures DIRECTORY_ENTRY_SIZE * (k + 1) < 0x8000_0000
  {
    WholeEntries(g);
    hide K.Fits, Geometry.Valid, Slots, Quot, Rem;
    K.FitsIsInt(g, DIRECTORY_ENTRY_SIZE * (k + 1));
    K.InSlots(g, DIRECTORY_ENTRY_SIZE * k, DIRECTORY_ENTRY_SIZE * (k + 1));
    CellFits(g.blockSize, k);
  }

  lemma FileIsCells(g: Geometry, node: IndexNode, data: seq<Block>)
    requires DataShape(g, data) && NodeShape(g, node)
    ensures K.Cells(Contents(g, node, data), g.blockSize) && |Contents(g, node, data)| == Slots(g)
  {
  }

  lemma EntryIs(g: Geometry, node: IndexNode, data: seq<Block>, s: seq<Entry>, k: nat)
    requires Holding(g, node, data, s) && k < |s|
    ensures g.Valid() && DataShape(g, data) && NodeShape(g, node) && K.Fits(g, DIRECTORY_ENTRY_SIZE * (k + 1))
    ensures var c, q, at := Contents(g, node, data), BlockOf(g, k), Rem(DIRECTORY_ENTRY_SIZE * k, g.blockSize);
            && q < |c| && at + DIRECTORY_ENTRY_SIZE <= |c[q]| == g.blockSize && s[k] == DecodeEntry(c[q], at)
    ensures InUse(g, node, data, BlockOf(g, k))
  {
    FitsBefore(g, k, |s|);
    CellOf(g, k);
    FileIsCells(g, node, data);
    hide Contents, Quot, Rem, DecodeEntry, K.Fits, Slots, Address;
    assert s[k] == EntryOf(Contents(g, node, data), g.blockSize, k);
  }

  // ----- an open directory -----

  // The open directory lists s.
  ghost predicate Shows(fd: FileDescriptor, s: seq<Entry>)
    reads fd`indexNode, fd.fs, fd.fs.freeListBitBlock, fd.fs.indexBlockBytes
  {
    fd.Readable() && Lists(fd.fs.g, fd.indexNode, fd.fs.data, s)
  }

  lemma ShownEntry(fd: FileDescriptor, s: seq<Entry>, k: nat)
    requires Shows(fd, s) && fd.offset == DIRECTORY_ENTRY_SIZE * k
    ensures fd.Readable() && fd.fs.g.Valid() && fd.bytes.Length == fd.fs.g.blockSize
    ensures fd.bytes != fd.fs.freeListBitBlock && fd.bytes != fd.fs.indexBlockBytes
    ensures fd.offset >= fd.indexNode.size <==> k >= |s|
    ensures k < |s| ==>
              var c, q, at := fd.File(), Quot(fd.offset, fd.fs.g.blockSize), Rem(fd.offset, fd.fs.g.blockSize);
              && q < |c| && q < Slots(fd.fs.g) && at + DIRECTORY_ENTRY_SIZE <= |c[q]|
              && s[k] == DecodeEntry(c[q], at)
  {
    if k < |s| {
      EntryIs(fd.fs.g, fd.indexNode, fd.fs.data, s, k);
    }
    hide DecodeEntry, Quot, Rem, Holding;
  }

  // Kernel::readdir
  method ReadDir(fd: FileDescriptor, e0: Entry, ghost s: seq<Entry>, ghost k: nat) returns (status: int, e: Entry)
    requires Shows(fd, s) && fd.offset == DIRECTORY_ENTRY_SIZE * k
    modifies fd.bytes, fd`offset
    ensures Shows(fd, s)
    ensures k >= |s| ==> status == 0 && e == e0 && fd.offset == old(fd.offset)
    ensures k < |s| ==> status == DIRECTORY_ENTRY_SIZE && e == s[k] && fd.offset == DIRECTORY_ENTRY_SIZE * (k + 1)
  {
    hide *;
    ShownEntry(fd, s, k);
    if fd.offset >= fd.indexNode.size {
      return 0, e0;
    }
    K.NotTooBig(fd, Quot(fd.offset, fd.fs.g.blockSize));
    status := fd.ReadBlock(Quot(fd.offset, fd.fs.g.blockSize));
    e := ReadEntry(fd.bytes, Rem(fd.offset, fd.fs.g.blockSize));
    fd.offset := fd.offset + DIRECTORY_ENTRY_SIZE;
    status := DIRECTORY_ENTRY_SIZE;
  }

  // ----- writing an entry -----

  // The block with entry k in it.
  function BlockWith(c: seq<Block>, n: nat, k: nat, e: Entry): Block
    requires n >= 1 && Quot(DIRECTORY_ENTRY_SIZE * k, n) < |c|
    requires Rem(DIRECTORY_ENTRY_SIZE * k, n) + |EncodeEntry(e)| <= |c[Quot(DIRECTORY_ENTRY_SIZE * k, n)]|
  {
    Patch(c[Quot(DIRECTORY_ENTRY_SIZE * k, n)], Rem(DIRECTORY_ENTRY_SIZE * k, n), EncodeEntry(e))
  }

  // There is a slot for entry k in what the pointers of a directory can reach, and not just one free
  // block where two are needed.
  ghost predicate CanPut(g: Geometry, node: IndexNode, used: set<nat>, k: nat) {
    && g.Valid() && node.Shaped() && K.Fits(g, DIRECTORY_ENTRY_SIZE * (k + 1))
    && K.Roomy(g, node, used, BlockOf(g, k), BlockOf(g, k))
  }

  // Entry k goes in: its block is there, or some block is free.
  ghost predicate HasRoom(g: Geometry, node: IndexNode, data: seq<Block>, used: set<nat>, k: nat) {
    && g.Valid() && DataShape(g, data) && NodeShape(g, node)
    && (InUse(g, node, data, BlockOf(g, k)) || !DiskFull(g, used))
  }

  // The blocks that writing entry k takes.
  ghost function Taken(g: Geometry, node: IndexNode, data: seq<Block>, k: nat): nat {
    if !g.Valid() || (DataShape(g, data) && NodeShape(g, node) && InUse(g, node, data, BlockOf(g, k))) then 0
    else Cost(node, BlockOf(g, k))
  }

  lemma AllFitAfter(s: seq<Entry>, k: nat, e: Entry)
    requires AllFit(s) && k <= |s| && e.Fits()
    ensures AllFit(Put(s, k, e))
  {
  }

  lemma NoHolesAfter(g: Geometry, node: IndexNode, data: seq<Block>, node': IndexNode, data': seq<Block>, count: nat,
                     k: nat)
    requires NoHoles(g, node, data, count) && k <= count && g.Valid() && BlockOf(g, k) < Slots(g)
    requires Fills(g, node, data, node', data', BlockOf(g, k))
    ensures NoHoles(g, node', data', if k < count then count else k + 1)
  {
  }

  // What a block write with entry k in it does to the listing.
  lemma EntryWritten(g: Geometry, was: Snapshot, now: Snapshot, n: nat, k: nat, e: Entry, s: seq<Entry>, block: Block,
                     status: int)
    requires Holding(g, was.node, was.data, s) && k <= |s| && e.Fits() && K.Fits(g, DIRECTORY_ENTRY_SIZE * (k + 1))
    requires g.Valid() && BlockWritten(g, was, now, n, BlockOf(g, k), block, status)
    requires var c := Contents(g, was.node, was.data);
             && BlockOf(g, k) < |c|
             && Rem(DIRECTORY_ENTRY_SIZE * k, g.blockSize) + |EncodeEntry(e)| <= |c[BlockOf(g, k)]|
             && block == BlockWith(c, g.blockSize, k, e)
    ensures status == 0 ==> Holding(g, now.node, now.data, Put(s, k, e)) && InUse(g, now.node, now.data, BlockOf(g, k))
    ensures k < |s| ==> status == 0 && now.node == was.node && now.used == was.used
    ensures status == -1 ==> now == was && !InUse(g, was.node, was.data, BlockOf(g, k)) && DiskFull(g, was.used)
    ensures status == 0 <==> HasRoom(g, was.node, was.data, was.used, k)
    ensures status == 0 ==> |now.used| == |was.used| + Taken(g, was.node, was.data, k)
  {
    CellOf(g, k);
    FileIsCells(g, was.node, was.data);
    ListingWritten(Contents(g, was.node, was.data), g.blockSize, s, k, e);
    if k < |s| {
      EntryIs(g, was.node, was.data, s, k);
    }
    AllFitAfter(s, k, e);
    hide Contents, Listing, Patch, EncodeEntry, Rem, K.Fits, Address, DataShape, AllFit, K.Cells, Slots, DiskFull, Quot;
    if status == 0 {
      NoHolesAfter(g, was.node, was.data, now.node, now.data, |s|, k);
      hide Fills, NoHoles;
    }
  }

  // What is known of a directory before one of its entries is written.
  lemma BeforePut(fd: FileDescriptor, s: seq<Entry>, k: nat)
    requires fd.Valid() && Lists(fd.fs.g, fd.indexNode, fd.fs.data, s) && k <= |s|
    requires fd.offset == DIRECTORY_ENTRY_SIZE * k
    requires CanPut(fd.fs.g, fd.indexNode, fd.fs.used, k)
    ensures fd.fs.g.Valid() && DataShape(fd.fs.g, fd.fs.data) && NodeShape(fd.fs.g, fd.indexNode) && fd.Readable()
    ensures Holding(fd.fs.g, fd.indexNode, fd.fs.data, s) && fd.indexNode.size == DIRECTORY_ENTRY_SIZE * |s|
    ensures fd.Now() == Snapshot(fd.Files(), fd.fs.used, fd.fs.data, fd.indexNode)
    ensures fd.bytes != fd.fs.freeListBitBlock && fd.bytes != fd.fs.indexBlockBytes
    ensures fd.bytes.Length == fd.fs.g.blockSize
    ensures K.Fits(fd.fs.g, DIRECTORY_ENTRY_SIZE * (k + 1)) && DIRECTORY_ENTRY_SIZE * (k + 1) < 0x8000_0000
    ensures var q, at := Quot(fd.offset, fd.fs.g.blockSize), Rem(fd.offset, fd.fs.g.blockSize);
            && q == BlockOf(fd.fs.g, k) < Slots(fd.fs.g) && at + DIRECTORY_ENTRY_SIZE <= fd.fs.g.blockSize && fd.Room(q)
            && at == Rem(DIRECTORY_ENTRY_SIZE * k, fd.fs.g.blockSize)
    ensures fd.File() == Contents(fd.fs.g, fd.indexNode, fd.fs.data) && |fd.File()| == Slots(fd.fs.g)
    ensures forall b :: 0 <= b < |fd.File()| ==> |fd.File()[b]| == fd.fs.g.blockSize
  {
    CellOf(fd.fs.g, k);
    K.RoomyIsRoom(fd, BlockOf(fd.fs.g, k), BlockOf(fd.fs.g, k));
    hide Quot, Rem, K.Fits, Ownership, Listing, Holding, K.Roomy;
  }

  lemma FitsInCell(e: Entry)
    requires e.Fits()
    ensures |EncodeEntry(e)| <= DIRECTORY_ENTRY_SIZE
  {
  }

  lemma BlockWithIs(c: seq<Block>, n: nat, k: nat, e: Entry)
    requires n >= 1 && Quot(DIRECTORY_ENTRY_SIZE * k, n) < |c|
    requires Rem(DIRECTORY_ENTRY_SIZE * k, n) + |EncodeEntry(e)| <= |c[Quot(DIRECTORY_ENTRY_SIZE * k, n)]|
    ensures BlockWith(c, n, k, e)
            == Patch(c[Quot(DIRECTORY_ENTRY_SIZE * k, n)], Rem(DIRECTORY_ENTRY_SIZE * k, n), EncodeEntry(e))
  {
  }

  // The first part of writedir: load the block, put the entry in, write it out.
  method StoreEntry(fd: FileDescriptor, e: Entry, ghost s: seq<Entry>, ghost k: nat) returns (status: int)
    requires fd.Valid() && Lists(fd.fs.g, fd.indexNode, fd.fs.data, s) && k <= |s| && e.Fits()
    requires fd.offset == DIRECTORY_ENTRY_SIZE * k && CanPut(fd.fs.g, fd.indexNode, fd.fs.used, k)
    modifies fd.bytes, fd`indexNode, fd.fs, fd.fs.indexBlockBytes, fd.fs.freeListBitBlock
    ensures K.Kept(fd, old(fd.Now())) && fd.indexNode.size == old(fd.indexNode.size)
    ensures status == 0 || status == -1
    ensures fd.fs.g.Valid() && DataShape(fd.fs.g, fd.fs.data) && NodeShape(fd.fs.g, fd.indexNode)
    ensures status == 0 ==> Holding(fd.fs.g, fd.indexNode, fd.fs.data, Put(s, k, e))
    ensures k < |s| ==> status == 0 && fd.indexNode == old(fd.indexNode) && fd.fs.used == old(fd.fs.used)
    ensures status == 0 <==> HasRoom(fd.fs.g, old(fd.indexNode), old(fd.fs.data), old(fd.fs.used), k)
    ensures status == 0 ==> |fd.fs.used| == |old(fd.fs.used)| + Taken(fd.fs.g, old(fd.indexNode), old(fd.fs.data), k)
    ensures status == -1 ==> fd.Now() == old(fd.Now())
  {
    hide *;
    ghost var was := fd.Now();
    BeforePut(fd, s, k);
    FitsInCell(e);
    var q := Quot(fd.offset, fd.fs.g.blockSize);
    K.NotTooBig(fd, q);
    BlockWithIs(fd.File(), fd.fs.g.blockSize, k, e);
    status := fd.ReadBlock(q);
    WriteEntry(e, fd.bytes, Rem(fd.offset, fd.fs.g.blockSize));
    status := fd.WriteBlock(q);
    K.WrittenIsKept(fd, was, q, fd.bytes[..], status);
    EntryWritten(fd.fs.g, was, fd.Now(), fd.indexNodeNumber, k, e, s, fd.bytes[..], status);
    K.FileNow(fd);
  }

  // The part of writedir after the block is on disk: move on, and record the size where it grew.
  method MoveOn(fd: FileDescriptor, ghost s': seq<Entry>, ghost k: nat, ghost was: Snapshot)
    requires K.Kept(fd, was) && fd.indexNode.Shaped() && fd.offset == DIRECTORY_ENTRY_SIZE * k
    requires Holding(fd.fs.g, fd.indexNode, fd.fs.data, s')
    requires K.Fits(fd.fs.g, DIRECTORY_ENTRY_SIZE * (k + 1))
    requires DIRECTORY_ENTRY_SIZE * |s'| == K.Larger(fd.indexNode.size, DIRECTORY_ENTRY_SIZE * (k + 1))
    modifies fd`offset, fd`indexNode, fd.fs, fd.fs.indexBlockBytes
    ensures K.Kept(fd, was) && fd.offset == DIRECTORY_ENTRY_SIZE * (k + 1)
    ensures Lists(fd.fs.g, fd.indexNode, fd.fs.data, s')
    ensures fd.fs.used == old(fd.fs.used) && fd.fs.data == old(fd.fs.data)
    ensures fd.indexNode == old(fd.indexNode).(size := DIRECTORY_ENTRY_SIZE * |s'|)
  {
    hide *;
    ghost var now, node := fd.Now(), fd.indexNode;
    K.KeptParts(fd, was);
    K.FileNow(fd);
    ListsResized(fd.fs.g, fd.indexNode, fd.fs.data, s');
    fd.offset := fd.offset + DIRECTORY_ENTRY_SIZE;
    K.GrowTo(fd, fd.offset);
    K.KeptParts(fd, now);
    K.KeptNext(fd, was, now);
  }

  lemma SizeFits(g: Geometry, s: seq<Entry>)
    requires g.Valid() && K.Fits(g, DIRECTORY_ENTRY_SIZE * |s|)
    ensures DIRECTORY_ENTRY_SIZE * |s| < 0x8000_0000
  {
    K.FitsIsInt(g, DIRECTORY_ENTRY_SIZE * |s|);
  }

  // The size has no part in what the blocks hold.
  lemma ListsResized(g: Geometry, node: IndexNode, data: seq<Block>, s: seq<Entry>)
    requires Holding(g, node, data, s)
    ensures DIRECTORY_ENTRY_SIZE * |s| < 0x8000_0000
    ensures Lists(g, node.(size := DIRECTORY_ENTRY_SIZE * |s|), data, s)
  {
    SizeFits(g, s);
    var node' := node.(size := DIRECTORY_ENTRY_SIZE * |s|);
    assert forall b: nat :: b < Slots(g) ==> Address(g, node', data, b) == Address(g, node, data, b);
    assert Contents(g, node', data) == Contents(g, node, data);
  }

  lemma PutSize(s: seq<Entry>, k: nat, e: Entry)
    requires k <= |s|
    ensures DIRECTORY_ENTRY_SIZE * |Put(s, k, e)|
            == K.Larger(DIRECTORY_ENTRY_SIZE * |s|, DIRECTORY_ENTRY_SIZE * (k + 1))
    ensures k < |s| ==> |Put(s, k, e)| == |s|
  {
  }

  // Kernel::writedir at entry k of a directory that lists s: that entry is replaced or appended and no
  // other file changes. It fails exactly for an entry to append in a new block of a full disk, and
  // then nothing changes.
  method WriteDir(fd: FileDescriptor, e: Entry, ghost s: seq<Entry>, ghost k: nat) returns (status: int)
    requires fd.Valid() && Lists(fd.fs.g, fd.indexNode, fd.fs.data, s) && k <= |s| && e.Fits()
    requires fd.offset == DIRECTORY_ENTRY_SIZE * k && CanPut(fd.fs.g, fd.indexNode, fd.fs.used, k)
    modifies fd.bytes, fd`offset, fd`indexNode, fd.fs, fd.fs.indexBlockBytes, fd.fs.freeListBitBlock
    ensures K.Kept(fd, old(fd.Now()))
    ensures status == DIRECTORY_ENTRY_SIZE || status == -1
    ensures fd.fs.g.Valid() && DataShape(fd.fs.g, fd.fs.data) && NodeShape(fd.fs.g, fd.indexNode)
    ensures status > 0 ==>
              && Lists(fd.fs.g, fd.indexNode, fd.fs.data, Put(s, k, e)) && fd.offset == DIRECTORY_ENTRY_SIZE * (k + 1)
              && |fd.fs.used| == |old(fd.fs.used)| + Taken(fd.fs.g, old(fd.indexNode), old(fd.fs.data), k)
    ensures status > 0 <==> HasRoom(fd.fs.g, old(fd.indexNode), old(fd.fs.data), old(fd.fs.used), k)
    ensures k < |s| ==> status > 0 && fd.indexNode == old(fd.indexNode) && fd.fs.used == old(fd.fs.used)
    ensures status == -1 ==> fd.Now() == old(fd.Now()) && fd.offset == old(fd.offset)
  {
    hide *;
    EntrySize();
    ghost var was := fd.Now();
    BeforePut(fd, s, k);
    PutSize(s, k, e);
    status := StoreEntry(fd, e, s, k);
    if status < 0 {
      return;
    }
    K.KeptParts(fd, was);
    MoveOn(fd, Put(s, k, e), k, was);
    K.KeptParts(fd, was);
    K.FileNow(fd);
    status := DIRECTORY_ENTRY_SIZE;
  }

  // ----- the edits of creat and unlink -----

  // In the middle of an edit: the directory lists s, the next entry is number k, and since it was
  // opened only entries in blocks it had have changed.
  ghost predicate At(fd: FileDescriptor, s: seq<Entry>, k: nat, was: Snapshot)
    reads fd`offset, fd`indexNode, fd.fs, fd.fs.freeListBitBlock, fd.fs.indexBlockBytes
  {
    && Lists(fd.fs.g, fd.indexNode, fd.fs.data, s) && fd.offset == DIRECTORY_ENTRY_SIZE * k && K.Kept(fd, was)
    && fd.indexNode == was.node && fd.fs.used == was.used
  }

  lemma AtParts(fd: FileDescriptor, s: seq<Entry>, k: nat, was: Snapshot)
    requires At(fd, s, k, was)
    ensures fd.Valid() && fd.Readable() && Shows(fd, s) && Lists(fd.fs.g, fd.indexNode, fd.fs.data, s)
    ensures fd.offset == DIRECTORY_ENTRY_SIZE * k && K.Kept(fd, was)
    ensures fd.indexNode == was.node && fd.fs.used == was.used && K.SameFile(was.node, fd.indexNode)
    ensures K.Went(fd.fs.g, was, fd.Now(), fd.indexNodeNumber)
    ensures fd.bytes != fd.fs.freeListBitBlock && fd.bytes != fd.fs.indexBlockBytes
  {
    hide Lists, K.Went, FileDescriptor.File;
  }

  lemma AtStart(fd: FileDescriptor, s: seq<Entry>)
    requires fd.Valid() && Lists(fd.fs.g, fd.indexNode, fd.fs.data, s) && fd.offset == 0
    ensures At(fd, s, 0, fd.Now()) && AllFit(s)
  {
    K.KeptStart(fd);
  }

  lemma AtAgain(fd: FileDescriptor, s: seq<Entry>, k: nat, was: Snapshot)
    requires Lists(fd.fs.g, fd.indexNode, fd.fs.data, s) && fd.offset == DIRECTORY_ENTRY_SIZE * k && K.Kept(fd, was)
    requires fd.indexNode == was.node && fd.fs.used == was.used
    ensures At(fd, s, k, was)
  {
  }

  method Next(fd: FileDescriptor, e0: Entry, ghost s: seq<Entry>, ghost k: nat, ghost was: Snapshot)
    returns (status: int, e: Entry)
    requires At(fd, s, k, was)
    modifies fd.bytes, fd`offset
    ensures k >= |s| ==> status == 0 && e == e0 && At(fd, s, k, was)
    ensures k < |s| ==> status == DIRECTORY_ENTRY_SIZE && e == s[k] && At(fd, s, k + 1, was)
  {
    hide *;
    AtParts(fd, s, k, was);
    status, e := ReadDir(fd, e0, s, k);
    AtAgain(fd, s, if k >= |s| then k else k + 1, was);
  }

  // Kernel::lseek relative to the offset, to entry k2.
  method LSeek(fd: FileDescriptor, offset: int, ghost k2: nat, ghost s: seq<Entry>, ghost k: nat, ghost was: Snapshot)
    returns (status: int)
    requires offset == DIRECTORY_ENTRY_SIZE * k2 - DIRECTORY_ENTRY_SIZE * k && At(fd, s, k, was)
    modifies fd`offset
    ensures At(fd, s, k2, was) && status == fd.offset
  {
    hide *;
    AtParts(fd, s, k, was);
    fd.offset := fd.offset + offset;
    status := fd.offset;
    AtAgain(fd, s, k2, was);
  }

  // An entry the directory has is in a block it has.
  lemma InPlace(fd: FileDescriptor, s: seq<Entry>, k: nat)
    requires fd.Valid() && Lists(fd.fs.g, fd.indexNode, fd.fs.data, s) && k < |s|
    ensures CanPut(fd.fs.g, fd.indexNode, fd.fs.used, k)
  {
    EntryIs(fd.fs.g, fd.indexNode, fd.fs.data, s, k);
    hide K.Fits, Listing, AllFit, Quot, Rem, FileDescriptor.File, Holding;
  }

  lemma PutIsUpdate(s: seq<Entry>, k: nat, e: Entry)
    requires k <= |s|
    ensures Put(s, k, e) == if k < |s| then s[k := e] else s + [e]
  {
  }

  method Overwrite(fd: FileDescriptor, e: Entry, ghost s: seq<Entry>, ghost k: nat, ghost was: Snapshot)
    returns (status: int)
    requires At(fd, s, k, was) && k < |s| && e.Fits()
    modifies fd.bytes, fd`offset, fd`indexNode, fd.fs, fd.fs.indexBlockBytes, fd.fs.freeListBitBlock
    ensures At(fd, s[k := e], k + 1, was) && status == DIRECTORY_ENTRY_SIZE
  {
    hide *;
    ghost var now := fd.Now();
    AtParts(fd, s, k, was);
    K.FileNow(fd);
    InPlace(fd, s, k);
    PutIsUpdate(s, k, e);
    status := WriteDir(fd, e, s, k);
    K.KeptParts(fd, now);
    K.KeptNext(fd, was, now);
    AtAgain(fd, s[k := e], k + 1, was);
  }

  // An edit that appends has ended: the directory lists s, or s without the last entry where there was no room
  // for one more at the start, and no other file has changed.
  ghost predicate Ended(fd: FileDescriptor, s: seq<Entry>, ok: bool, was: Snapshot)
    reads fd`indexNode, fd.fs, fd.fs.freeListBitBlock, fd.fs.indexBlockBytes
  {
    && |s| > 0 && K.Kept(fd, was) && Lists(fd.fs.g, fd.indexNode, fd.fs.data, if ok then s else s[..|s| - 1])
    && (ok <==> HasRoom(fd.fs.g, was.node, was.data, was.used, |s| - 1))
    && |fd.fs.used| == |was.used| + if ok then Taken(fd.fs.g, was.node, was.data, |s| - 1) else 0
  }

  lemma EndedNow(fd: FileDescriptor, s: seq<Entry>, e: Entry, ok: bool, was: Snapshot)
    requires K.Kept(fd, was) && Lists(fd.fs.g, fd.indexNode, fd.fs.data, if ok then s + [e] else s)
    requires ok <==> HasRoom(fd.fs.g, was.node, was.data, was.used, |s|)
    requires |fd.fs.used| == |was.used| + if ok then Taken(fd.fs.g, was.node, was.data, |s|) else 0
    ensures Ended(fd, s + [e], ok, was)
  {
    assert (s + [e])[..|s|] == s;
    hide Lists, K.Kept, HasRoom, Taken;
  }

  // Editing in place, a directory keeps the room it had.
  lemma SameRoom(fd: FileDescriptor, was: Snapshot, k: nat)
    requires K.Went(fd.fs.g, was, fd.Now(), fd.indexNodeNumber) && fd.indexNode == was.node && fd.fs.used == was.used
    ensures HasRoom(fd.fs.g, fd.indexNode, fd.fs.data, fd.fs.used, k) <==>
            HasRoom(fd.fs.g, was.node, was.data, was.used, k)
    ensures Taken(fd.fs.g, fd.indexNode, fd.fs.data, k) == Taken(fd.fs.g, was.node, was.data, k)
  {
    hide OthersSame, BlocksStay, DiskFull, Address;
  }

  method Append(fd: FileDescriptor, e: Entry, ghost s: seq<Entry>, ghost was: Snapshot)
    returns (status: int, ghost ok: bool)
    requires At(fd, s, |s|, was) && e.Fits() && CanPut(fd.fs.g, was.node, was.used, |s|)
    modifies fd.bytes, fd`offset, fd`indexNode, fd.fs, fd.fs.indexBlockBytes, fd.fs.freeListBitBlock
    ensures Ended(fd, s + [e], ok, was) && status == if ok then DIRECTORY_ENTRY_SIZE else -1
  {
    hide *;
    EntrySize();
    ghost var now := fd.Now();
    AtParts(fd, s, |s|, was);
    K.FileNow(fd);
    PutIsUpdate(s, |s|, e);
    SameRoom(fd, was, |s|);
    status := WriteDir(fd, e, s, |s|);
    ok := status > 0;
    K.KeptParts(fd, now);
    K.KeptNext(fd, was, now);
    SameUsed(now, fd);
    EndedNow(fd, s, e, ok, was);
  }

  lemma SameUsed(now: Snapshot, fd: FileDescriptor)
    ensures now == fd.Now() ==> fd.fs.used == now.used && fd.fs.data == now.data && fd.indexNode == now.node
  {
  }

  // creat's scan: put the new entry over the first greater one, or at the end.
  method PutNew(fd: FileDescriptor, e: Entry, ghost s: seq<Entry>, ghost was: Snapshot)
    returns (status: int, current: Entry, ghost p: nat, ghost ok: bool)
    requires At(fd, s, 0, was) && e.Fits() && CanPut(fd.fs.g, was.node, was.used, |s|)
    modifies fd.bytes, fd`offset, fd`indexNode, fd.fs, fd.fs.indexBlockBytes, fd.fs.freeListBitBlock
    ensures p == Place(s, e.name) <= |s| && (status == 0 <==> p == |s|)
    ensures p == |s| ==> Ended(fd, s + [e], ok, was)
    ensures p < |s| ==> status > 0 && current == s[p] && At(fd, s[p := e], p + 1, was)
  {
    hide *;
    EntrySize();
    p, ok := 0, true;
    status, current := 0, e;
    while true
      invariant p <= |s| && At(fd, s, p, was)
      invariant forall i :: 0 <= i < p ==> !Less(e.name, s[i].name)
      decreases |s| - p
    {
      status, current := Next(fd, current, s, p, was);
      if status == 0 {
        PlaceIs(s, e.name, p);
        var written: int;
        written, ok := Append(fd, e, s, was);
        break;
      } else if Less(e.name, current.name) {
        PlaceIs(s, e.name, p);
        var sought := LSeek(fd, -(DIRECTORY_ENTRY_SIZE as int), p, s, p + 1, was);
        var written := Overwrite(fd, e, s, p, was);
        break;
      }
      p := p + 1;
    }
  }

  lemma FitAt(s: seq<Entry>, i: nat)
    requires AllFit(s) && i < |s|
    ensures s[i].Fits()
  {
  }

  // creat's copy of the rest of the entries, one place on.
  method ShiftUp(fd: FileDescriptor, displaced: Entry, ghost e: Entry, ghost s: seq<Entry>, ghost p: nat,
                 ghost was: Snapshot)
    returns (ghost ok: bool)
    requires p < |s| && displaced == s[p] && AllFit(s) && At(fd, s[p := e], p + 1, was)
    requires CanPut(fd.fs.g, was.node, was.used, |s|)
    modifies fd.bytes, fd`offset, fd`indexNode, fd.fs, fd.fs.indexBlockBytes, fd.fs.freeListBitBlock
    ensures Ended(fd, s[..p] + [e] + s[p..], ok, was)
  {
    hide *;
    EntrySize();
    var current, next := displaced, displaced;
    var status := DIRECTORY_ENTRY_SIZE;
    ghost var j := p + 1;
    ok := true;
    ShiftUpStart(s, p, e);
    ShiftUpEnd(s, p, e);
    while status > 0
      invariant p < j <= |s|
      invariant status > 0 ==> current == s[j - 1] && At(fd, ShiftedUp(s, p, e, j), j, was)
      invariant status <= 0 ==> Ended(fd, s[..p] + [e] + s[p..], ok, was)
      decreases status > 0, |s| - j
    {
      FitAt(s, j - 1);
      if j < |s| {
        ShiftUpStep(s, p, e, j);
      }
      status, next := Next(fd, next, ShiftedUp(s, p, e, j), j, was);
      if status > 0 {
        var sought := LSeek(fd, -(DIRECTORY_ENTRY_SIZE as int), j, ShiftedUp(s, p, e, j), j + 1, was);
        var written := Overwrite(fd, current, ShiftedUp(s, p, e, j), j, was);
        j := j + 1;
      } else {
        var written: int;
        written, ok := Append(fd, current, ShiftedUp(s, p, e, j), was);
      }
      current := next;
    }
  }

  lemma InsertedIs(s: seq<Entry>, e: Entry)
    ensures var p := Place(s, e.name);
            p <= |s| && Inserted(s, e) == s[..p] + [e] + s[p..] && (p == |s| ==> Inserted(s, e) == s + [e])
    ensures |Inserted(s, e)| == |s| + 1
  {
  }

  // creat of a new name in an open directory: it lists its old entries with the new one at its place,
  // and no other file has changed. Where the disk is full and the last entry would have needed a new
  // block, that last entry is missing: creat does not look at the result of writedir.
  method Insert(fd: FileDescriptor, e: Entry, ghost s: seq<Entry>) returns (ghost ok: bool)
    requires fd.Valid() && Lists(fd.fs.g, fd.indexNode, fd.fs.data, s) && fd.offset == 0 && e.Fits()
    requires CanPut(fd.fs.g, fd.indexNode, fd.fs.used, |s|)
    modifies fd.bytes, fd`offset, fd`indexNode, fd.fs, fd.fs.indexBlockBytes, fd.fs.freeListBitBlock
    ensures Ended(fd, Inserted(s, e), ok, old(fd.Now()))
  {
    hide *;
    ghost var was := fd.Now();
    AtStart(fd, s);
    AtParts(fd, s, 0, was);
    InsertedIs(s, e);
    var status, displaced, p, written := PutNew(fd, e, s, was);
    ok := written;
    if status > 0 {
      ok := ShiftUp(fd, displaced, e, s, p, was);
    }
  }

  // unlink's scan: stop after the entry of that name.
  method SeekName(fd: FileDescriptor, name: Name, ghost s: seq<Entry>, ghost was: Snapshot)
    returns (status: int, current: Entry, ghost p: nat)
    requires At(fd, s, 0, was)
    modifies fd.bytes, fd`offset
    ensures p == Find(s, name) <= |s| && (status == 0 <==> p == |s|)
    ensures p == |s| ==> At(fd, s, p, was)
    ensures p < |s| ==> status > 0 && current == s[p] && At(fd, s, p + 1, was)
  {
    hide *;
    EntrySize();
    p := 0;
    status, current := 0, Entry(0, name);
    while true
      invariant p <= |s| && At(fd, s, p, was)
      invariant forall i :: 0 <= i < p ==> s[i].name != name
      decreases |s| - p
    {
      status, current := Next(fd, current, s, p, was);
      if status == 0 || current.name == name {
        FindIs(s, name, p);
        break;
      }
      p := p + 1;
    }
  }

  // The end of unlink's shift: the directory is one entry shorter. Its blocks stay.
  method Shrink(fd: FileDescriptor, ghost s: seq<Entry>, ghost k: nat, ghost was: Snapshot)
    requires At(fd, s, k, was) && |s| > 0
    modifies fd`indexNode, fd.fs, fd.fs.indexBlockBytes
    ensures K.Kept(fd, was) && Lists(fd.fs.g, fd.indexNode, fd.fs.data, s[..|s| - 1])
    ensures fd.indexNode == was.node.(size := DIRECTORY_ENTRY_SIZE * (|s| - 1)) && fd.fs.used == was.used
  {
    hide *;
    ghost var now := fd.Now();
    AtParts(fd, s, k, was);
    K.FileNow(fd);
    Shorter(fd.fs.g, fd.indexNode, fd.fs.data, s);
    fd.SetSize(fd.indexNode.size - DIRECTORY_ENTRY_SIZE);
    K.ResizedIsKept(fd, now);
    K.KeptParts(fd, now);
    K.KeptNext(fd, was, now);
  }

  lemma Shorter(g: Geometry, node: IndexNode, data: seq<Block>, s: seq<Entry>)
    requires Lists(g, node, data, s) && |s| > 0
    ensures node.size - DIRECTORY_ENTRY_SIZE == DIRECTORY_ENTRY_SIZE * (|s| - 1)
    ensures 0 <= node.size - DIRECTORY_ENTRY_SIZE < 0x8000_0000
    ensures Lists(g, node.(size := node.size - DIRECTORY_ENTRY_SIZE), data, s[..|s| - 1])
  {
  }

  // unlink's copy of the rest of the entries, one place back.
  method ShiftDown(fd: FileDescriptor, found: Entry, ghost s: seq<Entry>, ghost p: nat, ghost was: Snapshot)
    requires p < |s| && AllFit(s) && At(fd, s, p + 1, was)
    modifies fd.bytes, fd`offset, fd`indexNode, fd.fs, fd.fs.indexBlockBytes, fd.fs.freeListBitBlock
    ensures K.Kept(fd, was) && Lists(fd.fs.g, fd.indexNode, fd.fs.data, s[..p] + s[p + 1..])
    ensures fd.indexNode == was.node.(size := DIRECTORY_ENTRY_SIZE * (|s| - 1)) && fd.fs.used == was.used
  {
    hide *;
    EntrySize();
    var current, status := found, 0;
    ghost var j := p + 1;
    ShiftDownStart(s, p);
    ShiftDownEnd(s, p);
    while true
      invariant p < j <= |s| && At(fd, ShiftedDown(s, p, j), j, was)
      decreases |s| - j
    {
      if j < |s| {
        ShiftDownStep(s, p, j);
        FitAt(s, j);
      }
      status, current := Next(fd, current, ShiftedDown(s, p, j), j, was);
      if status == 0 {
        Shrink(fd, ShiftedDown(s, p, j), j, was);
        break;
      }
      var sought := LSeek(fd, -2 * (DIRECTORY_ENTRY_SIZE as int), j - 1, ShiftedDown(s, p, j), j + 1, was);
      var written := Overwrite(fd, current, ShiftedDown(s, p, j), j - 1, was);
      sought := LSeek(fd, DIRECTORY_ENTRY_SIZE, j + 1, ShiftedDown(s, p, j + 1), j, was);
      j := j + 1;
    }
  }

  lemma FoundIsNamed(s: seq<Entry>, name: Name)
    ensures Named(s, name) <==> Find(s, name) < |s|
    ensures Named(s, name) ==> DirectoryEntries.Removed(s, name) == s[..Find(s, name)] + s[Find(s, name) + 1..]
    ensures Named(s, name) ==> |DirectoryEntries.Removed(s, name)| == |s| - 1
  {
  }

  // ----- what a removal leaves behind -----

  lemma SpanOfEntries(g: Geometry, count: nat)
    requires g.Valid() && count > 0
    ensures var q, r := Quot(DIRECTORY_ENTRY_SIZE * (count - 1), g.blockSize),
                        Rem(DIRECTORY_ENTRY_SIZE * (count - 1), g.blockSize);
            && T.Span(g, DIRECTORY_ENTRY_SIZE * count) == q + 1
            && T.Span(g, DIRECTORY_ENTRY_SIZE * (count - 1)) == if r == 0 then q else q + 1
  {
    var n, at := g.blockSize, DIRECTORY_ENTRY_SIZE * (count - 1);
    var q, r := Quot(at, n), Rem(at, n);
    WholeEntries(g);
    CellFits(n, count - 1);
    DivMod(at, n);
    hide Quot, Rem, Geometry.Valid;
    assert (q + 1) * n == q * n + n;
    QuotRemOf(at + DIRECTORY_ENTRY_SIZE + n - 1, n, q + 1, r + DIRECTORY_ENTRY_SIZE - 1);
    if r == 0 {
      QuotRemOf(at + n - 1, n, q, n - 1);
    } else {
      QuotRemOf(at + n - 1, n, q + 1, r - 1);
    }
  }

  // A directory one entry shorter has a block beyond its size exactly when that entry was the first
  // of its block; fsck, which goes by the size, does not see such a block.
  lemma ShrunkCover(g: Geometry, node: IndexNode, data: seq<Block>, count: nat)
    requires NoHoles(g, node, data, count) && count > 0 && node.size == DIRECTORY_ENTRY_SIZE * count
    requires T.Covered(g, node, data)
    ensures T.Covered(g, node.(size := DIRECTORY_ENTRY_SIZE * (count - 1)), data)
            <==> Rem(DIRECTORY_ENTRY_SIZE * (count - 1), g.blockSize) != 0
  {
    var node' := node.(size := DIRECTORY_ENTRY_SIZE * (count - 1));
    SpanOfEntries(g, count);
    assert forall b: nat :: b < Slots(g) ==> Address(g, node', data, b) == Address(g, node, data, b);
    assert InUse(g, node, data, BlockOf(g, count - 1));
    hide Quot, Rem, Address, T.Span, Slots;
  }
}
