/** Kernel::read and Kernel::write: byte loops over the block buffer of an open file. */
module FsKernel {
  import opened Collections
  import opened FsCodec
  import opened FsGeometry
  import opened FsFile
  import opened FsDescriptor

  // Byte `at` of a file given as blocks of n bytes.
  function ByteAt(c: seq<Block>, n: nat, at: nat): Byte
  {
    if n >= 1 && Quot(at, n) < |c| && |c[Quot(at, n)]| == n then c[Quot(at, n)][Rem(at, n)] else 0
  }

  ghost predicate Cells(c: seq<Block>, n: nat) {
    n >= 1 && forall b :: 0 <= b < |c| ==> |c[b]| == n
  }

  function PutByte(c: seq<Block>, n: nat, at: nat, v: Byte): (c': seq<Block>)
    requires Cells(c, n) && Quot(at, n) < |c|
    ensures Cells(c', n) && |c'| == |c|
  {
    var q := Quot(at, n);
    var block: Block := c[q][Rem(at, n) := v];
    c[q := block]
  }

  // The file with the bytes of buf at offset and after.
  function Splice(c: seq<Block>, n: nat, offset: nat, buf: seq<Byte>): (c': seq<Block>)
    requires Cells(c, n) && offset + |buf| <= |c| * n
    ensures Cells(c', n) && |c'| == |c|
  {
    if buf == [] then c
    else
      var k := |buf| - 1;
      QuotientBound(offset + k, n, |c|);
      PutByte(Splice(c, n, offset, buf[..k]), n, offset + k, buf[k])
  }

  lemma PutByteAt(c: seq<Block>, n: nat, at: nat, v: Byte, p: nat)
    requires Cells(c, n) && Quot(at, n) < |c| && Quot(p, n) < |c|
    ensures ByteAt(PutByte(c, n, at, v), n, p) == if p == at then v else ByteAt(c, n, p)
  {
  }

  // What a splice holds: the new bytes where they were put, the old ones elsewhere.
  lemma {:induction false} SpliceAt(c: seq<Block>, n: nat, offset: nat, buf: seq<Byte>, p: nat)
    requires Cells(c, n) && offset + |buf| <= |c| * n && p < |c| * n
    ensures Quot(p, n) < |c|
    ensures ByteAt(Splice(c, n, offset, buf), n, p) ==
            if offset <= p < offset + |buf| then buf[p - offset] else ByteAt(c, n, p)
    decreases |buf|
  {
    QuotientBound(p, n, |c|);
    if buf != [] {
      var k := |buf| - 1;
      QuotientBound(offset + k, n, |c|);
      SpliceAt(c, n, offset, buf[..k], p);
      PutByteAt(Splice(c, n, offset, buf[..k]), n, offset + k, buf[k], p);
    }
  }

  // Stepping to the next byte: the same block, or the start of the next one.
  lemma NextByte(at: nat, n: nat)
    requires n >= 1
    ensures Rem(at + 1, n) == 0 ==> Quot(at + 1, n) == Quot(at, n) + 1 && Rem(at, n) == n - 1
    ensures Rem(at + 1, n) != 0 ==> Quot(at + 1, n) == Quot(at, n) && Rem(at + 1, n) == Rem(at, n) + 1
  {
    DivMod(at, n);
    if Rem(at, n) + 1 < n {
      QuotRemOf(at + 1, n, Quot(at, n), Rem(at, n) + 1);
    } else {
      assert at + 1 == (Quot(at, n) + 1) * n + 0;
      QuotRemOf(at + 1, n, Quot(at, n) + 1, 0);
    }
  }

  lemma OthersKeptTrans(g: Geometry, inodes0: seq<IndexNode>, data0: seq<Block>, inodes1: seq<IndexNode>,
                        data1: seq<Block>, inodes2: seq<IndexNode>, data2: seq<Block>, n: nat)
    requires DataShape(g, data0) && DataShape(g, data1) && DataShape(g, data2)
    requires FilesOK(g, inodes0, data0) && FilesOK(g, inodes1, data1) && FilesOK(g, inodes2, data2)
    requires OthersKept(g, inodes0, data0, inodes1, data1, n) && OthersKept(g, inodes1, data1, inodes2, data2, n)
    ensures OthersKept(g, inodes0, data0, inodes2, data2, n)
  {
  }

  // ----- read -----

  // The bytes a read returns: from the offset to the end of the request or of the file.
  function Bytes(c: seq<Block>, n: nat, start: nat, end: nat): (r: seq<Byte>)
    requires start <= end
    ensures |r| == end - start
    ensures forall i :: 0 <= i < |r| ==> r[i] == ByteAt(c, n, start + i)
  {
    if start == end then [] else Bytes(c, n, start, end - 1) + [ByteAt(c, n, end - 1)]
  }

  lemma OneMoreByte(c: seq<Block>, n: nat, start: nat, end: nat)
    requires start <= end
    ensures Bytes(c, n, start, start) == []
    ensures Bytes(c, n, start, end + 1) == Bytes(c, n, start, end) + [ByteAt(c, n, end)]
  {
  }

  lemma FileCells(fd: FileDescriptor)
    requires fd.Valid()
    ensures Cells(fd.File(), fd.fs.g.blockSize) && |fd.File()| == Slots(fd.fs.g)
    ensures fd.bytes.Length == fd.fs.g.blockSize && fd.indexNode.size >= 0
  {
  }

  // No further than the last slot of a file.
  predicate Fits(g: Geometry, end: int) {
    end <= Slots(g) * g.blockSize
  }

  lemma InSlots(g: Geometry, at: nat, end: int)
    requires g.Valid() && Fits(g, end) && at < end
    ensures Quot(at, g.blockSize) < Slots(g)
  {
  }

  // One byte of the file, loading its block when told to.
  method FetchByte(fd: FileDescriptor, offset: nat, load: bool) returns (b: Byte)
    requires fd.Valid() && Quot(offset, fd.fs.g.blockSize) < Slots(fd.fs.g)
    requires !load ==> fd.bytes[..] == fd.File()[Quot(offset, fd.fs.g.blockSize)]
    modifies fd.bytes
    ensures fd.Valid() && fd.File() == old(fd.File())
    ensures fd.bytes[..] == fd.File()[Quot(offset, fd.fs.g.blockSize)]
    ensures Cells(fd.File(), fd.fs.g.blockSize) && b == ByteAt(fd.File(), fd.fs.g.blockSize, offset)
  {
    FileCells(fd);
    if load {
      var status := fd.ReadBlock(Quot(offset, fd.fs.g.blockSize));
    }
    b := fd.bytes[Rem(offset, fd.fs.g.blockSize)];
  }

  function ReadEnd(start: nat, count: nat, size: nat): nat {
    if start >= size then start else if start + count < size then start + count else size
  }

  // A read under way: the bytes up to the offset are in buf, and the buffer of fd holds the block at
  // the offset unless it has to be loaded.
  ghost predicate Reading(fd: FileDescriptor, c: seq<Block>, start: nat, offset: nat, end: nat, load: bool,
                          buf: seq<Byte>)
    reads fd`indexNode, fd.bytes, fd.fs, fd.fs.freeListBitBlock, fd.fs.indexBlockBytes
  {
    && fd.Valid() && fd.File() == c && Fits(fd.fs.g, end) && start <= offset <= end
    && buf == Bytes(c, fd.fs.g.blockSize, start, offset)
    && (!load ==> Quot(offset, fd.fs.g.blockSize) < |c| && fd.bytes[..] == c[Quot(offset, fd.fs.g.blockSize)])
  }

  lemma ReadingStart(fd: FileDescriptor, start: nat, end: nat)
    requires fd.Valid() && Fits(fd.fs.g, end) && start <= end
    ensures Reading(fd, fd.File(), start, start, end, true, [])
  {
    OneMoreByte(fd.File(), fd.fs.g.blockSize, start, start);
  }

  // One pass of the loop of Kernel::read.
  method CopyByte(fd: FileDescriptor, ghost c: seq<Block>, ghost start: nat, offset: nat, ghost end: nat, load: bool,
                  buf: seq<Byte>)
    returns (load': bool, buf': seq<Byte>)
    requires Reading(fd, c, start, offset, end, load, buf) && offset < end
    modifies fd.bytes
    ensures Reading(fd, c, start, offset + 1, end, load', buf')
  {
    FileCells(fd);
    InSlots(fd.fs.g, offset, end);
    OneMoreByte(c, fd.fs.g.blockSize, start, offset);
    NextByte(offset, fd.fs.g.blockSize);
    hide FileDescriptor.Valid, FileDescriptor.File, Quot, Rem, Bytes, ByteAt, Cells, Fits, Slots;
    var b := FetchByte(fd, offset, load);
    buf' := buf + [b];
    load' := Rem(offset + 1, fd.fs.g.blockSize) == 0;
  }

  lemma ReadEndIs(start: nat, count: nat, size: nat, offset: nat)
    requires start < size && start <= offset
    ensures offset < start + count && offset < size <==> offset < ReadEnd(start, count, size)
    ensures start <= ReadEnd(start, count, size)
  {
  }

  // The loop of Kernel::read, where the offset is a local variable; `end` is where it stops.
  method CopyOut(fd: FileDescriptor, start: nat, size: nat, count: nat, ghost c: seq<Block>, ghost end: nat)
    returns (buf: seq<Byte>, load: bool)
    requires Reading(fd, c, start, start, end, true, []) && start < size && end == ReadEnd(start, count, size)
    modifies fd.bytes
    ensures Reading(fd, c, start, end, end, load, buf)
  {
    hide *;
    ReadEndIs(start, count, size, start);
    buf, load := [], true;
    var offset := start;
    while offset < start + count && offset < size
      invariant start <= offset <= end && Reading(fd, c, start, offset, end, load, buf)
      invariant offset < start + count && offset < size <==> offset < end
      decreases end - offset
    {
      load, buf := CopyByte(fd, c, start, offset, end, load, buf);
      offset := offset + 1;
      ReadEndIs(start, count, size, offset);
    }
  }

  method Read(fd: FileDescriptor, count: nat) returns (buf: seq<Byte>, readCount: int)
    requires fd.Valid() && Fits(fd.fs.g, fd.indexNode.size)
    modifies fd`offset, fd.bytes
    ensures fd.Valid() && fd.File() == old(fd.File())
    ensures var end := ReadEnd(old(fd.offset), count, fd.indexNode.size);
            && fd.offset == end && readCount == |buf|
            && buf == Bytes(fd.File(), fd.fs.g.blockSize, old(fd.offset), end)
  {
    var start := fd.offset;
    buf := [];
    if start < fd.indexNode.size {
      ghost var end := ReadEnd(start, count, fd.indexNode.size);
      ReadingStart(fd, start, end);
      var load: bool;
      buf, load := CopyOut(fd, start, fd.indexNode.size, count, fd.File(), end);
    }
    fd.offset := start + |buf|;
    readCount := |buf|;
  }

  // ----- write -----

  // The file on disk lags behind the spliced one by at most the block in the buffer.
  ghost predicate Lags(file: seq<Block>, target: seq<Block>, buffer: Block, q: nat) {
    q < |file| && q < |target| && target == file[q := buffer] && buffer == target[q]
  }

  // Put one byte of the write into the buffer, loading its block when told to.
  method PutIntoBuffer(fd: FileDescriptor, offset: nat, v: Byte, load: bool, ghost target: seq<Block>)
    returns (ghost target': seq<Block>)
    requires fd.Valid() && Quot(offset, fd.fs.g.blockSize) < Slots(fd.fs.g) && |target| == Slots(fd.fs.g)
    requires Cells(target, fd.fs.g.blockSize)
    requires load ==> fd.File() == target
    requires !load ==> Lags(fd.File(), target, fd.bytes[..], Quot(offset, fd.fs.g.blockSize))
    modifies fd.bytes
    ensures fd.Valid() && fd.File() == old(fd.File())
    ensures target' == PutByte(target, fd.fs.g.blockSize, offset, v)
    ensures Lags(fd.File(), target', fd.bytes[..], Quot(offset, fd.fs.g.blockSize))
  {
    hide *;
    FileCells(fd);
    DescriptorParts(fd);
    FileNow(fd);
    var n, q := fd.fs.g.blockSize, Quot(offset, fd.fs.g.blockSize);
    NotTooBig(fd, q);
    CellSize(target, n, q);
    if load {
      var status := fd.ReadBlock(q);
    }
    ghost var before := fd.bytes[..];
    BytePut(fd.File(), target, before, n, offset, v);
    fd.bytes[Rem(offset, n)] := v;
    assert fd.bytes[..] == before[Rem(offset, n) := v];
    target' := PutByte(target, n, offset, v);
  }

  lemma CellSize(c: seq<Block>, n: nat, q: nat)
    requires Cells(c, n) && q < |c|
    ensures n >= 1 && |c[q]| == n
  {
  }

  lemma BytePut(file: seq<Block>, target: seq<Block>, buffer: Block, n: nat, offset: nat, v: Byte)
    requires Cells(target, n) && Quot(offset, n) < |file| == |target| && |buffer| == n
    requires (file == target && buffer == target[Quot(offset, n)]) || Lags(file, target, buffer, Quot(offset, n))
    ensures Rem(offset, n) < |buffer|
    ensures Lags(file, PutByte(target, n, offset, v), buffer[Rem(offset, n) := v], Quot(offset, n))
  {
  }

  lemma FitsIsInt(g: Geometry, end: int)
    requires g.Valid() && Fits(g, end)
    ensures end < 0x8000_0000
  {
    TimesAtLeast(0x2000, Slots(g), g.blockSize);
  }

  lemma QuotMonotone(x: nat, y: nat, n: nat)
    requires n >= 1 && x <= y
    ensures Quot(x, n) <= Quot(y, n)
  {
    DivMod(x, n);
    DivMod(y, n);
    hide Quot, Rem;
    if Quot(x, n) > Quot(y, n) {
      TimesAtLeast(Quot(x, n), Quot(y, n) + 1, n);
    }
  }

  // Direct pointers from q on that are empty.
  function Holes(node: IndexNode, q: nat): nat
    requires node.Shaped()
    decreases MAX_DIRECT_BLOCKS - q
  {
    if q >= MAX_DIRECT_BLOCKS then 0 else (if node.direct[q] == NOT_A_BLOCK then 1 else 0) + Holes(node, q + 1)
  }

  // Not exactly one block will be left when file blocks `next` to `last` come to need an indirect
  // block: it would go to the data, and the code does not see that the indirect block then has none.
  predicate Roomy(g: Geometry, node: IndexNode, used: set<nat>, next: nat, last: int)
    requires node.Shaped()
  {
    node.indirect != NOT_A_BLOCK || last < MAX_DIRECT_BLOCKS || g.DataCount() - |used| != Holes(node, next) + 1
  }

  lemma NotOneIsEnough(g: Geometry, used: set<nat>)
    requires g.Valid() && (forall d :: d in used ==> d < g.DataCount()) && g.DataCount() - |used| != 1
    ensures NotOneFree(g, used)
  {
    UpToSize(g.DataCount());
    var all := UpTo(g.DataCount());
    assert used <= all;
    SubsetSize(used, all);
    if |used| + 2 <= g.DataCount() {
      TwoFree(g, used);
    } else {
      EqualBySize(used, all);
    }
  }

  lemma EqualBySize(a: set<nat>, b: set<nat>)
    requires a <= b && |a| >= |b|
    ensures a == b
  {
    assert b == a + (b - a);
    assert |b - a| == 0;
  }

  lemma RoomyIsRoom(fd: FileDescriptor, q: nat, last: int)
    requires fd.Valid() && q <= last && Roomy(fd.fs.g, fd.indexNode, fd.fs.used, q, last)
    ensures fd.Room(q)
  {
    if fd.indexNode.indirect == NOT_A_BLOCK && q >= MAX_DIRECT_BLOCKS {
      NotOneIsEnough(fd.fs.g, fd.fs.used);
    }
  }

  lemma {:induction false} HolesBeyond(node: IndexNode, node': IndexNode, q: nat)
    requires node.Shaped() && node'.Shaped()
    requires forall i :: q <= i < MAX_DIRECT_BLOCKS ==> node'.direct[i] == node.direct[i]
    ensures Holes(node', q) == Holes(node, q)
    decreases MAX_DIRECT_BLOCKS - q
  {
    if q < MAX_DIRECT_BLOCKS {
      HolesBeyond(node, node', q + 1);
    }
  }

  // Filling a direct hole takes a block and a hole.
  lemma RoomyAfterHole(g: Geometry, node: IndexNode, used: set<nat>, node': IndexNode, used': set<nat>, q: nat,
                       last: int)
    requires node.Shaped() && Roomy(g, node, used, q, last) && q < MAX_DIRECT_BLOCKS && node.direct[q] == NOT_A_BLOCK
    requires DirectFilled(node, node', q) && |used'| == |used| + 1
    ensures node'.Shaped() && Roomy(g, node', used', q + 1, last)
  {
    HolesBeyond(node, node', q + 1);
  }

  lemma RoomyAfterStore(g: Geometry, node: IndexNode, used: set<nat>, node': IndexNode, used': set<nat>, q: nat,
                        last: int)
    requires node.Shaped() && node'.Shaped() && Roomy(g, node, used, q, last)
    requires node'.indirect != NOT_A_BLOCK ||
             (q < MAX_DIRECT_BLOCKS && node.direct[q] != NOT_A_BLOCK && node' == node && used' == used)
    ensures Roomy(g, node', used', q + 1, last)
  {
  }

  // ----- what a write needs, and what there is -----

  function Free(g: Geometry, used: set<nat>): int {
    g.DataCount() - |used|
  }

  // File blocks `q` to `last` that the file does not have.
  ghost function HolesIn(g: Geometry, node: IndexNode, data: seq<Block>, q: nat, last: int): nat
    decreases if q > last then 0 else last + 1 - q
  {
    if q > last || !(DataShape(g, data) && NodeShape(g, node) && last < Slots(g)) then 0
    else (if Address(g, node, data, q) == NOT_A_BLOCK then 1 else 0) + HolesIn(g, node, data, q + 1, last)
  }

  // The blocks that writing file blocks `q` to `last` takes: one for every hole, and one for the pointers if
  // they come to need an indirect block.
  ghost function Need(g: Geometry, node: IndexNode, data: seq<Block>, q: nat, last: int): nat {
    HolesIn(g, node, data, q, last) + if q <= last && NeedsIndirect(node, last) then 1 else 0
  }

  // How many more free blocks there are than that.
  ghost function Slack(g: Geometry, s: Snapshot, q: nat, last: int): int {
    Free(g, s.used) - Need(g, s.node, s.data, q, last)
  }

  // Before file blocks `next` to `last` are written.
  ghost predicate Ahead(g: Geometry, s: Snapshot, next: nat, last: int, slack: int) {
    s.node.Shaped() && Roomy(g, s.node, s.used, next, last) && Slack(g, s, next, last) == slack
  }

  lemma {:induction false} HolesSame(g: Geometry, node: IndexNode, data: seq<Block>, node': IndexNode,
                                     data': seq<Block>, q: nat, last: int)
    requires DataShape(g, data) && NodeShape(g, node) && DataShape(g, data') && NodeShape(g, node')
    requires forall c: nat :: q <= c < Slots(g) ==> Address(g, node', data', c) == Address(g, node, data, c)
    ensures HolesIn(g, node', data', q, last) == HolesIn(g, node, data, q, last)
    decreases if q > last then 0 else last + 1 - q
  {
    hide Address;
    if q <= last < Slots(g) {
      HolesSame(g, node, data, node', data', q + 1, last);
    }
  }

  // A block write takes what it needs: the rest can be written as before exactly if it could be.
  lemma SlackAfter(g: Geometry, was: Snapshot, now: Snapshot, n: nat, q: nat, last: int, block: Block)
    requires BlockWritten(g, was, now, n, q, block, 0) && q <= last < Slots(g)
    ensures Slack(g, now, q + 1, last) == Slack(g, was, q, last)
  {
    hide OthersSame, Contents;
    HolesSame(g, was.node, was.data, now.node, now.data, q + 1, last);
    hide HolesIn, Address, DataShape;
    assert HolesIn(g, was.node, was.data, q, last)
        == (if Address(g, was.node, was.data, q) == NOT_A_BLOCK then 1 else 0)
           + HolesIn(g, was.node, was.data, q + 1, last) by {
      HolesFrom(g, was.node, was.data, q, last);
    }
  }

  lemma HolesFrom(g: Geometry, node: IndexNode, data: seq<Block>, q: nat, last: int)
    requires DataShape(g, data) && NodeShape(g, node) && q <= last < Slots(g)
    ensures HolesIn(g, node, data, q, last)
            == (if Address(g, node, data, q) == NOT_A_BLOCK then 1 else 0) + HolesIn(g, node, data, q + 1, last)
  {
  }

  // A full disk has none free.
  lemma FullIsNoneFree(g: Geometry, used: set<nat>)
    requires g.Valid() && forall d :: d in used ==> d < g.DataCount()
    ensures Free(g, used) >= 0 && (DiskFull(g, used) <==> Free(g, used) == 0)
  {
    UpToSize(g.DataCount());
    var all := UpTo(g.DataCount());
    assert used <= all;
    SubsetSize(used, all);
    if DiskFull(g, used) {
      assert used == all;
    } else if |used| == |all| {
      EqualBySize(used, all);
    }
  }

  lemma SlackIs(g: Geometry, s: Snapshot, q: nat, last: int)
    ensures Slack(g, s, q, last) == Free(g, s.used) - Need(g, s.node, s.data, q, last)
    ensures q > last ==> Slack(g, s, q, last) == Free(g, s.used)
  {
  }

  // Everything but the size and the pointers of the node.
  predicate SameFile(node: IndexNode, node': IndexNode) {
    node' == node.(size := node'.size, direct := node'.direct, indirect := node'.indirect)
  }

  // A file that has taken no block has its blocks where they were; on a full disk it takes none.
  ghost predicate Frozen(g: Geometry, was: Snapshot, now: Snapshot) {
    && DataShape(g, was.data) && DataShape(g, now.data) && NodeShape(g, was.node) && NodeShape(g, now.node)
    && |was.used| <= |now.used|
    && (|now.used| == |was.used| ==>
          && now.used == was.used
          && forall b: nat :: b < Slots(g) ==> Address(g, now.node, now.data, b) == Address(g, was.node, was.data, b))
    && (DiskFull(g, was.used) ==> now.used == was.used)
  }

  // From one moment to the other file n has kept its blocks, and no other file has changed.
  ghost predicate Went(g: Geometry, was: Snapshot, now: Snapshot, n: nat) {
    && SameFile(was.node, now.node) && OthersSame(g, was.files, was.data, now.files, now.data, n)
    && BlocksStay(g, was.node, was.data, now.node, now.data) && Frozen(g, was, now)
  }

  // So it went since `was`.
  ghost predicate Kept(fd: FileDescriptor, was: Snapshot)
    reads fd`indexNode, fd.fs, fd.fs.freeListBitBlock, fd.fs.indexBlockBytes
  {
    fd.Valid() && Went(fd.fs.g, was, fd.Now(), fd.indexNodeNumber)
  }

  lemma ValidFile(fd: FileDescriptor)
    requires fd.Valid()
    ensures DataShape(fd.fs.g, fd.fs.data) && FilesOK(fd.fs.g, fd.Files(), fd.fs.data)
    ensures FileOK(fd.fs.g, fd.indexNode, fd.fs.data) && NodeShape(fd.fs.g, fd.indexNode) && fd.indexNode.Shaped()
    ensures forall d :: d in fd.fs.used ==> d < fd.fs.g.DataCount()
  {
    OwnersWritten(fd.fs.inodes, fd.held, fd.indexNodeNumber, fd.indexNode);
    assert FileOK(fd.fs.g, fd.Files()[fd.indexNodeNumber], fd.fs.data);
  }

  lemma KeptStart(fd: FileDescriptor)
    requires fd.Valid()
    ensures Kept(fd, fd.Now())
  {
    ValidFile(fd);
    OthersKeptSelf(fd.fs.g, fd.Files(), fd.fs.data, fd.indexNodeNumber);
  }

  lemma KeptParts(fd: FileDescriptor, was: Snapshot)
    requires Kept(fd, was)
    ensures fd.Valid() && fd.Readable() && SameFile(was.node, fd.indexNode) && fd.indexNode.Shaped()
    ensures Went(fd.fs.g, was, fd.Now(), fd.indexNodeNumber)
    ensures OthersSame(fd.fs.g, was.files, was.data, fd.Files(), fd.fs.data, fd.indexNodeNumber)
    ensures BlocksStay(fd.fs.g, was.node, was.data, fd.indexNode, fd.fs.data)
  {
    hide BlocksStay, OthersSame, Frozen;
  }

  lemma WentNext(g: Geometry, was: Snapshot, between: Snapshot, now: Snapshot, n: nat)
    requires Went(g, was, between, n) && Went(g, between, now, n)
    ensures Went(g, was, now, n)
  {
  }

  lemma KeptNext(fd: FileDescriptor, was: Snapshot, between: Snapshot)
    requires Kept(fd, between) && Went(fd.fs.g, was, between, fd.indexNodeNumber)
    ensures Kept(fd, was)
  {
    hide Went;
    WentNext(fd.fs.g, was, between, fd.Now(), fd.indexNodeNumber);
  }

  lemma WrittenIsKept(fd: FileDescriptor, was: Snapshot, q: nat, block: Block, status: int)
    requires fd.Valid() && BlockWritten(fd.fs.g, was, fd.Now(), fd.indexNodeNumber, q, block, status)
    ensures Kept(fd, was) && fd.indexNode.Shaped() && fd.indexNode.size == was.node.size
    ensures status == 0 || status == -1
  {
    hide DiskFull, Contents, OthersSame, DirectFilled, FileDescriptor.Valid, Address;
    CostIs(was.node, q);
    if status == 0 {
      FillsStay(fd.fs.g, was.node, was.data, fd.indexNode, fd.fs.data, q);
    }
  }

  // A block that a file does not have.
  ghost predicate HoleAt(g: Geometry, node: IndexNode, data: seq<Block>, q: nat) {
    DataShape(g, data) && NodeShape(g, node) && q < Slots(g) && Address(g, node, data, q) == NOT_A_BLOCK
  }

  // What a block write means for an open file.
  lemma BlockStored(fd: FileDescriptor, was: Snapshot, q: nat, last: int, block: Block, status: int, slack: int)
    requires fd.Valid() && BlockWritten(fd.fs.g, was, fd.Now(), fd.indexNodeNumber, q, block, status)
    requires Ahead(fd.fs.g, was, q, last, slack) && q <= last < Slots(fd.fs.g)
    ensures Kept(fd, was) && fd.indexNode.Shaped() && fd.indexNode.size == was.node.size
    ensures DataShape(fd.fs.g, was.data) && NodeShape(fd.fs.g, was.node)
    ensures status == 0 || status == -1
    ensures var c := Contents(fd.fs.g, was.node, was.data);
            && q < |c| && fd.File() == (if status == 0 then c[q := block] else c)
    ensures status == 0 ==> Ahead(fd.fs.g, fd.Now(), q + 1, last, slack)
    ensures status == -1 ==>
              && fd.indexNode == was.node && DiskFull(fd.fs.g, fd.fs.used)
              && HoleAt(fd.fs.g, fd.indexNode, fd.fs.data, q) && slack < 0
  {
    WrittenIsKept(fd, was, q, block, status);
    ValidFile(fd);
    hide FileDescriptor.Valid, FileDescriptor.File, Kept, FilesOK, FileOK;
    if status == 0 {
      SlackAfter(fd.fs.g, was, fd.Now(), fd.indexNodeNumber, q, last, block);
      RoomyAfter(fd.fs.g, was, fd.Now(), fd.indexNodeNumber, q, last, block);
    } else {
      FullIsNoneFree(fd.fs.g, fd.fs.used);
      HolesFrom(fd.fs.g, was.node, was.data, q, last);
    }
    hide DiskFull, Roomy, Contents, OthersSame, DirectFilled, Fills, BlocksStay, HolesIn, Address, Holes;
  }

  lemma RoomyAfter(g: Geometry, was: Snapshot, now: Snapshot, n: nat, q: nat, last: int, block: Block)
    requires BlockWritten(g, was, now, n, q, block, 0) && was.node.Shaped() && Roomy(g, was.node, was.used, q, last)
    ensures now.node.Shaped() && Roomy(g, now.node, now.used, q + 1, last)
  {
    hide DiskFull, Roomy, Contents, OthersSame, DirectFilled, Fills;
    if q < MAX_DIRECT_BLOCKS && was.node.direct[q] == NOT_A_BLOCK {
      RoomyAfterHole(g, was.node, was.used, now.node, now.used, q, last);
    } else {
      RoomyAfterStore(g, was.node, was.used, now.node, now.used, q, last);
    }
  }

  lemma AheadIsRoom(fd: FileDescriptor, q: nat, last: int, slack: int)
    requires fd.Valid() && q <= last && Ahead(fd.fs.g, fd.Now(), q, last, slack)
    ensures fd.Room(q)
  {
    RoomyIsRoom(fd, q, last);
  }

  lemma FileNow(fd: FileDescriptor)
    requires fd.Valid()
    ensures fd.Readable() && DataShape(fd.fs.g, fd.fs.data) && NodeShape(fd.fs.g, fd.indexNode)
    ensures fd.indexNode.Shaped()
    ensures fd.Now() == Snapshot(fd.Files(), fd.fs.used, fd.fs.data, fd.indexNode)
    ensures fd.File() == Contents(fd.fs.g, fd.indexNode, fd.fs.data)
  {
  }

  lemma NotTooBig(fd: FileDescriptor, q: nat)
    requires q < Slots(fd.fs.g)
    ensures !fd.TooBig(q)
  {
  }

  // WriteBlock, within the room there is.
  method StoreBlock(fd: FileDescriptor, q: nat, ghost last: int, ghost slack: int) returns (status: int)
    requires fd.Valid() && q <= last < Slots(fd.fs.g) && Ahead(fd.fs.g, fd.Now(), q, last, slack)
    modifies fd`indexNode, fd.fs, fd.fs.indexBlockBytes, fd.fs.freeListBitBlock
    ensures status == 0 || status == -1
    ensures Kept(fd, old(fd.Now())) && fd.indexNode.Shaped()
    ensures fd.indexNode.size == old(fd.indexNode.size)
    ensures fd.File() == if status == 0 then old(fd.File())[q := fd.bytes[..]] else old(fd.File())
    ensures status == 0 ==> Ahead(fd.fs.g, fd.Now(), q + 1, last, slack)
    ensures status == -1 ==>
              && fd.indexNode == old(fd.indexNode) && DiskFull(fd.fs.g, fd.fs.used)
              && HoleAt(fd.fs.g, fd.indexNode, fd.fs.data, q) && slack < 0
  {
    hide *;
    ghost var was := fd.Now();
    FileNow(fd);
    AheadIsRoom(fd, q, last, slack);
    NotTooBig(fd, q);
    status := fd.WriteBlock(q);
    BlockStored(fd, was, q, last, fd.bytes[..], status, slack);
  }

  lemma SpliceNext(c: seq<Block>, n: nat, offset: nat, buf: seq<Byte>, i: nat)
    requires Cells(c, n) && i < |buf| && offset + |buf| <= |c| * n
    ensures Quot(offset + i, n) < |c|
    ensures Splice(c, n, offset, buf[..i + 1]) == PutByte(Splice(c, n, offset, buf[..i]), n, offset + i, buf[i])
  {
    QuotientBound(offset + i, n, |c|);
    assert buf[..i + 1][..i] == buf[..i];
  }

  // How far a write has come: i bytes are in the target, f of them in the file.
  ghost predicate Written(c: seq<Block>, n: nat, start: nat, buf: seq<Byte>, i: nat, f: nat,
                          file: seq<Block>, target: seq<Block>)
  {
    && Cells(c, n) && start + |buf| <= |c| * n && f <= i <= |buf|
    && target == Splice(c, n, start, buf[..i])
    && file == Splice(c, n, start, buf[..f])
  }

  lemma WrittenStart(c: seq<Block>, n: nat, start: nat, buf: seq<Byte>)
    requires Cells(c, n) && start + |buf| <= |c| * n
    ensures Written(c, n, start, buf, 0, 0, c, c)
  {
  }

  lemma WrittenStep(c: seq<Block>, n: nat, start: nat, buf: seq<Byte>, i: nat, f: nat, file: seq<Block>,
                    target: seq<Block>)
    requires Written(c, n, start, buf, i, f, file, target) && i < |buf|
    ensures Cells(target, n) && |target| == |c| && Quot(start + i, n) < |c|
    ensures Written(c, n, start, buf, i + 1, f, file, PutByte(target, n, start + i, buf[i]))
    ensures Written(c, n, start, buf, i + 1, i + 1, PutByte(target, n, start + i, buf[i]),
                    PutByte(target, n, start + i, buf[i]))
  {
    SpliceNext(c, n, start, buf, i);
  }

  // Recording a size leaves the blocks of a file alone.
  lemma ResizedWent(g: Geometry, was: Snapshot, now: Snapshot, n: nat)
    requires now.node == was.node.(size := now.node.size) && now.data == was.data && now.used == was.used
    requires NodeShape(g, was.node) && OthersSame(g, was.files, was.data, now.files, now.data, n)
    ensures Went(g, was, now, n)
  {
  }

  lemma ResizedIsKept(fd: FileDescriptor, was: Snapshot)
    requires fd.Valid() && fd.indexNode == was.node.(size := fd.indexNode.size)
    requires fd.fs.data == was.data && fd.fs.used == was.used
    requires OthersSame(fd.fs.g, was.files, was.data, fd.Files(), fd.fs.data, fd.indexNodeNumber)
    ensures Kept(fd, was)
  {
    ValidFile(fd);
    ResizedWent(fd.fs.g, was, fd.Now(), fd.indexNodeNumber);
    hide OthersSame, FilesOK, FileOK, FileDescriptor.Valid, Went;
  }

  // Record a new size where the file grew.
  method GrowTo(fd: FileDescriptor, offset: nat)
    requires fd.Valid() && Fits(fd.fs.g, offset) && fd.indexNode.Shaped()
    modifies fd`indexNode, fd.fs, fd.fs.indexBlockBytes
    ensures Kept(fd, old(fd.Now())) && fd.indexNode.Shaped()
    ensures fd.File() == old(fd.File()) && fd.fs.used == old(fd.fs.used) && fd.fs.data == old(fd.fs.data)
    ensures fd.indexNode == old(fd.indexNode).(size := Larger(old(fd.indexNode.size), offset))
  {
    hide *;
    ghost var was := fd.Now();
    KeptStart(fd);
    ValidFile(fd);
    FileNow(fd);
    DescriptorParts(fd);
    FitsIsInt(fd.fs.g, offset);
    LargerIs(fd.indexNode.size, offset);
    if offset > fd.indexNode.size {
      fd.SetSize(offset);
      ResizedIsKept(fd, was);
      KeptParts(fd, was);
    }
  }

  lemma LargerIs(x: int, y: int)
    ensures Larger(x, y) == if y > x then y else x
  {
  }

  // The size has no part in it.
  lemma AheadResized(g: Geometry, s: Snapshot, next: nat, last: int, slack: int, files: seq<IndexNode>, size: Int)
    requires Ahead(g, s, next, last, slack) && DataShape(g, s.data) && NodeShape(g, s.node)
    ensures Ahead(g, Snapshot(files, s.used, s.data, s.node.(size := size)), next, last, slack)
  {
    var node' := s.node.(size := size);
    HolesBeyond(s.node, node', next);
    assert forall c: nat :: c < Slots(g) ==> Address(g, node', s.data, c) == Address(g, s.node, s.data, c);
    hide Address, HolesIn, Holes;
    HolesSame(g, s.node, s.data, node', s.data, next, last);
  }

  // Write out the buffered block and record the size if the file grew.
  method FlushBlock(fd: FileDescriptor, q: nat, offset: nat, ghost last: int, ghost target: seq<Block>,
                    ghost was: Snapshot, ghost slack: int)
    returns (status: int)
    requires Kept(fd, was) && q <= last < Slots(fd.fs.g) && Fits(fd.fs.g, offset)
    requires Lags(fd.File(), target, fd.bytes[..], q)
    requires Ahead(fd.fs.g, fd.Now(), q, last, slack)
    modifies fd`indexNode, fd.fs, fd.fs.indexBlockBytes, fd.fs.freeListBitBlock
    ensures (status == 0 || status == -1) && Kept(fd, was) && fd.indexNode.Shaped()
    ensures status == 0 ==> fd.File() == target && Ahead(fd.fs.g, fd.Now(), q + 1, last, slack)
    ensures status == 0 ==> fd.indexNode.size == Larger(old(fd.indexNode.size), offset)
    ensures status == -1 ==>
              && fd.File() == old(fd.File()) && fd.indexNode == old(fd.indexNode) && DiskFull(fd.fs.g, fd.fs.used)
              && HoleAt(fd.fs.g, fd.indexNode, fd.fs.data, q) && slack < 0
  {
    hide *;
    ghost var now := fd.Now();
    KeptParts(fd, was);
    LagsBy(fd.File(), target, fd.bytes[..], q);
    FileNow(fd);
    DescriptorParts(fd);
    status := StoreBlock(fd, q, last, slack);
    KeptParts(fd, now);
    KeptNext(fd, was, now);
    if status == 0 {
      KeepGrowing(fd, offset, q + 1, last, was, slack);
    }
  }

  lemma LagsBy(file: seq<Block>, target: seq<Block>, buffer: Block, q: nat)
    requires Lags(file, target, buffer, q)
    ensures q < |file| && target == file[q := buffer]
  {
  }

  // Record the size after a block has been written.
  method KeepGrowing(fd: FileDescriptor, offset: nat, ghost next: nat, ghost last: int, ghost was: Snapshot,
                     ghost slack: int)
    requires Kept(fd, was) && Fits(fd.fs.g, offset) && Ahead(fd.fs.g, fd.Now(), next, last, slack)
    modifies fd`indexNode, fd.fs, fd.fs.indexBlockBytes
    ensures Kept(fd, was) && fd.indexNode.Shaped() && fd.File() == old(fd.File())
    ensures Ahead(fd.fs.g, fd.Now(), next, last, slack)
    ensures fd.indexNode.size == Larger(old(fd.indexNode.size), offset)
  {
    hide *;
    ghost var now := fd.Now();
    KeptParts(fd, was);
    FileNow(fd);
    FitsIsInt(fd.fs.g, offset);
    LargerIsInt(fd.indexNode.size, offset);
    ghost var size := Larger(fd.indexNode.size, offset);
    GrowTo(fd, offset);
    KeptParts(fd, now);
    KeptNext(fd, was, now);
    FileNow(fd);
    AheadResized(fd.fs.g, now, next, last, slack, fd.Files(), size);
  }

  lemma LargerIsInt(x: int, y: int)
    requires -0x8000_0000 <= x < 0x8000_0000 && -0x8000_0000 <= y < 0x8000_0000
    ensures -0x8000_0000 <= Larger(x, y) < 0x8000_0000
  {
  }

  function Larger(x: int, y: int): (r: int)
    ensures r >= x && r >= y && (r == x || r == y)
  {
    if y > x then y else x
  }

  // The next byte starts the write or a block.
  predicate Loads(start: nat, i: nat, n: nat) {
    i == 0 || n < 1 || Rem(start + i, n) == 0
  }

  // Between two bytes of a write: at a block boundary the file has everything, within a block the
  // buffer holds the difference.
  ghost predicate Stage(n: nat, start: nat, i: nat, f: nat, file: seq<Block>, target: seq<Block>, buffer: Block) {
    && n >= 1
    && (Loads(start, i, n) ==> file == target && f == i)
    && (!Loads(start, i, n) ==>
          Lags(file, target, buffer, Quot(start + i, n)) && Quot(start + f, n) == Quot(start + i, n))
  }

  // The recorded size covers the old file and what has been flushed.
  predicate Grown(size0: int, size: int, start: nat, f: nat) {
    size == if f > 0 then Larger(size0, start + f) else size0
  }

  // A write under way: i bytes are in the target, f of them in the file on disk.
  ghost predicate InFlight(fd: FileDescriptor, start: nat, buf: seq<Byte>, i: nat, f: nat, target: seq<Block>,
                           last: int, c: seq<Block>, was: Snapshot)
    reads fd`indexNode, fd.bytes, fd.fs, fd.fs.freeListBitBlock, fd.fs.indexBlockBytes
  {
    && Kept(fd, was)
    && Fits(fd.fs.g, start + |buf|) && |buf| > 0
    && last == Quot(start + |buf| - 1, fd.fs.g.blockSize)
    && Written(c, fd.fs.g.blockSize, start, buf, i, f, fd.File(), target)
    && Stage(fd.fs.g.blockSize, start, i, f, fd.File(), target, fd.bytes[..])
    && Grown(was.node.size, fd.indexNode.size, start, f) && Loads(start, f, fd.fs.g.blockSize)
    && Ahead(fd.fs.g, fd.Now(), Quot(start + i, fd.fs.g.blockSize), last,
             Slack(fd.fs.g, was, Quot(start, fd.fs.g.blockSize), last))
  }

  lemma InFlightStart(fd: FileDescriptor, start: nat, buf: seq<Byte>, last: int)
    requires fd.Valid() && |buf| > 0 && Fits(fd.fs.g, start + |buf|)
    requires last == Quot(start + |buf| - 1, fd.fs.g.blockSize)
    requires Roomy(fd.fs.g, fd.indexNode, fd.fs.used, Quot(start, fd.fs.g.blockSize), last)
    ensures InFlight(fd, start, buf, 0, 0, fd.File(), last, fd.File(), fd.Now())
  {
    ValidFile(fd);
    FileCells(fd);
    KeptStart(fd);
    hide FileDescriptor.Valid, FileDescriptor.File, Kept, Roomy, Cells;
    WrittenStart(fd.File(), fd.fs.g.blockSize, start, buf);
  }

  lemma GeometryOf(fd: FileDescriptor)
    requires fd.Valid()
    ensures fd.fs.g.Valid() && fd.fs.g.blockSize >= 1
  {
  }

  lemma FitsLess(g: Geometry, end: int, end': int)
    requires Fits(g, end') && end <= end'
    ensures Fits(g, end)
  {
  }

  // Where byte i of a write goes.
  lemma Position(fd: FileDescriptor, start: nat, buf: seq<Byte>, i: nat)
    requires fd.Valid() && Fits(fd.fs.g, start + |buf|) && i < |buf|
    ensures Quot(start + i, fd.fs.g.blockSize) < Slots(fd.fs.g) && Fits(fd.fs.g, start + i + 1)
    ensures Quot(start + i, fd.fs.g.blockSize) <= Quot(start + |buf| - 1, fd.fs.g.blockSize)
  {
    hide *;
    GeometryOf(fd);
    FitsLess(fd.fs.g, start + i + 1, start + |buf|);
    InSlots(fd.fs.g, start + i, start + |buf|);
    QuotMonotone(start + i, start + |buf| - 1, fd.fs.g.blockSize);
  }

  // In the middle of a pass: byte i is in the buffer, and not yet in the file.
  ghost predicate Filled(fd: FileDescriptor, start: nat, buf: seq<Byte>, i: nat, f: nat, target: seq<Block>, last: int,
                         c: seq<Block>, was: Snapshot)
    reads fd`indexNode, fd.bytes, fd.fs, fd.fs.freeListBitBlock, fd.fs.indexBlockBytes
  {
    && Kept(fd, was)
    && Fits(fd.fs.g, start + |buf|) && i < |buf|
    && last == Quot(start + |buf| - 1, fd.fs.g.blockSize)
    && Written(c, fd.fs.g.blockSize, start, buf, i + 1, f, fd.File(), target)
    && Written(c, fd.fs.g.blockSize, start, buf, i + 1, i + 1, target, target)
    && Lags(fd.File(), target, fd.bytes[..], Quot(start + i, fd.fs.g.blockSize))
    && Quot(start + f, fd.fs.g.blockSize) == Quot(start + i, fd.fs.g.blockSize)
    && Grown(was.node.size, fd.indexNode.size, start, f) && Loads(start, f, fd.fs.g.blockSize)
    && Ahead(fd.fs.g, fd.Now(), Quot(start + i, fd.fs.g.blockSize), last,
             Slack(fd.fs.g, was, Quot(start, fd.fs.g.blockSize), last))
  }

  // The first half of a pass of the loop of Kernel::write: load a block if need be, copy the byte.
  method FillByte(fd: FileDescriptor, start: nat, buf: seq<Byte>, i: nat, ghost f: nat, ghost target: seq<Block>,
                  ghost last: int,
                  ghost c: seq<Block>, ghost was: Snapshot)
    returns (ghost target': seq<Block>)
    requires i < |buf| && InFlight(fd, start, buf, i, f, target, last, c, was)
    modifies fd.bytes
    ensures Filled(fd, start, buf, i, f, target', last, c, was)
  {
    hide *;
    FlightParts(fd, start, buf, i, f, target, last, c, was);
    WrittenStep(c, fd.fs.g.blockSize, start, buf, i, f, fd.File(), target);
    Position(fd, start, buf, i);
    FileCells(fd);
    DescriptorParts(fd);
    LoadsIs(start, i, fd.fs.g.blockSize);
    StageNow(fd.fs.g.blockSize, start, i, f, fd.File(), target, fd.bytes[..]);
    KeptParts(fd, was);
    ghost var file := fd.File();
    WrittenParts(c, fd.fs.g.blockSize, start, buf, i, f, file, target);
    target' := PutIntoBuffer(fd, start + i, buf[i], i == 0 || Rem(start + i, fd.fs.g.blockSize) == 0, target);
    KeptStill(fd, was);
    FilledNow(fd, start, buf, i, f, target', last, c, was);
  }

  lemma WrittenParts(c: seq<Block>, n: nat, start: nat, buf: seq<Byte>, i: nat, f: nat, file: seq<Block>,
                     target: seq<Block>)
    requires Written(c, n, start, buf, i, f, file, target)
    ensures |target| == |c| == |file| && Cells(target, n)
  {
  }

  lemma KeptStill(fd: FileDescriptor, was: Snapshot)
    requires fd.Valid() && Went(fd.fs.g, was, fd.Now(), fd.indexNodeNumber)
    ensures Kept(fd, was)
  {
  }

  lemma LoadsIs(start: nat, i: nat, n: nat)
    requires n >= 1
    ensures Loads(start, i, n) <==> i == 0 || Rem(start + i, n) == 0
  {
  }

  lemma StageNow(n: nat, start: nat, i: nat, f: nat, file: seq<Block>, target: seq<Block>, buffer: Block)
    requires Stage(n, start, i, f, file, target, buffer)
    ensures Loads(start, i, n) ==> file == target && f == i
    ensures !Loads(start, i, n) ==> Lags(file, target, buffer, Quot(start + i, n))
    ensures Quot(start + f, n) == Quot(start + i, n)
  {
  }

  lemma FilledNow(fd: FileDescriptor, start: nat, buf: seq<Byte>, i: nat, f: nat, target: seq<Block>, last: int,
                  c: seq<Block>, was: Snapshot)
    requires Kept(fd, was) && fd.Readable() && fd.fs.g.blockSize >= 1
    requires Fits(fd.fs.g, start + |buf|) && i < |buf| && last == Quot(start + |buf| - 1, fd.fs.g.blockSize)
    requires Written(c, fd.fs.g.blockSize, start, buf, i + 1, f, fd.File(), target)
    requires Written(c, fd.fs.g.blockSize, start, buf, i + 1, i + 1, target, target)
    requires Lags(fd.File(), target, fd.bytes[..], Quot(start + i, fd.fs.g.blockSize))
    requires Quot(start + f, fd.fs.g.blockSize) == Quot(start + i, fd.fs.g.blockSize)
    requires Grown(was.node.size, fd.indexNode.size, start, f) && Loads(start, f, fd.fs.g.blockSize)
    requires Ahead(fd.fs.g, fd.Now(), Quot(start + i, fd.fs.g.blockSize), last,
                   Slack(fd.fs.g, was, Quot(start, fd.fs.g.blockSize), last))
    ensures Filled(fd, start, buf, i, f, target, last, c, was)
  {
  }

  lemma StillLags(n: nat, start: nat, i: nat, f: nat, file: seq<Block>, target: seq<Block>, buffer: Block)
    requires n >= 1 && Rem(start + i + 1, n) != 0 && Lags(file, target, buffer, Quot(start + i, n))
    requires Quot(start + f, n) == Quot(start + i, n)
    ensures Stage(n, start, i + 1, f, file, target, buffer)
    ensures Quot(start + (i + 1), n) == Quot(start + i, n)
  {
    NextByte(start + i, n);
  }

  lemma Flushed(n: nat, start: nat, i: nat, f: nat, target: seq<Block>, buffer: Block, size0: int, size: int)
    requires n >= 1 && Rem(start + i + 1, n) == 0 && f <= i + 1 && Grown(size0, size, start, f)
    ensures Stage(n, start, i + 1, i + 1, target, target, buffer)
    ensures Grown(size0, Larger(size, start + i + 1), start, i + 1)
    ensures Quot(start + (i + 1), n) == Quot(start + i, n) + 1
  {
    NextByte(start + i, n);
  }

  lemma CarryByte(fd: FileDescriptor, start: nat, buf: seq<Byte>, i: nat, f: nat, target: seq<Block>, last: int,
                  c: seq<Block>, was: Snapshot)
    requires Filled(fd, start, buf, i, f, target, last, c, was)
    requires Rem(start + i + 1, fd.fs.g.blockSize) != 0
    ensures InFlight(fd, start, buf, i + 1, f, target, last, c, was)
  {
    FileCells(fd);
    StillLags(fd.fs.g.blockSize, start, i, f, fd.File(), target, fd.bytes[..]);
    hide FileDescriptor.Valid, FileDescriptor.File, Quot, Rem, Kept, Roomy, Splice, Cells, Lags, Fits, Stage, Grown,
      Written;
  }

  method FlushByte(fd: FileDescriptor, start: nat, buf: seq<Byte>, i: nat, ghost f: nat, ghost target: seq<Block>,
                   ghost last: int,
                   ghost c: seq<Block>, ghost was: Snapshot)
    returns (status: int)
    requires Filled(fd, start, buf, i, f, target, last, c, was)
    requires Rem(start + i + 1, fd.fs.g.blockSize) == 0
    modifies fd`indexNode, fd.fs, fd.fs.indexBlockBytes, fd.fs.freeListBitBlock
    ensures status == 0 || status == -1
    ensures status == 0 ==> InFlight(fd, start, buf, i + 1, i + 1, target, last, c, was)
    ensures status == -1 ==> FailedWrite(fd, start, buf, f, c, was)
  {
    hide *;
    FlushReady(fd, start, buf, i, f, target, last, c, was);
    ghost var n, file, size := fd.fs.g.blockSize, fd.File(), fd.indexNode.size;
    Flushed(n, start, i, f, target, fd.bytes[..], was.node.size, fd.indexNode.size);
    status := FlushBlock(fd, Quot(start + i, fd.fs.g.blockSize), start + i + 1, last, target, was,
                         Slack(fd.fs.g, was, Quot(start, fd.fs.g.blockSize), last));
    KeptParts(fd, was);
    FlushDone(fd, start, buf, i, f, file, size, target, last, c, was, status);
  }

  lemma FlushReady(fd: FileDescriptor, start: nat, buf: seq<Byte>, i: nat, f: nat, target: seq<Block>, last: int,
                   c: seq<Block>, was: Snapshot)
    requires Filled(fd, start, buf, i, f, target, last, c, was)
    ensures fd.Readable() && Kept(fd, was) && fd.indexNode.Shaped() && fd.fs.g.blockSize >= 1 && f <= i + 1
    ensures Grown(was.node.size, fd.indexNode.size, start, f)
    ensures var q := Quot(start + i, fd.fs.g.blockSize);
            && q <= last < Slots(fd.fs.g) && Fits(fd.fs.g, start + i + 1)
            && Lags(fd.File(), target, fd.bytes[..], q)
            && Ahead(fd.fs.g, fd.Now(), q, last, Slack(fd.fs.g, was, Quot(start, fd.fs.g.blockSize), last))
    ensures Due(fd.fs.g, start, buf, i, f, fd.File(), target, fd.indexNode.size, last, c, was)
  {
    hide *;
    FilledParts(fd, start, buf, i, f, target, last, c, was);
    Position(fd, start, buf, i);
    Position(fd, start, buf, |buf| - 1);
    assert start + (|buf| - 1) == start + |buf| - 1;
    KeptParts(fd, was);
    DueNow(fd.fs.g, start, buf, i, f, fd.File(), target, fd.indexNode.size, last, c, was);
  }

  lemma FilledParts(fd: FileDescriptor, start: nat, buf: seq<Byte>, i: nat, f: nat, target: seq<Block>, last: int,
                    c: seq<Block>, was: Snapshot)
    requires Filled(fd, start, buf, i, f, target, last, c, was)
    ensures Kept(fd, was) && fd.Readable() && fd.Valid() && fd.fs.g.blockSize >= 1
    ensures Fits(fd.fs.g, start + |buf|) && i < |buf| && f <= i + 1
    ensures last == Quot(start + |buf| - 1, fd.fs.g.blockSize)
    ensures Written(c, fd.fs.g.blockSize, start, buf, i + 1, f, fd.File(), target)
    ensures Written(c, fd.fs.g.blockSize, start, buf, i + 1, i + 1, target, target)
    ensures Lags(fd.File(), target, fd.bytes[..], Quot(start + i, fd.fs.g.blockSize))
    ensures Quot(start + f, fd.fs.g.blockSize) == Quot(start + i, fd.fs.g.blockSize)
    ensures Grown(was.node.size, fd.indexNode.size, start, f) && Loads(start, f, fd.fs.g.blockSize)
    ensures Ahead(fd.fs.g, fd.Now(), Quot(start + i, fd.fs.g.blockSize), last,
                  Slack(fd.fs.g, was, Quot(start, fd.fs.g.blockSize), last))
  {
    hide FileDescriptor.File, Went, Ahead, Slack, Splice, Cells, Lags, Fits, Grown, Quot, Loads;
  }

  lemma DueNow(g: Geometry, start: nat, buf: seq<Byte>, i: nat, f: nat, file: seq<Block>, target: seq<Block>,
               size: int, last: int, c: seq<Block>, was: Snapshot)
    requires g.blockSize >= 1 && Fits(g, start + |buf|) && i < |buf| && last == Quot(start + |buf| - 1, g.blockSize)
    requires Written(c, g.blockSize, start, buf, i + 1, f, file, target)
    requires Written(c, g.blockSize, start, buf, i + 1, i + 1, target, target)
    requires Quot(start + f, g.blockSize) == Quot(start + i, g.blockSize)
    requires Grown(was.node.size, size, start, f) && Loads(start, f, g.blockSize)
    ensures Due(g, start, buf, i, f, file, target, size, last, c, was)
  {
  }

  // What of Filled does not go by the state of the descriptor.
  ghost predicate Due(g: Geometry, start: nat, buf: seq<Byte>, i: nat, f: nat, file: seq<Block>, target: seq<Block>,
                      size: int, last: int, c: seq<Block>, was: Snapshot)
  {
    && g.blockSize >= 1 && Fits(g, start + |buf|) && i < |buf| && last == Quot(start + |buf| - 1, g.blockSize)
    && Written(c, g.blockSize, start, buf, i + 1, f, file, target)
    && Written(c, g.blockSize, start, buf, i + 1, i + 1, target, target)
    && Quot(start + f, g.blockSize) == Quot(start + i, g.blockSize)
    && Grown(was.node.size, size, start, f) && Loads(start, f, g.blockSize)
  }

  lemma FlushDone(fd: FileDescriptor, start: nat, buf: seq<Byte>, i: nat, f: nat, file: seq<Block>, size: int,
                  target: seq<Block>, last: int, c: seq<Block>, was: Snapshot, status: int)
    requires Kept(fd, was) && fd.indexNode.Shaped() && fd.Readable()
    requires Due(fd.fs.g, start, buf, i, f, file, target, size, last, c, was)
    requires Rem(start + i + 1, fd.fs.g.blockSize) == 0
    requires var q := Quot(start + i, fd.fs.g.blockSize);
             var slack := Slack(fd.fs.g, was, Quot(start, fd.fs.g.blockSize), last);
             if status == 0 then
               && fd.File() == target && Ahead(fd.fs.g, fd.Now(), q + 1, last, slack)
               && fd.indexNode.size == Larger(size, start + i + 1)
             else
               && fd.File() == file && fd.indexNode.size == size && DiskFull(fd.fs.g, fd.fs.used)
               && HoleAt(fd.fs.g, fd.indexNode, fd.fs.data, q) && slack < 0
    ensures status == 0 ==> InFlight(fd, start, buf, i + 1, i + 1, target, last, c, was)
    ensures status != 0 ==> FailedWrite(fd, start, buf, f, c, was)
  {
    Flushed(fd.fs.g.blockSize, start, i, f, target, fd.bytes[..], was.node.size, size);
    LastTouchedIs(start, |buf|, fd.fs.g.blockSize);
    hide FileDescriptor.Valid, FileDescriptor.File, Went, Ahead, Slack, Splice, Cells, Lags, Fits, Quot, Rem, DiskFull,
      HoleAt, LastTouched;
  }

  // The second half: at the end of a block, write it out.
  method EndByte(fd: FileDescriptor, start: nat, buf: seq<Byte>, i: nat, ghost f: nat, ghost target: seq<Block>,
                 ghost last: int,
                 ghost c: seq<Block>, ghost was: Snapshot)
    returns (status: int, ghost f': nat)
    requires Filled(fd, start, buf, i, f, target, last, c, was)
    modifies fd`indexNode, fd.fs, fd.fs.indexBlockBytes, fd.fs.freeListBitBlock
    ensures status == 0 || status == -1
    ensures status == 0 ==> InFlight(fd, start, buf, i + 1, f', target, last, c, was)
    ensures status == -1 ==> FailedWrite(fd, start, buf, f, c, was)
  {
    assert fd.fs.g.blockSize >= 1 by {
      FileCells(fd);
    }
    hide *;
    if Rem(start + i + 1, fd.fs.g.blockSize) == 0 {
      status := FlushByte(fd, start, buf, i, f, target, last, c, was);
      f' := i + 1;
    } else {
      CarryByte(fd, start, buf, i, f, target, last, c, was);
      status, f' := 0, f;
    }
  }

  // A write that found the disk full: a prefix of it is in the file, up to the first block that the file
  // does not have; the size covers that prefix, and nothing else has changed.
  ghost predicate FailedWrite(fd: FileDescriptor, start: nat, buf: seq<Byte>, f: nat,
                              c: seq<Block>, was: Snapshot)
    reads fd`indexNode, fd.fs, fd.fs.freeListBitBlock, fd.fs.indexBlockBytes
  {
    && Kept(fd, was) && DiskFull(fd.fs.g, fd.fs.used)
    && f <= |buf| && Cells(c, fd.fs.g.blockSize) && start + |buf| <= |c| * fd.fs.g.blockSize
    && fd.File() == Splice(c, fd.fs.g.blockSize, start, buf[..f])
    && Grown(was.node.size, fd.indexNode.size, start, f) && Loads(start, f, fd.fs.g.blockSize)
    && HoleAt(fd.fs.g, fd.indexNode, fd.fs.data, Quot(start + f, fd.fs.g.blockSize))
    && Spare(fd.fs.g, was, start, |buf|) < 0
  }

  // How many more blocks were free than a write of len bytes at an offset needs.
  ghost function Spare(g: Geometry, was: Snapshot, start: nat, len: nat): int {
    if g.blockSize < 1 then 0 else Slack(g, was, Quot(start, g.blockSize), LastTouched(start, len, g.blockSize))
  }

  // The loop of Kernel::write.
  method CopyIn(fd: FileDescriptor, start: nat, buf: seq<Byte>, ghost last: int,
                ghost c: seq<Block>, ghost was: Snapshot)
    returns (status: int, ghost f: nat, ghost target: seq<Block>)
    requires InFlight(fd, start, buf, 0, 0, c, last, c, was)
    modifies fd.bytes, fd`indexNode, fd.fs, fd.fs.indexBlockBytes, fd.fs.freeListBitBlock
    ensures status == 0 || status == -1
    ensures status == 0 ==> InFlight(fd, start, buf, |buf|, f, target, last, c, was)
    ensures status == -1 ==> FailedWrite(fd, start, buf, f, c, was)
  {
    hide *;
    var i := 0;
    status, f, target := 0, 0, c;
    while i < |buf|
      invariant 0 <= i <= |buf| && status == 0
      invariant InFlight(fd, start, buf, i, f, target, last, c, was)
    {
      target := FillByte(fd, start, buf, i, f, target, last, c, was);
      ghost var f': nat;
      status, f' := EndByte(fd, start, buf, i, f, target, last, c, was);
      if status < 0 {
        return;
      }
      f := f';
      i := i + 1;
    }
  }

  // The bytes between the two offsets are in the file, the size covers them, and nothing else changed.
  ghost predicate Wrote(fd: FileDescriptor, start: nat, buf: seq<Byte>,
                        c: seq<Block>, was: Snapshot)
    reads fd`indexNode, fd.fs, fd.fs.freeListBitBlock, fd.fs.indexBlockBytes
  {
    && Kept(fd, was)
    && Cells(c, fd.fs.g.blockSize) && start + |buf| <= |c| * fd.fs.g.blockSize
    && fd.File() == Splice(c, fd.fs.g.blockSize, start, buf)
    && fd.indexNode.size == Larger(was.node.size, start + |buf|)
    && 0 <= Spare(fd.fs.g, was, start, |buf|) == Free(fd.fs.g, fd.fs.used)
  }

  // A write of at least one byte that came to its end had room.
  lemma NoneShort(fd: FileDescriptor, was: Snapshot, start: nat, len: nat, next: nat, last: int)
    requires fd.Valid() && len > 0 && next > last == Quot(start + len - 1, fd.fs.g.blockSize)
    requires Ahead(fd.fs.g, fd.Now(), next, last, Slack(fd.fs.g, was, Quot(start, fd.fs.g.blockSize), last))
    ensures 0 <= Spare(fd.fs.g, was, start, len) == Free(fd.fs.g, fd.fs.used)
  {
    ValidFile(fd);
    GeometryOf(fd);
    FullIsNoneFree(fd.fs.g, fd.fs.used);
    SlackIs(fd.fs.g, fd.Now(), next, last);
    hide FileDescriptor.Valid, Quot, Slack, FilesOK, FileOK, Roomy, DiskFull, Free;
  }

  lemma StageAtEnd(n: nat, start: nat, len: nat, f: nat, file: seq<Block>, target: seq<Block>, buffer: Block,
                   size0: int, size: int)
    requires len > 0 && f <= len && Stage(n, start, len, f, file, target, buffer) && Grown(size0, size, start, f)
    ensures n >= 1 && Larger(size, start + len) == Larger(size0, start + len)
    ensures Rem(start + len, n) == 0 ==> file == target && size == Larger(size0, start + len)
    ensures Rem(start + len, n) != 0 ==>
              Lags(file, target, buffer, Quot(start + len, n)) && Quot(start + f, n) == Quot(start + len, n)
  {
  }

  lemma WrittenAll(c: seq<Block>, n: nat, start: nat, buf: seq<Byte>, f: nat, file: seq<Block>, target: seq<Block>)
    requires Written(c, n, start, buf, |buf|, f, file, target)
    ensures Cells(c, n) && start + |buf| <= |c| * n && f <= |buf|
    ensures target == Splice(c, n, start, buf) && file == Splice(c, n, start, buf[..f])
  {
    assert buf[..|buf|] == buf;
  }

  lemma DoneAtBoundary(fd: FileDescriptor, start: nat, buf: seq<Byte>, f: nat, target: seq<Block>, last: int,
                       c: seq<Block>, was: Snapshot)
    requires InFlight(fd, start, buf, |buf|, f, target, last, c, was)
    requires Rem(start + |buf|, fd.fs.g.blockSize) == 0
    ensures Wrote(fd, start, buf, c, was)
  {
    hide *;
    FlightParts(fd, start, buf, |buf|, f, target, last, c, was);
    StageAtEnd(fd.fs.g.blockSize, start, |buf|, f, fd.File(), target, fd.bytes[..], was.node.size, fd.indexNode.size);
    WrittenAll(c, fd.fs.g.blockSize, start, buf, f, fd.File(), target);
    NextByte(start + |buf| - 1, fd.fs.g.blockSize);
    NoneShort(fd, was, start, |buf|, Quot(start + |buf|, fd.fs.g.blockSize), last);
    WroteNow(fd, start, buf, c, was);
  }

  lemma WroteNow(fd: FileDescriptor, start: nat, buf: seq<Byte>, c: seq<Block>, was: Snapshot)
    requires Kept(fd, was) && fd.Readable()
    requires Cells(c, fd.fs.g.blockSize) && start + |buf| <= |c| * fd.fs.g.blockSize
    requires fd.File() == Splice(c, fd.fs.g.blockSize, start, buf)
    requires fd.indexNode.size == Larger(was.node.size, start + |buf|)
    requires 0 <= Spare(fd.fs.g, was, start, |buf|) == Free(fd.fs.g, fd.fs.used)
    ensures Wrote(fd, start, buf, c, was)
  {
  }

  lemma LastPosition(fd: FileDescriptor, start: nat, buf: seq<Byte>)
    requires fd.Valid() && Fits(fd.fs.g, start + |buf|) && |buf| > 0
    ensures var n := fd.fs.g.blockSize;
            && n >= 1
            && Quot(start + |buf| - 1, n) < Slots(fd.fs.g)
            && (Rem(start + |buf|, n) != 0 ==> Quot(start + |buf|, n) == Quot(start + |buf| - 1, n))
  {
    Position(fd, start, buf, |buf| - 1);
    FileCells(fd);
    assert start + (|buf| - 1) == start + |buf| - 1;
    NextByte(start + |buf| - 1, fd.fs.g.blockSize);
  }

  // Flushing the last block of a write that ends within it is a flush in the middle of a write.
  lemma LastFlush(fd: FileDescriptor, start: nat, buf: seq<Byte>, f: nat, target: seq<Block>, last: int,
                  c: seq<Block>, was: Snapshot, q: nat)
    requires InFlight(fd, start, buf, |buf|, f, target, last, c, was)
    requires Rem(start + |buf|, fd.fs.g.blockSize) != 0 && q == Quot(start + |buf|, fd.fs.g.blockSize)
    ensures Kept(fd, was) && q == last && q < Slots(fd.fs.g) && Fits(fd.fs.g, start + |buf|)
    ensures Lags(fd.File(), target, fd.bytes[..], q)
    ensures Ahead(fd.fs.g, fd.Now(), q, last, Slack(fd.fs.g, was, Quot(start, fd.fs.g.blockSize), last))
    ensures Larger(fd.indexNode.size, start + |buf|) == Larger(was.node.size, start + |buf|)
    ensures Quot(start + f, fd.fs.g.blockSize) == q
  {
    var n, end := fd.fs.g.blockSize, start + |buf|;
    StageAtEnd(n, start, |buf|, f, fd.File(), target, fd.bytes[..], was.node.size, fd.indexNode.size);
    hide FileDescriptor.File, FileDescriptor.Valid, Lags, Stage, Grown, Ahead, Slack, Fits, Written, Larger, Quot, Rem;
    assert fd.Valid();
    hide Kept;
    LastPosition(fd, start, buf);
  }

  method FlushLast(fd: FileDescriptor, start: nat, buf: seq<Byte>, ghost f: nat, ghost target: seq<Block>,
                   ghost last: int, ghost c: seq<Block>, ghost was: Snapshot)
    returns (status: int)
    requires InFlight(fd, start, buf, |buf|, f, target, last, c, was)
    requires Rem(start + |buf|, fd.fs.g.blockSize) != 0 && fd.fs.g.blockSize >= 1
    modifies fd`indexNode, fd.fs, fd.fs.indexBlockBytes, fd.fs.freeListBitBlock
    ensures status == 0 || status == -1
    ensures status == 0 ==> Wrote(fd, start, buf, c, was) && Buffered(fd, start + |buf|)
    ensures status == -1 ==> FailedWrite(fd, start, buf, f, c, was)
  {
    hide *;
    ghost var slack := Slack(fd.fs.g, was, Quot(start, fd.fs.g.blockSize), last);
    LastFlush(fd, start, buf, f, target, last, c, was, Quot(start + |buf|, fd.fs.g.blockSize));
    LastDue(fd, start, buf, f, target, last, c, was);
    ghost var file, size := fd.File(), fd.indexNode.size;
    KeptParts(fd, was);
    DescriptorParts(fd);
    status := FlushBlock(fd, Quot(start + |buf| - 1, fd.fs.g.blockSize), start + |buf|, last, target, was, slack);
    KeptParts(fd, was);
    LastDone(fd, start, buf, f, file, size, target, last, c, was, status);
  }

  // What of a write that is all but flushed does not go by the state of the descriptor.
  ghost predicate AllDue(g: Geometry, start: nat, buf: seq<Byte>, f: nat, file: seq<Block>, target: seq<Block>,
                         buffer: Block, size: int, last: int, c: seq<Block>, was: Snapshot)
  {
    && g.blockSize >= 1 && |buf| > 0 && f <= |buf| && Cells(c, g.blockSize) && start + |buf| <= |c| * g.blockSize
    && target == Splice(c, g.blockSize, start, buf) && file == Splice(c, g.blockSize, start, buf[..f])
    && last == Quot(start + |buf| - 1, g.blockSize) == Quot(start + |buf|, g.blockSize) == Quot(start + f, g.blockSize)
    && last < |target| && buffer == target[last]
    && Larger(size, start + |buf|) == Larger(was.node.size, start + |buf|)
    && Grown(was.node.size, size, start, f) && Loads(start, f, g.blockSize)
  }

  lemma LastDue(fd: FileDescriptor, start: nat, buf: seq<Byte>, f: nat, target: seq<Block>, last: int,
                c: seq<Block>, was: Snapshot)
    requires InFlight(fd, start, buf, |buf|, f, target, last, c, was) && fd.fs.g.blockSize >= 1
    requires Rem(start + |buf|, fd.fs.g.blockSize) != 0
    ensures fd.Readable()
    ensures AllDue(fd.fs.g, start, buf, f, fd.File(), target, fd.bytes[..], fd.indexNode.size, last, c, was)
    ensures |buf| > 0 && last == Quot(start + |buf| - 1, fd.fs.g.blockSize)
  {
    hide *;
    FlightParts(fd, start, buf, |buf|, f, target, last, c, was);
    var n := fd.fs.g.blockSize;
    StageAtEnd(n, start, |buf|, f, fd.File(), target, fd.bytes[..], was.node.size, fd.indexNode.size);
    WrittenAll(c, n, start, buf, f, fd.File(), target);
    NextByte(start + |buf| - 1, n);
    LagsBuffer(fd.File(), target, fd.bytes[..], Quot(start + |buf|, n));
    AllDueNow(fd.fs.g, start, buf, f, fd.File(), target, fd.bytes[..], fd.indexNode.size, last, c, was);
  }

  lemma LagsBuffer(file: seq<Block>, target: seq<Block>, buffer: Block, q: nat)
    requires Lags(file, target, buffer, q)
    ensures q < |target| && buffer == target[q]
  {
  }

  lemma AllDueNow(g: Geometry, start: nat, buf: seq<Byte>, f: nat, file: seq<Block>, target: seq<Block>,
                  buffer: Block, size: int, last: int, c: seq<Block>, was: Snapshot)
    requires g.blockSize >= 1 && |buf| > 0 && f <= |buf| && Cells(c, g.blockSize) && start + |buf| <= |c| * g.blockSize
    requires target == Splice(c, g.blockSize, start, buf) && file == Splice(c, g.blockSize, start, buf[..f])
    requires last == Quot(start + |buf| - 1, g.blockSize) == Quot(start + |buf|, g.blockSize)
    requires last == Quot(start + f, g.blockSize) && last < |target| && buffer == target[last]
    requires Larger(size, start + |buf|) == Larger(was.node.size, start + |buf|)
    requires Grown(was.node.size, size, start, f) && Loads(start, f, g.blockSize)
    ensures AllDue(g, start, buf, f, file, target, buffer, size, last, c, was)
  {
  }

  lemma FlightParts(fd: FileDescriptor, start: nat, buf: seq<Byte>, i: nat, f: nat, target: seq<Block>, last: int,
                    c: seq<Block>, was: Snapshot)
    requires InFlight(fd, start, buf, i, f, target, last, c, was)
    ensures Kept(fd, was) && fd.Valid() && fd.Readable() && Fits(fd.fs.g, start + |buf|) && |buf| > 0
    ensures fd.fs.g.blockSize >= 1
    ensures last == Quot(start + |buf| - 1, fd.fs.g.blockSize)
    ensures Written(c, fd.fs.g.blockSize, start, buf, i, f, fd.File(), target) && f <= i <= |buf|
    ensures Stage(fd.fs.g.blockSize, start, i, f, fd.File(), target, fd.bytes[..])
    ensures Grown(was.node.size, fd.indexNode.size, start, f) && Loads(start, f, fd.fs.g.blockSize)
    ensures Ahead(fd.fs.g, fd.Now(), Quot(start + i, fd.fs.g.blockSize), last,
                  Slack(fd.fs.g, was, Quot(start, fd.fs.g.blockSize), last))
  {
    hide FileDescriptor.File, Went, Ahead, Slack, Quot, Lags, Splice, Cells, Grown, Loads, Fits;
  }

  // The buffer holds the block of the file that an offset is in.
  ghost predicate Buffered(fd: FileDescriptor, at: nat)
    reads fd`indexNode, fd.bytes, fd.fs, fd.fs.freeListBitBlock, fd.fs.indexBlockBytes
  {
    && fd.Readable() && fd.fs.g.blockSize >= 1
    && Quot(at, fd.fs.g.blockSize) < |fd.File()| && fd.bytes[..] == fd.File()[Quot(at, fd.fs.g.blockSize)]
  }

  lemma LastDone(fd: FileDescriptor, start: nat, buf: seq<Byte>, f: nat, file: seq<Block>, size: int,
                 target: seq<Block>, last: int, c: seq<Block>, was: Snapshot, status: int)
    requires Kept(fd, was) && fd.Readable()
    requires AllDue(fd.fs.g, start, buf, f, file, target, fd.bytes[..], size, last, c, was)
    requires var slack := Slack(fd.fs.g, was, Quot(start, fd.fs.g.blockSize), last);
             if status == 0 then
               && fd.File() == target && Ahead(fd.fs.g, fd.Now(), last + 1, last, slack)
               && fd.indexNode.size == Larger(size, start + |buf|)
             else
               && fd.File() == file && fd.indexNode.size == size && DiskFull(fd.fs.g, fd.fs.used)
               && HoleAt(fd.fs.g, fd.indexNode, fd.fs.data, last) && slack < 0
    ensures status == 0 ==> Wrote(fd, start, buf, c, was) && Buffered(fd, start + |buf|)
    ensures status != 0 ==> FailedWrite(fd, start, buf, f, c, was)
  {
    if status == 0 {
      LastDoneWell(fd, start, buf, f, file, size, target, last, c, was);
    } else {
      LastTouchedIs(start, |buf|, fd.fs.g.blockSize);
      hide FileDescriptor.Valid, FileDescriptor.File, Went, Ahead, Slack, Splice, Cells, Fits, Quot, Rem, DiskFull,
        HoleAt, LastTouched, Larger;
    }
  }

  lemma LastDoneWell(fd: FileDescriptor, start: nat, buf: seq<Byte>, f: nat, file: seq<Block>, size: int,
                     target: seq<Block>, last: int, c: seq<Block>, was: Snapshot)
    requires Kept(fd, was) && fd.Readable()
    requires AllDue(fd.fs.g, start, buf, f, file, target, fd.bytes[..], size, last, c, was)
    requires fd.File() == target && fd.indexNode.size == Larger(size, start + |buf|)
    requires Ahead(fd.fs.g, fd.Now(), last + 1, last, Slack(fd.fs.g, was, Quot(start, fd.fs.g.blockSize), last))
    ensures Wrote(fd, start, buf, c, was) && Buffered(fd, start + |buf|)
  {
    NoneShort(fd, was, start, |buf|, last + 1, last);
    hide FileDescriptor.Valid, FileDescriptor.File, Went, Ahead, Slack, Splice, Cells, Fits, Quot, Rem, Larger;
  }

  // The end of Kernel::write after at least one byte: flush the last block unless it is complete.
  method Finish(fd: FileDescriptor, start: nat, buf: seq<Byte>, ghost f: nat, ghost target: seq<Block>, ghost last: int,
                ghost c: seq<Block>, ghost was: Snapshot)
    returns (status: int)
    requires InFlight(fd, start, buf, |buf|, f, target, last, c, was)
    modifies fd`indexNode, fd.fs, fd.fs.indexBlockBytes, fd.fs.freeListBitBlock
    ensures status == 0 || status == -1
    ensures status == 0 ==> Wrote(fd, start, buf, c, was)
    ensures status == 0 && fd.fs.g.blockSize >= 1 && Rem(start + |buf|, fd.fs.g.blockSize) != 0 ==>
              Buffered(fd, start + |buf|)
    ensures status == -1 ==> FailedWrite(fd, start, buf, f, c, was)
  {
    assert fd.fs.g.blockSize >= 1 by {
      FileCells(fd);
    }
    hide *;
    if Rem(start + |buf|, fd.fs.g.blockSize) > 0 {
      status := FlushLast(fd, start, buf, f, target, last, c, was);
    } else {
      DoneAtBoundary(fd, start, buf, f, target, last, c, was);
      status := 0;
    }
  }

  // The last file block a write of len bytes touches.
  function LastTouched(start: nat, len: nat, n: nat): nat
    requires n >= 1
  {
    if len > 0 then Quot(start + len - 1, n) else Quot(start, n)
  }

  lemma LastTouchedIs(start: nat, len: nat, n: nat)
    requires n >= 1
    ensures LastTouched(start, len, n) == if len > 0 then Quot(start + len - 1, n) else Quot(start, n)
  {
  }

  // A write of no bytes: within a block, whatever is in the buffer goes over that block.
  ghost predicate WroteNothing(fd: FileDescriptor, start: nat, stale: Block,
                               c: seq<Block>, was: Snapshot)
    reads fd`indexNode, fd.fs, fd.fs.freeListBitBlock, fd.fs.indexBlockBytes
  {
    && Kept(fd, was)
    && fd.indexNode.size == Larger(was.node.size, start)
    && var n := fd.fs.g.blockSize;
    && (Rem(start, n) == 0 ==> fd.File() == c && fd.fs.used == was.used)
    && (Rem(start, n) > 0 ==> Quot(start, n) < |c| && fd.File() == c[Quot(start, n) := stale])
    && (Rem(start, n) > 0 ==> 0 <= Spare(fd.fs.g, was, start, 0) == Free(fd.fs.g, fd.fs.used))
  }

  lemma StaleTarget(file: seq<Block>, buffer: Block, q: nat)
    requires q < |file|
    ensures Lags(file, file[q := buffer], buffer, q)
  {
  }

  lemma WithinSlots(g: Geometry, at: nat)
    requires g.Valid() && Fits(g, at) && Rem(at, g.blockSize) > 0
    ensures Quot(at, g.blockSize) < Slots(g)
  {
    DivMod(at, g.blockSize);
    if Quot(at, g.blockSize) >= Slots(g) {
      TimesAtLeast(Quot(at, g.blockSize), Slots(g), g.blockSize);
    }
  }

  // Kernel::write of no bytes within a block.
  method FlushStale(fd: FileDescriptor, start: nat, ghost c: seq<Block>,
                    ghost was: Snapshot) returns (status: int)
    requires fd.Valid() && fd.Now() == was && fd.File() == c
    requires Fits(fd.fs.g, start) && fd.fs.g.blockSize >= 1 && Rem(start, fd.fs.g.blockSize) > 0
    requires was.node.Shaped()
    requires Roomy(fd.fs.g, fd.indexNode, fd.fs.used, Quot(start, fd.fs.g.blockSize), Quot(start, fd.fs.g.blockSize))
    modifies fd`indexNode, fd.fs, fd.fs.indexBlockBytes, fd.fs.freeListBitBlock
    ensures status == 0 || status == -1
    ensures status == 0 ==> WroteNothing(fd, start, fd.bytes[..], c, was)
    ensures status == -1 ==> FailedWrite(fd, start, [], 0, c, was)
  {
    hide *;
    var q := Quot(start, fd.fs.g.blockSize);
    ghost var slack := Slack(fd.fs.g, was, q, q);
    KeptStart(fd);
    FileCells(fd);
    GeometryOf(fd);
    DescriptorParts(fd);
    WithinSlots(fd.fs.g, start);
    StaleTarget(c, fd.bytes[..], q);
    AheadOf(fd.fs.g, was, q, q);
    FileNow(fd);
    status := FlushBlock(fd, q, start, q, c[q := fd.bytes[..]], was, slack);
    KeptParts(fd, was);
    StaleDone(fd, start, fd.bytes[..], c, was, q, status);
  }

  lemma AheadOf(g: Geometry, s: Snapshot, q: nat, last: int)
    requires s.node.Shaped() && Roomy(g, s.node, s.used, q, last)
    ensures Ahead(g, s, q, last, Slack(g, s, q, last))
  {
  }

  lemma StaleDone(fd: FileDescriptor, start: nat, stale: Block, c: seq<Block>, was: Snapshot, q: nat, status: int)
    requires Kept(fd, was) && fd.Readable() && fd.fs.g.blockSize >= 1 && q == Quot(start, fd.fs.g.blockSize) < |c|
    requires Cells(c, fd.fs.g.blockSize) && Fits(fd.fs.g, start) && |c| == Slots(fd.fs.g)
    requires Rem(start, fd.fs.g.blockSize) > 0
    requires var slack := Slack(fd.fs.g, was, q, q);
             if status == 0 then
               && fd.File() == c[q := stale] && Ahead(fd.fs.g, fd.Now(), q + 1, q, slack)
               && fd.indexNode.size == Larger(was.node.size, start)
             else
               && fd.File() == c && fd.indexNode.size == was.node.size && DiskFull(fd.fs.g, fd.fs.used)
               && HoleAt(fd.fs.g, fd.indexNode, fd.fs.data, q) && slack < 0
    ensures status == 0 ==> WroteNothing(fd, start, stale, c, was)
    ensures status != 0 ==> FailedWrite(fd, start, [], 0, c, was)
  {
    if status == 0 {
      ValidFile(fd);
      GeometryOf(fd);
      FullIsNoneFree(fd.fs.g, fd.fs.used);
      SlackIs(fd.fs.g, fd.Now(), q + 1, q);
    }
    LastTouchedIs(start, 0, fd.fs.g.blockSize);
    SpliceNothing(c, fd.fs.g.blockSize, start);
    var none: seq<Byte> := [];
    assert start + 0 == start && none[..0] == none;
    hide FileDescriptor.Valid, FileDescriptor.File, Went, Roomy, Slack, Splice, Cells, Quot, Rem, DiskFull, Free,
      HoleAt, LastTouched, FilesOK, FileOK, Slots;
  }

  lemma SpliceNothing(c: seq<Block>, n: nat, start: nat)
    requires Cells(c, n) && start <= |c| * n
    ensures Splice(c, n, start, []) == c
  {
  }

  // Kernel::write of no bytes at a block boundary.
  method GrowOnly(fd: FileDescriptor, start: nat, ghost c: seq<Block>,
                  ghost was: Snapshot)
    requires fd.Valid() && fd.Now() == was && fd.File() == c
    requires Fits(fd.fs.g, start) && Rem(start, fd.fs.g.blockSize) == 0
    modifies fd`indexNode, fd.fs, fd.fs.indexBlockBytes
    ensures WroteNothing(fd, start, fd.bytes[..], c, was)
  {
    ValidFile(fd);
    hide FileDescriptor.Valid, FileDescriptor.File, Kept, Quot, Rem, Fits;
    GrowTo(fd, start);
  }

  // Kernel::write of at least one byte, up to the new offset.
  method WriteSome(fd: FileDescriptor, start: nat, buf: seq<Byte>, ghost c: seq<Block>,
                   ghost was: Snapshot)
    returns (status: int, ghost f: nat)
    requires fd.Valid() && fd.Now() == was && fd.File() == c
    requires |buf| > 0 && Fits(fd.fs.g, start + |buf|)
    requires Roomy(fd.fs.g, fd.indexNode, fd.fs.used, Quot(start, fd.fs.g.blockSize),
                   Quot(start + |buf| - 1, fd.fs.g.blockSize))
    modifies fd.bytes, fd`indexNode, fd.fs, fd.fs.indexBlockBytes, fd.fs.freeListBitBlock
    ensures status == 0 || status == -1
    ensures status == 0 ==> Wrote(fd, start, buf, c, was)
    ensures status == 0 && fd.fs.g.blockSize >= 1 && Rem(start + |buf|, fd.fs.g.blockSize) != 0 ==>
              Buffered(fd, start + |buf|)
    ensures status == -1 ==> FailedWrite(fd, start, buf, f, c, was)
  {
    ghost var last := Quot(start + |buf| - 1, fd.fs.g.blockSize);
    InFlightStart(fd, start, buf, last);
    hide *;
    ghost var target: seq<Block>;
    status, f, target := CopyIn(fd, start, buf, last, c, was);
    if status == 0 {
      status := Finish(fd, start, buf, f, target, last, c, was);
    }
  }

  // A write succeeds when there were as many free blocks as it needs.
  lemma Verdict(fd: FileDescriptor, start: nat, buf: seq<Byte>, f: nat, c: seq<Block>, was: Snapshot, stale: Block,
                status: int)
    requires fd.fs.g.blockSize >= 1
    requires if status < 0 then FailedWrite(fd, start, buf, f, c, was)
             else if |buf| > 0 then Wrote(fd, start, buf, c, was)
             else WroteNothing(fd, start, stale, c, was)
    requires |buf| == 0 && Rem(start, fd.fs.g.blockSize) == 0 ==> status >= 0
    ensures status >= 0 <==> (|buf| == 0 && Rem(start, fd.fs.g.blockSize) == 0) ||
                             Spare(fd.fs.g, was, start, |buf|) >= 0
  {
    hide Spare, Splice, Went, FileDescriptor.File, Quot, Rem, Cells;
  }

  // Kernel::write. The bytes go into the file at the offset, the size covers them, and no other
  // file changes; a write that fails left a prefix of the bytes and the disk full; a write of no
  // bytes within a block puts the stale buffer over that block.
  method Write(fd: FileDescriptor, buf: seq<Byte>) returns (writeCount: int, ghost f: nat)
    requires fd.Valid() && Fits(fd.fs.g, fd.offset + |buf|)
    requires Roomy(fd.fs.g, fd.indexNode, fd.fs.used, Quot(fd.offset, fd.fs.g.blockSize),
                   LastTouched(fd.offset, |buf|, fd.fs.g.blockSize))
    modifies fd`offset, fd.bytes, fd`indexNode, fd.fs, fd.fs.indexBlockBytes, fd.fs.freeListBitBlock
    ensures writeCount == |buf| || writeCount == -1
    ensures fd.offset == if writeCount >= 0 then old(fd.offset) + |buf| else old(fd.offset)
    ensures writeCount >= 0 && |buf| > 0 ==>
              Wrote(fd, old(fd.offset), buf, old(fd.File()), old(fd.Now()))
    ensures writeCount >= 0 && |buf| == 0 ==>
              WroteNothing(fd, old(fd.offset), old(fd.bytes[..]), old(fd.File()), old(fd.Now()))
    ensures writeCount < 0 ==>
              FailedWrite(fd, old(fd.offset), buf, f, old(fd.File()), old(fd.Now()))
    ensures fd.fs.g.blockSize >= 1
    ensures writeCount >= 0 <==> (|buf| == 0 && Rem(old(fd.offset), fd.fs.g.blockSize) == 0) ||
                                 Spare(fd.fs.g, old(fd.Now()), old(fd.offset), |buf|) >= 0
    ensures writeCount > 0 && Rem(fd.offset, fd.fs.g.blockSize) != 0 ==> Buffered(fd, fd.offset)
  {
    hide *;
    FileNow(fd);
    GeometryOf(fd);
    KeptStart(fd);
    LastTouchedIs(fd.offset, |buf|, fd.fs.g.blockSize);
    var start := fd.offset;
    ghost var c, was := fd.File(), fd.Now();
    var status := 0;
    f := 0;
    if |buf| > 0 {
      status, f := WriteSome(fd, start, buf, c, was);
    } else if Rem(start, fd.fs.g.blockSize) > 0 {
      status := FlushStale(fd, start, c, was);
    } else {
      GrowOnly(fd, start, c, was);
    }
    Verdict(fd, start, buf, f, c, was, old(fd.bytes[..]), status);
    if status < 0 {
      return -1, f;
    }
    fd.offset := start + |buf|;
    writeCount := |buf|;
  }

  // ----- a file as a string of bytes -----

  // Beyond its size a file reads as zeros, as a file that only Write has changed does.
  ghost predicate ZeroTail(c: seq<Block>, n: nat, size: int) {
    forall p: nat :: size <= p < |c| * n ==> ByteAt(c, n, p) == 0
  }

  // The file a user sees.
  function FileString(c: seq<Block>, n: nat, size: nat): seq<Byte> {
    Bytes(c, n, 0, size)
  }

  function Padded(s: seq<Byte>, len: nat): (r: seq<Byte>)
    ensures |r| == Larger(|s|, len) && s <= r
    ensures forall i :: |s| <= i < |r| ==> r[i] == 0
  {
    if len <= |s| then s else s + Zeros(len - |s|)
  }

  // What a write should do to a string: extend it with zeros as far as needed, replace the bytes.
  function StringWrite(s: seq<Byte>, at: nat, buf: seq<Byte>): (r: seq<Byte>)
    ensures |r| == Larger(|s|, at + |buf|)
  {
    var p := Padded(s, at + |buf|);
    p[..at] + buf + p[at + |buf|..]
  }

  lemma StringWriteAt(s: seq<Byte>, at: nat, buf: seq<Byte>, i: nat)
    requires i < |StringWrite(s, at, buf)|
    ensures StringWrite(s, at, buf)[i] ==
            if at <= i < at + |buf| then buf[i - at] else if i < |s| then s[i] else 0
  {
  }

  lemma SpliceKeepsZeroTail(c: seq<Block>, n: nat, size: nat, start: nat, buf: seq<Byte>)
    requires Cells(c, n) && start + |buf| <= |c| * n && ZeroTail(c, n, size)
    ensures ZeroTail(Splice(c, n, start, buf), n, Larger(size, start + |buf|))
  {
    var c', size' := Splice(c, n, start, buf), Larger(size, start + |buf|);
    forall p: nat | size' <= p < |c'| * n
      ensures ByteAt(c', n, p) == 0
    {
      SpliceAt(c, n, start, buf, p);
    }
  }

  // The bytes a write jumps over beyond the old size.
  ghost predicate ZeroGap(c: seq<Block>, n: nat, size: nat, start: nat) {
    forall p: nat :: size <= p < start ==> ByteAt(c, n, p) == 0
  }

  // What Write does to the blocks is what a write should do to the string exactly when the bytes it
  // jumps over are zero; where all bytes beyond the size are, they stay so for the next write.
  lemma WriteRefinesString(c: seq<Block>, n: nat, size: nat, start: nat, buf: seq<Byte>)
    requires Cells(c, n) && start + |buf| <= |c| * n && size <= |c| * n
    ensures var c', size' := Splice(c, n, start, buf), Larger(size, start + |buf|);
            && (FileString(c', n, size') == StringWrite(FileString(c, n, size), start, buf)
                <==> ZeroGap(c, n, size, start))
            && (ZeroTail(c, n, size) ==> ZeroGap(c, n, size, start) && ZeroTail(c', n, size'))
  {
    var c', size' := Splice(c, n, start, buf), Larger(size, start + |buf|);
    if ZeroTail(c, n, size) {
      SpliceKeepsZeroTail(c, n, size, start, buf);
    }
    var s, t := FileString(c', n, size'), StringWrite(FileString(c, n, size), start, buf);
    forall i: nat | i < size'
      ensures s[i] == t[i] <==> (size <= i < start ==> ByteAt(c, n, i) == 0)
    {
      StringWriteAt(FileString(c, n, size), start, buf, i);
      SpliceAt(c, n, start, buf, i);
    }
    hide Splice, ByteAt, Cells, StringWrite, ZeroTail, FileString;
    if s == t {
      forall p: nat | size <= p < start
        ensures ByteAt(c, n, p) == 0
      {
        assert s[p] == t[p];
      }
    }
  }

  // So is a write that failed: a string write of the prefix it got to, if any.
  lemma FailedWriteRefinesString(c: seq<Block>, n: nat, size: nat, start: nat, buf: seq<Byte>, f: nat, size': nat)
    requires Cells(c, n) && start + |buf| <= |c| * n && size <= |c| * n
    requires f <= |buf| && Grown(size, size', start, f)
    ensures var c', s := Splice(c, n, start, buf[..f]), FileString(c, n, size);
            && (f == 0 ==> c' == c && size' == size)
            && (f > 0 ==> (FileString(c', n, size') == StringWrite(s, start, buf[..f]) <==> ZeroGap(c, n, size, start)))
            && (ZeroTail(c, n, size) ==> ZeroTail(c', n, size'))
  {
    if f > 0 {
      WriteRefinesString(c, n, size, start, buf[..f]);
    }
  }

  // Read returns the part of the string that the request covers.
  lemma ReadRefinesString(c: seq<Block>, n: nat, size: nat, start: nat, count: nat)
    ensures Bytes(c, n, start, ReadEnd(start, count, size)) ==
            (if start >= size then []
             else FileString(c, n, size)[start..ReadEnd(start, count, size)])
  {
  }

  // Reading back what was just written returns it.
  lemma ReadAfterWrite(c: seq<Block>, n: nat, size: nat, start: nat, buf: seq<Byte>)
    requires Cells(c, n) && start + |buf| <= |c| * n && |buf| > 0
    ensures var size' := Larger(size, start + |buf|);
            ReadEnd(start, |buf|, size') == start + |buf| &&
            Bytes(Splice(c, n, start, buf), n, start, ReadEnd(start, |buf|, size')) == buf
  {
    forall i | 0 <= i < |buf|
      ensures ByteAt(Splice(c, n, start, buf), n, start + i) == buf[i]
    {
      SpliceAt(c, n, start, buf, start + i);
    }
  }

  // Bytes a write did not cover are the bytes that were there.
  lemma ReadElsewhere(c: seq<Block>, n: nat, start: nat, buf: seq<Byte>, first: nat, end: nat)
    requires Cells(c, n) && start + |buf| <= |c| * n && first <= end <= |c| * n
    requires end <= start || start + |buf| <= first
    ensures Bytes(Splice(c, n, start, buf), n, first, end) == Bytes(c, n, first, end)
  {
    forall i | first <= i < end
      ensures ByteAt(Splice(c, n, start, buf), n, i) == ByteAt(c, n, i)
    {
      SpliceAt(c, n, start, buf, i);
    }
  }
}
