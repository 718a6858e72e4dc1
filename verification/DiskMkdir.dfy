/** mkdir: the main of mkdir.cc for one path, over a kernel that has just booted. The new directory gets its
    two entries by plain writes, its parent is looked for through the root as it was at boot, and the link
    counts come last. */
module DiskMkdir {
  import opened FsCodec
  import opened FsGeometry
  import opened FsFile
  import opened FsVolume
  import opened FsDescriptor
  import opened DirectoryEntries
  import opened FsDirectory
  import opened FsCells
  import opened FsView
  import opened FsPaths
  import opened LinkLaw
  import opened LinkPaths
  import opened DiskKernel
  import FsUnlink
  import K = FsKernel
  import T = FsTruncate

  // ----- a file of the disk has been written to -----

  // Writing to a regular file changes nothing the law is about.
  lemma FileEdited(g: Geometry, t1: Tables, t2: Tables, lost: set<nat>, root: IndexNode, n: nat)
    requires Facts(g, t1, lost, root) && n < |t1.inodes| == |t2.inodes| && !IsDir(t1.inodes[n])
    requires K.Went(g, Snapshot(t1.inodes, t1.used, t1.data, t1.inodes[n]),
                    Snapshot(t2.inodes, t2.used, t2.data, t2.inodes[n]), n)
    requires Owned(g, t2.used, t2.inodes, t2.data, Nobody(lost)) && t2.inodes[n].size >= 0
    requires K.Fits(g, t2.inodes[n].size)
    ensures Facts(g, t2, lost, root) && VolumeOf(g, t2) == VolumeOf(g, t1)
  {
    ShapeLinksDirs(g, t1);
    FileView(g, t1.inodes[n], t1.data);
    FileView(g, t2.inodes[n], t2.data);
    OnlyOneChanged(g, t1.inodes, t1.data, t2.inodes, t2.data, n);
    RootIsDir(VolumeOf(g, t1));
    LinksOf(g, t1);
    RootStays(g, t1, t2, n);
    hide OthersSame, BlocksStay, Lists, Shape, Owned, NodeView, NodeSound, OnlyChanged, K.Frozen;
    OneViewChanged(g, t1, t2, n);
    var count := |VolumeOf(g, t1)[0].entries|;
    CopyNext(g, root, t1.inodes[0], t1.data, count, t2.inodes[0], t2.data, count);
  }

  // Node x with a listing, where it is a directory.
  function WithEntries(v: Volume, x: nat, s: seq<Entry>): Volume
    requires x < |v|
  {
    if v[x].isDir then v[x := v[x].(entries := s)] else v
  }

  // What mkdir has written to node x so far is s, and else the disk holds v.
  ghost predicate WrittenTo(g: Geometry, t: Tables, lost: set<nat>, root: IndexNode, x: nat, node: IndexNode,
                            s: seq<Entry>, v: Volume)
  {
    && Facts(g, t, lost, root) && x < |v| == |t.inodes| && t.inodes[x] == node && Live(node)
    && VolumeOf(g, t) == WithEntries(v, x, s) && node.size == DIRECTORY_ENTRY_SIZE * |s| && IsDir(node) == v[x].isDir
    && DataShape(g, t.data) && NodeShape(g, node) && (IsDir(node) ==> Lists(g, node, t.data, s))
    && (|s| > 0 ==> InUse(g, node, t.data, 0))
  }

  lemma SmallWrite(g: Geometry, k: nat)
    requires g.Valid() && k <= 1
    ensures DIRECTORY_ENTRY_SIZE == 16 && g.blockSize >= 64
    ensures Quot(DIRECTORY_ENTRY_SIZE * k, g.blockSize) == 0 && BlockOf(g, k) == 0
    ensures Rem(DIRECTORY_ENTRY_SIZE * k, g.blockSize) == DIRECTORY_ENTRY_SIZE * k
    ensures K.LastTouched(DIRECTORY_ENTRY_SIZE * k, DIRECTORY_ENTRY_SIZE, g.blockSize) == 0
    ensures K.Fits(g, DIRECTORY_ENTRY_SIZE * (k + 1)) && K.Fits(g, DIRECTORY_ENTRY_SIZE * k) && K.Fits(g, 0)
    ensures Slots(g) > 0
  {
    QuotRemOf(DIRECTORY_ENTRY_SIZE * k, g.blockSize, 0, DIRECTORY_ENTRY_SIZE * k);
    QuotRemOf(DIRECTORY_ENTRY_SIZE * k + DIRECTORY_ENTRY_SIZE - 1, g.blockSize, 0,
              DIRECTORY_ENTRY_SIZE * k + DIRECTORY_ENTRY_SIZE - 1);
    hide Quot, Rem;
    TimesAtLeast(Slots(g), 1, g.blockSize);
  }

  lemma SmallIsRoomy(g: Geometry, node: IndexNode, used: set<nat>)
    requires node.Shaped()
    ensures K.Roomy(g, node, used, 0, 0)
  {
  }

  // A write of a cell that did not get anywhere got nowhere.
  lemma NoPrefix(g: Geometry, k: nat, f: nat)
    requires g.Valid() && k <= 1 && f <= DIRECTORY_ENTRY_SIZE && K.Loads(DIRECTORY_ENTRY_SIZE * k, f, g.blockSize)
    ensures f == 0
  {
    SmallWrite(g, k);
    var at := DIRECTORY_ENTRY_SIZE * k + f;
    QuotRemOf(at, g.blockSize, 0, at);
    hide Quot, Rem, K.LastTouched, K.Fits, BlockOf, Slots, Geometry.Valid;
  }

  lemma CellNotZero(c: seq<Block>, n: nat, at: nat, e: Entry)
    requires K.Cells(c, n) && Quot(at, n) < |c| && Rem(at, n) + DIRECTORY_ENTRY_SIZE <= n && e.Fits() && e.name != []
    ensures at + |CellBytes(e)| <= |c| * n && K.Splice(c, n, at, CellBytes(e))[Quot(at, n)] != Zeros(n)
  {
    SpliceInBlock(c, n, at, CellBytes(e));
    CellRoundTrip(c[Quot(at, n)], Rem(at, n), e);
    hide Patch, CellBytes, K.Splice, Quot, Rem;
    NotZeros(Patch(c[Quot(at, n)], Rem(at, n), CellBytes(e)), Rem(at, n) + 2);
  }

  // A cell has been written.
  lemma CellWritten(g: Geometry, t1: Tables, t2: Tables, lost: set<nat>, root: IndexNode, x: nat, s: seq<Entry>,
                    e: Entry, v: Volume)
    requires x < |t1.inodes| == |t2.inodes| == g.NodeCount() && WrittenTo(g, t1, lost, root, x, t1.inodes[x], s, v)
    requires |s| <= 1 && e.Fits() && e.name != [] && Sorted(s + [e]) && InRange(s + [e], |v|)
    requires K.Went(g, Snapshot(t1.inodes, t1.used, t1.data, t1.inodes[x]),
                    Snapshot(t2.inodes, t2.used, t2.data, t2.inodes[x]), x)
    requires Owned(g, t2.used, t2.inodes, t2.data, Nobody(lost))
    requires t2.inodes[x].size == DIRECTORY_ENTRY_SIZE * (|s| + 1)
    requires DataShape(g, t2.data) && NodeShape(g, t2.inodes[x])
    requires var c := Contents(g, t1.inodes[x], t1.data);
             && K.Cells(c, g.blockSize) && DIRECTORY_ENTRY_SIZE * |s| + DIRECTORY_ENTRY_SIZE <= |c| * g.blockSize
             && Contents(g, t2.inodes[x], t2.data) == K.Splice(c, g.blockSize, DIRECTORY_ENTRY_SIZE * |s|, CellBytes(e))
    ensures WrittenTo(g, t2, lost, root, x, t2.inodes[x], s + [e], v)
  {
    var c := Contents(g, t1.inodes[x], t1.data);
    hide *;
    WrittenParts(g, t1, lost, root, x, t1.inodes[x], s, v);
    SmallWrite(g, |s|);
    WentParts(g, Snapshot(t1.inodes, t1.used, t1.data, t1.inodes[x]),
              Snapshot(t2.inodes, t2.used, t2.data, t2.inodes[x]), x);
    FileIsCells(g, t1.inodes[x], t1.data);
    CellNotZero(c, g.blockSize, DIRECTORY_ENTRY_SIZE * |s|, e);
    NotZeroInUse(g, t2.inodes[x], t2.data, 0);
    if IsDir(t1.inodes[x]) {
      ListsHolds(g, t1.inodes[x], t1.data, s);
      CellAppended(g, t1.inodes[x], t1.data, t2.inodes[x], t2.data, s, e);
      HoldsLists(g, t2.inodes[x], t2.data, s + [e]);
      EditedNow(g, t1, t2, x, s + [e], lost);
      ViewIsWith(g, t1, lost, root, x, s, v);
      DirectoryEdited(g, t1, t2, lost, root, x, s + [e]);
    } else {
      FileEdited(g, t1, t2, lost, root, x);
    }
    WrittenAgain(g, t1, t2, lost, root, x, s, s + [e], v);
  }

  lemma ListsHolds(g: Geometry, node: IndexNode, data: seq<Block>, s: seq<Entry>)
    requires Lists(g, node, data, s)
    ensures Holding(g, node, data, s)
  {
  }

  lemma HoldsLists(g: Geometry, node: IndexNode, data: seq<Block>, s: seq<Entry>)
    requires Holding(g, node, data, s) && node.size == DIRECTORY_ENTRY_SIZE * |s|
    ensures Lists(g, node, data, s)
  {
  }

  lemma EditedNow(g: Geometry, t1: Tables, t2: Tables, d: nat, s: seq<Entry>, lost: set<nat>)
    requires d < |t1.inodes| == |t2.inodes| == g.NodeCount()
    requires K.Went(g, Snapshot(t1.inodes, t1.used, t1.data, t1.inodes[d]),
                    Snapshot(t2.inodes, t2.used, t2.data, t2.inodes[d]), d)
    requires Owned(g, t2.used, t2.inodes, t2.data, Nobody(lost)) && Lists(g, t2.inodes[d], t2.data, s)
    ensures Edited(g, t1, t2, d, s, lost)
  {
    hide K.Went, Owned, Lists;
  }

  lemma WrittenParts(g: Geometry, t: Tables, lost: set<nat>, root: IndexNode, x: nat, node: IndexNode, s: seq<Entry>,
                     v: Volume)
    requires WrittenTo(g, t, lost, root, x, node, s, v)
    ensures Facts(g, t, lost, root) && g.Valid() && x < |v| == |t.inodes| && t.inodes[x] == node && Live(node)
    ensures VolumeOf(g, t) == WithEntries(v, x, s) && node.size == DIRECTORY_ENTRY_SIZE * |s|
    ensures IsDir(node) == v[x].isDir
    ensures DataShape(g, t.data) && NodeShape(g, node) && (IsDir(node) ==> Lists(g, node, t.data, s))
    ensures |s| > 0 ==> InUse(g, node, t.data, 0)
  {
    hide Facts, WithEntries, VolumeOf, Lists, InUse;
  }

  lemma ViewIsWith(g: Geometry, t: Tables, lost: set<nat>, root: IndexNode, x: nat, s: seq<Entry>, v: Volume)
    requires x < |t.inodes| && WrittenTo(g, t, lost, root, x, t.inodes[x], s, v) && IsDir(t.inodes[x])
    ensures VolumeOf(g, t)[x].entries == s && |VolumeOf(g, t)| == |t.inodes|
  {
    hide Facts, Lists, InUse;
  }

  lemma WentParts(g: Geometry, was: Snapshot, now: Snapshot, n: nat)
    requires K.Went(g, was, now, n)
    ensures BlocksStay(g, was.node, was.data, now.node, now.data) && K.SameFile(was.node, now.node)
    ensures now.node.nlink == was.node.nlink && now.node.mode == was.node.mode
    ensures Live(now.node) == Live(was.node) && IsDir(now.node) == IsDir(was.node)
  {
    hide BlocksStay, OthersSame, K.Frozen;
  }

  // The next state of mkdir's writing.
  lemma WrittenAgain(g: Geometry, t1: Tables, t2: Tables, lost: set<nat>, root: IndexNode, x: nat, s: seq<Entry>,
                     s': seq<Entry>, v: Volume)
    requires x < |t1.inodes| == |t2.inodes| && WrittenTo(g, t1, lost, root, x, t1.inodes[x], s, v)
    requires Facts(g, t2, lost, root) && t2.inodes[x].size == DIRECTORY_ENTRY_SIZE * |s'| && Live(t2.inodes[x])
    requires IsDir(t2.inodes[x]) == IsDir(t1.inodes[x]) && DataShape(g, t2.data) && NodeShape(g, t2.inodes[x])
    requires if IsDir(t2.inodes[x])
             then Lists(g, t2.inodes[x], t2.data, s') && |VolumeOf(g, t1)| == |t1.inodes|
                  && VolumeOf(g, t2) == VolumeOf(g, t1)[x := VolumeOf(g, t1)[x].(entries := s')]
             else VolumeOf(g, t2) == VolumeOf(g, t1)
    requires |s'| > 0 ==> InUse(g, t2.inodes[x], t2.data, 0)
    ensures WrittenTo(g, t2, lost, root, x, t2.inodes[x], s', v)
  {
    hide Facts, Lists, InUse, VolumeOf;
  }

  // ----- writing the two entries -----

  // The new file is open, and s has been written to it.
  ghost predicate Writing(k: Kernel, fd: FileDescriptor, x: nat, s: seq<Entry>, v: Volume)
    reads k.fs, k.fs.freeListBitBlock, k.fs.indexBlockBytes, fd
  {
    && fd.fs == k.fs && fd.Valid() && fd.held == Nobody(k.lost) && fd.indexNodeNumber == x
    && fd.offset == DIRECTORY_ENTRY_SIZE * |s|
    && WrittenTo(k.fs.g, Tables(k.fs.used, k.fs.inodes, k.fs.data), k.lost, k.root, x, fd.indexNode, s, v)
  }

  lemma WritingParts(k: Kernel, fd: FileDescriptor, x: nat, s: seq<Entry>, v: Volume)
    requires Writing(k, fd, x, s, v)
    ensures fd.fs == k.fs && fd.Valid() && fd.held == Nobody(k.lost) && fd.indexNodeNumber == x
    ensures fd.offset == DIRECTORY_ENTRY_SIZE * |s| && k.Running()
    ensures WrittenTo(k.fs.g, Tables(k.fs.used, k.fs.inodes, k.fs.data), k.lost, k.root, x, fd.indexNode, s, v)
    ensures fd.Now() == Snapshot(k.fs.inodes, k.fs.used, k.fs.data, fd.indexNode)
    ensures fd.bytes != k.fs.freeListBitBlock && fd.bytes != k.fs.indexBlockBytes
    ensures Opens(k.fs, x, fd.indexNode, fd.held) && fd.Readable() && fd.indexNode.Shaped()
  {
    RunningAgain(k, Tables(k.fs.used, k.fs.inodes, k.fs.data));
    hide WrittenTo, Leads, Ownership;
  }

  // Mode, owner and group.
  predicate SameOwner(node: IndexNode, node': IndexNode) {
    node'.mode == node.mode && node'.uid == node.uid && node'.gid == node.gid
  }

  lemma SameOwnerIs(node: IndexNode, node': IndexNode)
    ensures SameOwner(node, node') <==> node'.mode == node.mode && node'.uid == node.uid && node'.gid == node.gid
  {
  }

  // The state after a write to the new file.
  lemma AfterWrite(k: Kernel, fd: FileDescriptor, x: nat, was: Snapshot)
    requires fd.fs == k.fs && fd.held == Nobody(k.lost) && fd.indexNodeNumber == x < |was.files|
    requires was.files[x] == was.node
    requires K.Kept(fd, was)
    ensures fd.Valid() && x < |k.fs.inodes| == |was.files| && k.fs.inodes[x] == fd.indexNode
    ensures |k.fs.inodes| == k.fs.g.NodeCount()
    ensures K.Went(k.fs.g, was, Snapshot(k.fs.inodes, k.fs.used, k.fs.data, fd.indexNode), x)
    ensures Owned(k.fs.g, k.fs.used, k.fs.inodes, k.fs.data, Nobody(k.lost))
    ensures fd.File() == Contents(k.fs.g, fd.indexNode, k.fs.data)
    ensures DataShape(k.fs.g, k.fs.data) && NodeShape(k.fs.g, fd.indexNode)
    ensures OnlyChanged(k.fs.g, was.files, was.data, k.fs.inodes, k.fs.data, {x}) && SameOwner(was.node, fd.indexNode)
  {
    assert fd.Files() == k.fs.inodes;
    K.KeptParts(fd, was);
    FsLengths(k.fs.g, was.files, was.data, fd.Files(), k.fs.data, x);
    OnlyOneChanged(k.fs.g, was.files, was.data, k.fs.inodes, k.fs.data, x);
    hide K.Went, Ownership, Leads, OthersSame;
  }

  lemma FsLengths(g: Geometry, inodes: seq<IndexNode>, data: seq<Block>, inodes': seq<IndexNode>, data': seq<Block>,
                  n: nat)
    requires OthersSame(g, inodes, data, inodes', data', n)
    ensures |inodes'| == |inodes|
  {
    hide Untouched;
  }

  lemma WroteParts(fd: FileDescriptor, start: nat, buf: seq<Byte>, c: seq<Block>, was: Snapshot)
    requires K.Wrote(fd, start, buf, c, was)
    ensures K.Kept(fd, was) && fd.Readable() && K.Cells(c, fd.fs.g.blockSize)
    ensures start + |buf| <= |c| * fd.fs.g.blockSize
    ensures fd.File() == K.Splice(c, fd.fs.g.blockSize, start, buf)
    ensures fd.indexNode.size == K.Larger(was.node.size, start + |buf|)
    ensures K.Free(fd.fs.g, fd.fs.used) == K.Spare(fd.fs.g, was, start, |buf|)
  {
    hide K.Splice, K.Went, K.Spare;
  }

  lemma FailedParts(fd: FileDescriptor, start: nat, buf: seq<Byte>, f: nat, c: seq<Block>, was: Snapshot)
    requires K.FailedWrite(fd, start, buf, f, c, was)
    ensures K.Kept(fd, was) && DiskFull(fd.fs.g, fd.fs.used) && f <= |buf| && K.Loads(start, f, fd.fs.g.blockSize)
    ensures fd.fs.g.Valid()
    ensures f == 0 ==> fd.indexNode.size == was.node.size
    ensures f == 0 && fd.fs.g.blockSize >= 1 && Quot(start, fd.fs.g.blockSize) == 0 ==>
              K.HoleAt(fd.fs.g, fd.indexNode, fd.fs.data, 0)
  {
    assert start + 0 == start;
    hide K.Splice, K.Went, FileDescriptor.File, K.Roomy, K.Spare;
  }

  // The state after a write that failed.
  lemma CellFailed(g: Geometry, t1: Tables, t2: Tables, lost: set<nat>, root: IndexNode, x: nat, s: seq<Entry>,
                   v: Volume)
    requires x < |t1.inodes| == |t2.inodes| == g.NodeCount() && WrittenTo(g, t1, lost, root, x, t1.inodes[x], s, v)
    requires |s| <= 1
    requires K.Went(g, Snapshot(t1.inodes, t1.used, t1.data, t1.inodes[x]),
                    Snapshot(t2.inodes, t2.used, t2.data, t2.inodes[x]), x)
    requires Owned(g, t2.used, t2.inodes, t2.data, Nobody(lost)) && t2.inodes[x].size == t1.inodes[x].size
    requires K.HoleAt(g, t2.inodes[x], t2.data, 0)
    ensures s == [] && WrittenTo(g, t2, lost, root, x, t2.inodes[x], s, v)
  {
    hide *;
    WrittenParts(g, t1, lost, root, x, t1.inodes[x], s, v);
    SmallWrite(g, |s|);
    var was := Snapshot(t1.inodes, t1.used, t1.data, t1.inodes[x]);
    WentParts(g, was, Snapshot(t2.inodes, t2.used, t2.data, t2.inodes[x]), x);
    NoHoleHere(g, was.node, was.data, t2.inodes[x], t2.data);
    assert s == [];
    if IsDir(t1.inodes[x]) {
      ListsNothing(g, t2.inodes[x], t2.data);
      EditedNow(g, t1, t2, x, s, lost);
      ViewIsWith(g, t1, lost, root, x, s, v);
      NothingSorted(|t1.inodes|);
      DirectoryEdited(g, t1, t2, lost, root, x, s);
    } else {
      FileEdited(g, t1, t2, lost, root, x);
    }
    WrittenAgain(g, t1, t2, lost, root, x, s, s, v);
  }

  lemma NothingSorted(limit: nat)
    ensures Sorted([]) && InRange([], limit)
  {
  }

  lemma ListsNothing(g: Geometry, node: IndexNode, data: seq<Block>)
    requires DataShape(g, data) && NodeShape(g, node) && node.size == 0 && K.Fits(g, 0)
    ensures Lists(g, node, data, [])
  {
  }

  lemma NoHoleHere(g: Geometry, node: IndexNode, data: seq<Block>, node': IndexNode, data': seq<Block>)
    requires BlocksStay(g, node, data, node', data') && K.HoleAt(g, node', data', 0)
    ensures DataShape(g, data) && NodeShape(g, node) && DataShape(g, data') && NodeShape(g, node')
    ensures !InUse(g, node, data, 0)
  {
    hide Address;
  }

  // Kernel::write of one entry at the end of what has been written.
  method PutCell(k: Kernel, fd: FileDescriptor, x: nat, e: Entry, ghost s: seq<Entry>, ghost v: Volume)
    returns (count: int)
    requires Writing(k, fd, x, s, v) && |s| <= 1 && e.Fits() && e.name != [] && Sorted(s + [e]) && InRange(s + [e], |v|)
    modifies fd.bytes, fd`offset, fd`indexNode, k.fs, k.fs.indexBlockBytes, k.fs.freeListBitBlock
    ensures count == DIRECTORY_ENTRY_SIZE || count == -1
    ensures count > 0 ==> Writing(k, fd, x, s + [e], v)
    ensures count < 0 ==> s == [] && Writing(k, fd, x, s, v) && DiskFull(k.fs.g, k.fs.used)
    ensures count > 0 <==> HasRoom(k.fs.g, old(fd.indexNode), old(k.fs.data), old(k.fs.used), |s|)
    ensures |k.fs.used| == |old(k.fs.used)| + if count > 0 then Taken(k.fs.g, old(fd.indexNode), old(k.fs.data), |s|)
                                              else 0
    ensures OnlyChanged(k.fs.g, old(k.fs.inodes), old(k.fs.data), k.fs.inodes, k.fs.data, {x})
    ensures SameOwner(old(fd.indexNode), fd.indexNode)
  {
    hide *;
    EntrySize();
    ghost var g, t1, was := k.fs.g, Tables(k.fs.used, k.fs.inodes, k.fs.data), fd.Now();
    WritingParts(k, fd, x, s, v);
    WrittenParts(g, t1, k.lost, k.root, x, fd.indexNode, s, v);
    SmallWrite(g, |s|);
    SmallIsRoomy(g, fd.indexNode, k.fs.used);
    K.FileNow(fd);
    K.ValidFile(fd);
    CellSpare(g, was, |s|);
    ghost var c := fd.File();
    ghost var f: nat;
    count, f := K.Write(fd, CellBytes(e));
    if count >= 0 {
      WroteParts(fd, DIRECTORY_ENTRY_SIZE * |s|, CellBytes(e), c, was);
      AfterWrite(k, fd, x, was);
      K.LargerIs(was.node.size, DIRECTORY_ENTRY_SIZE * |s| + DIRECTORY_ENTRY_SIZE);
      CellWritten(g, t1, Tables(k.fs.used, k.fs.inodes, k.fs.data), k.lost, k.root, x, s, e, v);
      CountOfFree(g, was.used, k.fs.used, Taken(g, was.node, was.data, |s|));
      WritingAgain(k, fd, x, s + [e], v);
    } else {
      FailedParts(fd, DIRECTORY_ENTRY_SIZE * |s|, CellBytes(e), f, c, was);
      NoPrefix(g, |s|, f);
      AfterWrite(k, fd, x, was);
      CellFailed(g, t1, Tables(k.fs.used, k.fs.inodes, k.fs.data), k.lost, k.root, x, s, v);
      FullStays(g, was, Snapshot(k.fs.inodes, k.fs.used, k.fs.data, fd.indexNode), x, |s|);
      WritingAgain(k, fd, x, s, v);
    }
  }

  // What a write of one cell needs: a block, where the file has none yet.
  lemma CellSpare(g: Geometry, was: Snapshot, k: nat)
    requires g.Valid() && k <= 1 && DataShape(g, was.data) && NodeShape(g, was.node)
    requires forall d :: d in was.used ==> d < g.DataCount()
    ensures var spare := K.Spare(g, was, DIRECTORY_ENTRY_SIZE * k, DIRECTORY_ENTRY_SIZE);
            && spare == K.Free(g, was.used) - Taken(g, was.node, was.data, k)
            && (spare >= 0 <==> HasRoom(g, was.node, was.data, was.used, k))
  {
    SmallWrite(g, k);
    K.FullIsNoneFree(g, was.used);
    K.HolesFrom(g, was.node, was.data, 0, 0);
    hide DiskFull, Address, Quot, Rem, BlockOf, K.LastTouched, K.Free;
  }

  lemma CountOfFree(g: Geometry, used: set<nat>, used': set<nat>, taken: nat)
    ensures K.Free(g, used') == K.Free(g, used) - taken <==> |used'| == |used| + taken
  {
  }

  // Without room the disk was full, so nothing has been taken.
  lemma FullStays(g: Geometry, was: Snapshot, now: Snapshot, n: nat, k: nat)
    requires K.Went(g, was, now, n) && !HasRoom(g, was.node, was.data, was.used, k) && g.Valid()
    ensures now.used == was.used
  {
    hide OthersSame, BlocksStay, DiskFull, InUse;
  }

  lemma WritingAgain(k: Kernel, fd: FileDescriptor, x: nat, s: seq<Entry>, v: Volume)
    requires fd.fs == k.fs && fd.Valid() && fd.held == Nobody(k.lost) && fd.indexNodeNumber == x
    requires fd.offset == DIRECTORY_ENTRY_SIZE * |s|
    requires WrittenTo(k.fs.g, Tables(k.fs.used, k.fs.inodes, k.fs.data), k.lost, k.root, x, fd.indexNode, s, v)
    ensures Writing(k, fd, x, s, v)
  {
  }

  // The new file as creat leaves it.
  lemma WritingStart(k: Kernel, fd: FileDescriptor, x: nat, node: IndexNode, v: Volume)
    requires k.Running() && fd.fs == k.fs && fd.Readable() && fd.held == Nobody(k.lost) && fd.indexNodeNumber == x
    requires fd.offset == 0 && fd.indexNode == node && x < |k.fs.inodes| && node == k.fs.inodes[x] && Live(node)
    requires node.size == 0 && k.View() == v
    ensures Writing(k, fd, x, [], v) && WithEntries(v, x, []) == v
  {
    RunningParts(k);
    var t := Tables(k.fs.used, k.fs.inodes, k.fs.data);
    DirectoryIs(k.fs.g, t, k.lost, x);
    NodeFits(k.fs.g, t, k.lost, x);
    OwnersHere(fd);
    if IsDir(node) {
      assert v[x].entries == [];
    }
    hide Facts, Lists, InUse, VolumeOf, Ownership, Leads, FileOK, Sound, AllSound, Shape;
  }

  lemma OwnersHere(fd: FileDescriptor)
    ensures fd.held.Nobody? ==> Owners(fd.fs.inodes, fd.held) == fd.fs.inodes
  {
  }

  lemma NodeFits(g: Geometry, t: Tables, lost: set<nat>, x: nat)
    requires Sound(g, t, lost) && x < |t.inodes| && Live(t.inodes[x])
    ensures DataShape(g, t.data) && NodeShape(g, t.inodes[x]) && g.Valid() && |t.inodes| == g.NodeCount()
    ensures Owned(g, t.used, t.inodes, t.data, Nobody(lost)) && FileOK(g, t.inodes[x], t.data)
  {
    assert t.inodes == Owners(t.inodes, Nobody(lost));
  }

  // Looking for the parent leaves the new file alone.
  lemma WritingStill(k: Kernel, fd: FileDescriptor, x: nat, s: seq<Entry>, v: Volume, t: Tables)
    requires k.Running() && fd.fs == k.fs && fd.held == Nobody(k.lost) && fd.indexNodeNumber == x
    requires fd.offset == DIRECTORY_ENTRY_SIZE * |s| && t == Tables(k.fs.used, k.fs.inodes, k.fs.data)
    requires fd.bytes.Length == fd.fs.g.blockSize && fd.indexNode.size >= 0
    requires fd.bytes != fd.fs.freeListBitBlock && fd.bytes != fd.fs.indexBlockBytes
    requires Registered(k.fs.g, k.fs.inodes, k.fs.data, x, fd.indexNode, k.fs.used, fd.held)
    requires WrittenTo(k.fs.g, t, k.lost, k.root, x, fd.indexNode, s, v)
    ensures Writing(k, fd, x, s, v)
  {
    RunningParts(k);
    hide Registered, WrittenTo, Facts;
    ValidAgain(fd);
  }

  // ----- the recorded parent has links -----

  ghost predicate AllLinked(v: Volume, s: seq<Entry>) {
    forall i :: 0 <= i < |s| ==> 0 <= s[i].ino < |v| && v[s[i].ino].nlink != 0
  }

  ghost predicate NamedLinked(v: Volume) {
    forall m: nat :: m < |v| && v[m].isDir ==> AllLinked(v, v[m].entries)
  }

  lemma LookupLinked(v: Volume, s: seq<Entry>, name: Name)
    requires AllLinked(v, s)
    ensures Lookup(s, name) == -1 || (0 <= Lookup(s, name) < |v| && v[Lookup(s, name)].nlink != 0)
  {
  }

  lemma {:induction false} WalkLinked(v: Volume, d: int, path: Path)
    requires NamedLinked(v) && (d == -1 || (0 <= d < |v| && v[d].nlink != 0))
    ensures Walk(v, d, path) == -1 || (0 <= Walk(v, d, path) < |v| && v[Walk(v, d, path)].nlink != 0)
    decreases |path|
  {
    if path != [] && IsDirectory(v, d) {
      LookupLinked(v, v[d].entries, path[0]);
      WalkLinked(v, Lookup(v[d].entries, path[0]), path[1..]);
    }
  }

  lemma InvNamedLinked(v: Volume)
    requires Inv(v)
    ensures NamedLinked(v)
  {
    forall m: nat | m < |v| && v[m].isDir
      ensures AllLinked(v, v[m].entries)
    {
      var s := v[m].entries;
      assert NodeOK(v[m], |v|);
      forall i | 0 <= i < |s|
        ensures v[s[i].ino].nlink != 0
      {
        assert Inos(s)[i] == s[i].ino;
        CountAtLeast(v, m, s[i].ino, |v|);
      }
    }
  }

  lemma SelfNamedLinked(v: Volume, path: Path, x: nat)
    requires Inv(v) && Missing(v, path) && x < |v| && v[x].nlink == 0
    ensures NamedLinked(SelfNamed(v, path, x))
  {
    CreatedKeepsInv(v, path, x, true);
    NewDirectory(v, path, x);
    InvNamedLinked(Created(v, path, x, true));
    hide Created, Inv, NamedLinked, Missing, NodeOK;
    OneMoreLinked(Created(v, path, x, true), x);
  }

  lemma OneMoreLinked(v1: Volume, x: nat)
    requires NamedLinked(v1) && x < |v1| && x < 0x8000 && v1[x] == Inode(1, true, [])
    ensures NamedLinked(v1[x := Inode(1, true, [Entry(x, DOT)])])
  {
    var v2 := v1[x := Inode(1, true, [Entry(x, DOT)])];
    forall m: nat | m < |v2| && v2[m].isDir
      ensures AllLinked(v2, v2[m].entries)
    {
      assert m != x ==> AllLinked(v1, v1[m].entries);
    }
  }

  lemma RecordedIsLinked(v: Volume, v2: Volume, path: Path)
    requires path != [] && |v| == |v2| > 0 && |v[0].entries| <= |v2[0].entries| && NamedLinked(v2)
    requires v2[0].isDir && v2[0].nlink != 0
    ensures 0 <= RecordedParent(v, v2, path) < |v| && v2[RecordedParent(v, v2, path)].nlink != 0
  {
    var cached := v2[0].entries[..|v[0].entries|];
    var up := if |path| == 1 then [ROOT_NAME] else path[..|path| - 1];
    assert AllLinked(v2, v2[0].entries);
    LookupLinked(v2, cached, up[0]);
    WalkLinked(v2, Lookup(cached, up[0]), up[1..]);
  }

  // ----- link counts -----

  lemma RelinkedView(g: Geometry, node: IndexNode, data: seq<Block>, nlink: Short)
    requires DataShape(g, data) && FileOK(g, node, data) && Live(node) && nlink != 0
    ensures NodeView(g, node.(nlink := nlink), data) == NodeView(g, node, data).(nlink := nlink)
    ensures NodeSound(g, node, data) ==> NodeSound(g, node.(nlink := nlink), data)
  {
    SameSlots(g, node, node.(nlink := nlink), data);
    if IsDir(node) && NodeSound(g, node, data) {
      RelinkedLists(g, node, data, nlink, NodeView(g, node, data).entries);
    }
    hide Lists, Listing, Contents, Address, Owns;
  }

  lemma RelinkedLists(g: Geometry, node: IndexNode, data: seq<Block>, nlink: Short, s: seq<Entry>)
    requires Lists(g, node, data, s) && FileOK(g, node, data)
    ensures Lists(g, node.(nlink := nlink), data, s)
  {
    SameSlots(g, node, node.(nlink := nlink), data);
    hide Listing, Contents, Address, Owns;
  }

  // Another link count in the table.
  lemma LinksSet(g: Geometry, t: Tables, lost: set<nat>, x: nat, nlink: Short)
    requires Sound(g, t, lost) && DirsLinked(t.inodes) && x < |t.inodes| && Live(t.inodes[x]) && nlink != 0
    ensures var t' := t.(inodes := t.inodes[x := t.inodes[x].(nlink := nlink)]);
            && t.inodes[x].(nlink := nlink).Storable() && t.inodes[x].(nlink := nlink).Shaped()
            && Sound(g, t', lost) && DirsLinked(t'.inodes)
            && VolumeOf(g, t') == VolumeOf(g, t)[x := VolumeOf(g, t)[x].(nlink := nlink)]
  {
    var t' := t.(inodes := t.inodes[x := t.inodes[x].(nlink := nlink)]);
    NodeFits(g, t, lost, x);
    T.Relinked(g, t.used, t.inodes, t.data, x, nlink, lost);
    RelinkedView(g, t.inodes[x], t.data, nlink);
    OnlyOneChanged(g, t.inodes, t.data, t'.inodes, t.data, x);
    hide NodeView, NodeSound, Owned, OnlyChanged, OthersSame, FileOK;
    OneViewChanged(g, t, t', x);
  }

  lemma RelinkedKept(g: Geometry, t: Tables, lost: set<nat>, x: nat, nlink: Short)
    requires Sound(g, t, lost) && x < |t.inodes| && Live(t.inodes[x]) && nlink != 0
    ensures FilesKept(g, t.inodes, t.data, t.inodes[x := t.inodes[x].(nlink := nlink)], t.data, {})
  {
    assert forall m: nat :: m < |t.inodes| && Live(t.inodes[m]) ==>
        FileOK(g, Owners(t.inodes, Nobody(lost))[m], t.data);
    hide FileOK, AllSound;
  }

  // mkdir's update of one link count.
  method SetLinks(fs: FileSystem, x: nat, node: IndexNode, nlink: Short, ghost lost: set<nat>)
    requires fs.Valid() && Sound(fs.g, Tables(fs.used, fs.inodes, fs.data), lost) && DirsLinked(fs.inodes)
    requires x < |fs.inodes| == fs.g.NodeCount() && node == fs.inodes[x] && Live(node) && nlink != 0
    modifies fs, fs.indexBlockBytes
    ensures fs.Valid() && Sound(fs.g, Tables(fs.used, fs.inodes, fs.data), lost) && DirsLinked(fs.inodes)
    ensures |fs.inodes| == |old(fs.inodes)| && fs.used == old(fs.used)
    ensures var v := VolumeOf(fs.g, Tables(old(fs.used), old(fs.inodes), old(fs.data)));
            && |v| == |fs.inodes|
            && VolumeOf(fs.g, Tables(fs.used, fs.inodes, fs.data)) == v[x := v[x].(nlink := nlink)]
    ensures FilesKept(fs.g, old(fs.inodes), old(fs.data), fs.inodes, fs.data, {})
    ensures fs.inodes == old(fs.inodes)[x := node.(nlink := nlink)]
  {
    hide *;
    RelinkedKept(fs.g, Tables(fs.used, fs.inodes, fs.data), lost, x, nlink);
    VolumeSize(fs.g, Tables(fs.used, fs.inodes, fs.data));
    LinksSet(fs.g, Tables(fs.used, fs.inodes, fs.data), lost, x, nlink);
    fs.WriteIndexNode(node.(nlink := nlink), x);
  }

  // ----- the whole of it, on volumes -----

  // What creat has made of v for mkdir.
  ghost predicate Began(v: Volume, path: Path, x: int, ok: bool, v1: Volume) {
    && Inv(v) && 0 <= x < |v| && Fresh(v, path, x)
    && if Missing(v, path) then v1 == (if ok then Created(v, path, x, true) else CreatedShort(v, path, x, true))
       else IsFile(v, path) && x == Target(v, path) && v1 == v && ok
  }

  lemma BeganNow(v: Volume, path: Path, x: int, ok: bool, v1: Volume)
    requires Inv(v) && 0 <= x < |v| < 0x8000 && (ok || Missing(v, path))
    requires IsFile(v, path) || Missing(v, path)
    requires IsFile(v, path) ==> x == Target(v, path) && v1 == v
    requires Missing(v, path) ==>
               v[x].nlink == 0 && v1 == if ok then Created(v, path, x, true) else CreatedShort(v, path, x, true)
    ensures Began(v, path, x, ok, v1) && path != [] && |v1| == |v|
  {
    hide Inv, Created, CreatedShort, Target;
  }

  lemma GaveUp(v: Volume, path: Path, x: int, ok: bool, v1: Volume)
    requires Began(v, path, x, ok, v1)
    ensures Shape(v) && Fresh(v, path, x) && v1 == MkdirResult(v, path, x, if ok then NoBlock else NoEntry)
  {
    hide Created, CreatedShort, Target, Missing, IsFile;
  }

  // The volume when mkdir looks for the parent.
  lemma SelfIs(v: Volume, path: Path, x: int, v1: Volume)
    requires Began(v, path, x, true, v1)
    ensures |v1| == |v| < 0x8000 && path != []
    ensures var v2 := WithEntries(v1, x, [Entry(x, DOT)]);
            && |v2| == |v| > 0 && v2 == (if Missing(v, path) then SelfNamed(v, path, x) else v)
            && NamedLinked(v2) && v2[0].isDir && v2[0].nlink != 0 && |v[0].entries| <= |v2[0].entries|
    ensures v1[x].isDir == Missing(v, path) && forall y :: 0 <= y < |v1| ==> v1[y].nlink >= 0
  {
    ShapeCounts(v);
    RootIsDir(v);
    if Missing(v, path) {
      NewDirectory(v, path, x);
      ParentCanBeRecorded(v, path, x);
      SelfNamedLinked(v, path, x);
      CreatedShape(v, path, x, true);
      ShapeCounts(v1);
      RootIsDir(v1);
      RootIsOther(v, x);
    } else {
      InvNamedLinked(v);
    }
    hide Created, Target, Missing, IsFile, NamedLinked, Inv, Shape, RecordedParent, NodeOK;
  }

  lemma ShapeCounts(v: Volume)
    requires Shape(v)
    ensures forall y :: 0 <= y < |v| ==> v[y].nlink >= 0
  {
    forall y | 0 <= y < |v|
      ensures v[y].nlink >= 0
    {
      assert NodeOK(v[y], |v|);
    }
  }

  lemma RootIsOther(v: Volume, x: nat)
    requires Shape(v) && x < |v| && v[x].nlink == 0
    ensures x != 0
  {
    RootIsDir(v);
  }

  function Up(path: Path): Path
    requires path != []
  {
    if |path| == 1 then [ROOT_NAME] else path[..|path| - 1]
  }

  lemma ParentIs(v: Volume, v2: Volume, path: Path, r: int)
    requires path != [] && |v| == |v2| > 0 && |v[0].entries| <= |v2[0].entries|
    requires r == Resolve(v2, First(v2, |v[0].entries|), Up(path))
    ensures RecordedParent(v, v2, path) == if r < 0 then 0 else r
  {
    hide Resolve;
  }

  // The volume at the end.
  lemma FinalView(v: Volume, path: Path, x: int, v1: Volume, p: nat)
    requires Began(v, path, x, true, v1) && |v1| == |v| < 0x8000 && p < |v| && path != [] && |v| > 0
    requires var v2 := if Missing(v, path) then SelfNamed(v, path, x) else v;
             |v[0].entries| <= |v2[0].entries| && p == RecordedParent(v, v2, path)
    requires forall y :: 0 <= y < |v| ==> v[y].nlink < 0x7FFF
    requires v1[p].nlink > 0
    ensures Shape(v)
    ensures var w := WithEntries(v1, x, Dots(x, p));
            var w1 := w[x := w[x].(nlink := 2)];
            && 0 < w1[p].nlink + 1 < 0x8000
            && w1[p := w1[p].(nlink := w1[p].nlink + 1)] == MkdirResult(v, path, x, Enough)
  {
    hide *;
    BeganCases(v, path, x, v1);
    if Missing(v, path) {
      NewDirectory(v, path, x);
      WithDots(v1, x, p);
      NewResultIs(v, path, x);
      var w1 := v1[x := Inode(2, true, Dots(x, p))];
      AddLinksIs(w1, p);
      if p != x {
        OtherLinks(v, path, x, p);
      }
    } else {
      FileResultIs(v, path);
      WithoutDots(v, x, Dots(x, p));
      AddLinksIs(v[x := v[x].(nlink := 2)], p);
    }
  }

  lemma BeganCases(v: Volume, path: Path, x: int, v1: Volume)
    requires Began(v, path, x, true, v1)
    ensures Inv(v) && Shape(v) && 0 <= x < |v| < 0x8000 && path != [] && |v| > 0
    ensures Missing(v, path) ==> v[x].nlink == 0 && v1 == Created(v, path, x, true)
    ensures !Missing(v, path) ==> IsFile(v, path) && x == Target(v, path) && v1 == v && !v[x].isDir
  {
    hide Created, CountsLinks, DirsReachable, Parent, Last;
  }

  lemma WithDots(v1: Volume, x: nat, p: nat)
    requires x < |v1| && x < 0x8000 && p < 0x8000 && v1[x] == Inode(1, true, [])
    ensures var w := WithEntries(v1, x, Dots(x, p));
            |w| == |v1| && w[x := w[x].(nlink := 2)] == v1[x := Inode(2, true, Dots(x, p))]
  {
    hide Dots;
  }

  lemma WithoutDots(v: Volume, x: nat, s: seq<Entry>)
    requires x < |v| && !v[x].isDir
    ensures WithEntries(v, x, s) == v
  {
  }

  lemma AddLinksIs(v: Volume, p: nat)
    requires p < |v|
    ensures AddLinks(v, p, 1) == v[p := v[p].(nlink := v[p].nlink + 1)]
  {
  }

  lemma NewResultIs(v: Volume, path: Path, x: nat)
    requires Inv(v) && Shape(v) && Missing(v, path) && x < |v| && v[x].nlink == 0 && path != []
    ensures |v| < 0x8000 && Fresh(v, path, x) && |v[0].entries| <= |SelfNamed(v, path, x)[0].entries|
    ensures var p := RecordedParent(v, SelfNamed(v, path, x), path);
            && 0 <= p < |v|
            && MkdirResult(v, path, x, Enough)
               == AddLinks(Created(v, path, x, true)[x := Inode(2, true, Dots(x, p))], p, 1)
  {
    ParentCanBeRecorded(v, path, x);
    hide Inv, NodeOK, SelfNamed, Missing, Parent, Dots, Created, RecordedParent;
  }

  lemma FileResultIs(v: Volume, path: Path)
    requires Inv(v) && Shape(v) && !Missing(v, path) && IsFile(v, path) && path != []
    ensures 0 <= RecordedParent(v, v, path) < |v| && Fresh(v, path, Target(v, path)) && Target(v, path) < |v|
    ensures var x, p := Target(v, path), RecordedParent(v, v, path);
            MkdirResult(v, path, x, Enough) == AddLinks(v[x := v[x].(nlink := 2)], p, 1)
  {
    RecordedInRange(v, v, path);
    hide Inv, NodeOK, Missing, Parent, RecordedParent;
  }

  lemma OtherLinks(v: Volume, path: Path, x: nat, y: nat)
    requires Shape(v) && Missing(v, path) && x < |v| && y < |v| && y != x
    ensures Created(v, path, x, true)[y].nlink == v[y].nlink
  {
  }

  // ----- mkdir -----

  lemma DotFits(x: nat, p: nat)
    requires x < 0x8000 && p < 0x8000
    ensures Entry(x, DOT).Fits() && Entry(p, DOT_DOT).Fits() && DOT != [] && DOT_DOT != []
    ensures [] + [Entry(x, DOT)] == [Entry(x, DOT)] && [Entry(x, DOT)] + [Entry(p, DOT_DOT)] == Dots(x, p)
    ensures Sorted([Entry(x, DOT)]) && Sorted(Dots(x, p))
    ensures forall n :: x < n && p < n ==> InRange([Entry(x, DOT)], n) && InRange(Dots(x, p), n)
  {
    assert Less(DOT, DOT_DOT);
    hide Less;
    assert [Entry(x, DOT)] + [Entry(p, DOT_DOT)] == Dots(x, p);
  }

  // The name and the directory's mode.
  lemma DirectoryMode()
    ensures S_IFDIR == 0x4000
  {
  }

  // The second half of mkdir: the entry "..", and the two link counts.
  method RecordParent(k: Kernel, fd: FileDescriptor, x: nat, path: Path, ghost v: Volume, ghost v1: Volume)
    requires Began(v, path, x, true, v1) && |v1| == |v| && x < |v| < 0x8000 && path != []
    requires Writing(k, fd, x, [Entry(x, DOT)], v1) && CountOf(k.root) == |v[0].entries|
    requires forall y :: 0 <= y < |v| ==> v[y].nlink < 0x7FFF
    modifies fd.bytes, fd`offset, fd`indexNode, k.fs, k.fs.indexBlockBytes, k.fs.freeListBitBlock
    ensures k.fs.Valid() && Sound(k.fs.g, Tables(k.fs.used, k.fs.inodes, k.fs.data), k.lost)
    ensures Shape(v) && Fresh(v, path, x)
    ensures VolumeOf(k.fs.g, Tables(k.fs.used, k.fs.inodes, k.fs.data)) == MkdirResult(v, path, x, Enough)
    ensures FilesKept(k.fs.g, old(k.fs.inodes), old(k.fs.data), k.fs.inodes, k.fs.data, {x})
    ensures |k.fs.used| == |old(k.fs.used)|
    ensures x < |k.fs.inodes| && SameOwner(old(fd.indexNode), k.fs.inodes[x])
  {
    hide *;
    EntrySize();
    ghost var s1, t := [Entry(x, DOT)], Tables(k.fs.used, k.fs.inodes, k.fs.data);
    WritingParts(k, fd, x, s1, v1);
    DescriptorParts(fd);
    WrittenParts(k.fs.g, t, k.lost, k.root, x, fd.indexNode, s1, v1);
    SelfIs(v, path, x, v1);
    RunningParts(k);
    var p, parent := k.FindIndexNode(Up(path));
    RunningParts(k);
    ParentIs(v, k.View(), path, p);
    RecordedIsLinked(v, k.View(), path);
    if p < 0 {
      p := 0; // the number an unfilled Stat has
    }
    StillLinked(v, k.View(), x, s1, v1, p);
    WritingStill(k, fd, x, s1, v1, t);
    DotFits(x, p);
    NothingTaken(k.fs.g, fd.indexNode, k.fs.data);
    var count := PutCell(k, fd, x, Entry(p, DOT_DOT), s1, v1);
    UnchangedIsKept(k.fs.g, t.inodes, t.data, k.fs.inodes, k.fs.data, {x});
    WritingParts(k, fd, x, s1 + [Entry(p, DOT_DOT)], v1);
    DescriptorParts(fd);
    ghost var inodes2, data2 := k.fs.inodes, k.fs.data;
    UpdateLinks(k, x, p, path, v, v1, fd.indexNode);
    SameOwnerIs(old(fd.indexNode), fd.indexNode);
    SameOwnerIs(fd.indexNode, k.fs.inodes[x]);
    SameOwnerIs(old(fd.indexNode), k.fs.inodes[x]);
    FilesKeptNext(k.fs.g, t.inodes, t.data, inodes2, data2, k.fs.inodes, k.fs.data, {x}, {});
    AndNone({x});
  }

  lemma AndNone(s: set<nat>)
    ensures s + {} == s
  {
  }

  // The second cell is in a block that is there.
  lemma NothingTaken(g: Geometry, node: IndexNode, data: seq<Block>)
    requires g.Valid() && DataShape(g, data) && NodeShape(g, node) && InUse(g, node, data, 0)
    ensures Taken(g, node, data, 1) == 0
  {
    SmallWrite(g, 1);
  }

  // What is known when the entries are in.
  lemma EntriesIn(g: Geometry, t: Tables, lost: set<nat>, root: IndexNode, x: nat, node: IndexNode, s: seq<Entry>,
                  v: Volume)
    requires WrittenTo(g, t, lost, root, x, node, s, v)
    ensures Sound(g, t, lost) && DirsLinked(t.inodes) && x < |t.inodes| == g.NodeCount() && Live(t.inodes[x])
    ensures |v| == |t.inodes| && VolumeOf(g, t) == WithEntries(v, x, s)
    ensures forall y :: 0 <= y < |t.inodes| ==> (Live(t.inodes[y]) <==> VolumeOf(g, t)[y].nlink != 0)
  {
    ShapeLinksDirs(g, t);
    LinksOf(g, t);
    hide Lists, InUse, CopyOf, Owned, AllSound, WithEntries, Shape;
  }

  lemma StillLinked(v: Volume, v2: Volume, x: nat, s: seq<Entry>, v1: Volume, p: nat)
    requires x < |v1| && v2 == WithEntries(v1, x, s) && p < |v1|
    ensures |v2| == |v1| && v2[p].nlink == v1[p].nlink
  {
  }

  method UpdateLinks(k: Kernel, x: nat, p: nat, path: Path, ghost v: Volume, ghost v1: Volume, ghost node: IndexNode)
    requires Began(v, path, x, true, v1) && |v1| == |v| && x < |v| < 0x8000 && p < |v| && path != [] && k.fs.Valid()
    requires WrittenTo(k.fs.g, Tables(k.fs.used, k.fs.inodes, k.fs.data), k.lost, k.root, x, node, Dots(x, p), v1)
    requires v1[p].nlink > 0 && forall y :: 0 <= y < |v| ==> v[y].nlink < 0x7FFF
    requires var v2 := if Missing(v, path) then SelfNamed(v, path, x) else v;
             |v| > 0 && |v[0].entries| <= |v2[0].entries| && p == RecordedParent(v, v2, path)
    modifies k.fs, k.fs.indexBlockBytes
    ensures k.fs.Valid() && Sound(k.fs.g, Tables(k.fs.used, k.fs.inodes, k.fs.data), k.lost)
    ensures Shape(v) && Fresh(v, path, x)
    ensures VolumeOf(k.fs.g, Tables(k.fs.used, k.fs.inodes, k.fs.data)) == MkdirResult(v, path, x, Enough)
    ensures FilesKept(k.fs.g, old(k.fs.inodes), old(k.fs.data), k.fs.inodes, k.fs.data, {})
    ensures k.fs.used == old(k.fs.used)
    ensures x < |k.fs.inodes| && SameOwner(node, k.fs.inodes[x])
  {
    hide *;
    ghost var inodes0, data0 := k.fs.inodes, k.fs.data;
    EntriesIn(k.fs.g, Tables(k.fs.used, k.fs.inodes, k.fs.data), k.lost, k.root, x, node, Dots(x, p), v1);
    WrittenParts(k.fs.g, Tables(k.fs.used, k.fs.inodes, k.fs.data), k.lost, k.root, x, node, Dots(x, p), v1);
    StillLinked(v, WithEntries(v1, x, Dots(x, p)), x, Dots(x, p), v1, p);
    FinalView(v, path, x, v1, p);
    GaveUpParts(v, path, x, v1);
    var self := k.fs.ReadIndexNode(x);
    SetLinks(k.fs, x, self, 2, k.lost);
    ghost var inodes1, data1 := k.fs.inodes, k.fs.data;
    LinksOf(k.fs.g, Tables(k.fs.used, k.fs.inodes, k.fs.data));
    var parent := k.fs.ReadIndexNode(p);
    T.LiveHasLinks(parent);
    SetLinks(k.fs, p, parent, parent.nlink + 1, k.lost);
    FilesKeptNext(k.fs.g, inodes0, data0, inodes1, data1, k.fs.inodes, k.fs.data, {}, {});
    AndNone({});
    SameOwnerIs(node, k.fs.inodes[x]);
  }

  lemma GaveUpParts(v: Volume, path: Path, x: int, v1: Volume)
    requires Began(v, path, x, true, v1)
    ensures Shape(v) && Fresh(v, path, x) && Inv(v)
  {
    GaveUp(v, path, x, true, v1);
  }

  // The room mkdir finds. For a new name: none for the entry; room for the entry but no block for the directory to
  // begin in; or both. Over a file: a first block for the file it has emptied, or none.
  ghost function MkdirSpace(g: Geometry, t: Tables, path: Path): Space {
    var v := VolumeOf(g, t);
    if Missing(v, path) then
      if !HasRoomFor(g, t, path) then NoEntry
      else if K.Free(g, t.used) > TakenFor(g, t, path) then Enough
      else NoBlock
    else if IsFile(v, path) && !HasRoomOnceEmpty(g, t, Target(v, path)) then NoBlock
    else Enough
  }

  // The blocks mkdir of a new name takes.
  ghost function MkdirTakes(g: Geometry, t: Tables, path: Path): nat {
    TakenFor(g, t, path) + if MkdirSpace(g, t, path).Enough? then 1 else 0
  }

  // The files mkdir may change more of than the link count.
  function Touched(v: Volume, path: Path, x: nat): set<nat> {
    if Missing(v, path) && Parent(v, path) >= 0 then {Parent(v, path), x} else {x}
  }

  // mkdir has got past creat.
  ghost predicate MadeFrom(g: Geometry, was: Tables, now: Tables, path: Path, x: int) {
    var v := VolumeOf(g, was);
    && Shape(v) && Fresh(v, path, x) && 0 <= x < |v| && (Missing(v, path) || (IsFile(v, path) && x == Target(v, path)))
    && VolumeOf(g, now) == MkdirResult(v, path, x, MkdirSpace(g, was, path))
    && FilesKept(g, was.inodes, was.data, now.inodes, now.data, Touched(v, path, x))
    && (Missing(v, path) ==> |now.used| == |was.used| + MkdirTakes(g, was, path))
  }

  lemma MadeFromNow(g: Geometry, t0: Tables, t1: Tables, t2: Tables, path: Path, x: nat, ok: bool)
    requires AfterCreat(g, t0, t1, path, x, ok) && Shape(VolumeOf(g, t0)) && Fresh(VolumeOf(g, t0), path, x)
    requires FilesKept(g, t1.inodes, t1.data, t2.inodes, t2.data, {x})
    requires VolumeOf(g, t2) == MkdirResult(VolumeOf(g, t0), path, x, MkdirSpace(g, t0, path))
    requires |t2.used| == |t1.used| + if MkdirSpace(g, t0, path).Enough? then Taken(g, t1.inodes[x], t1.data, 0) else 0
    ensures MadeFrom(g, t0, t2, path, x)
  {
    FilesKeptNext(g, t0.inodes, t0.data, t1.inodes, t1.data, t2.inodes, t2.data, Touched(VolumeOf(g, t0), path, x),
                  {x});
    assert Touched(VolumeOf(g, t0), path, x) + {x} == Touched(VolumeOf(g, t0), path, x);
    hide FilesKept, VolumeOf, MkdirResult, MkdirSpace, Taken, TakenFor, Shape, Began;
  }

  // What creat has done for mkdir: the volume, the frame, and whether the first cell will go in.
  ghost predicate AfterCreat(g: Geometry, t0: Tables, t1: Tables, path: Path, x: nat, ok: bool) {
    var v := VolumeOf(g, t0);
    && Began(v, path, x, ok, VolumeOf(g, t1)) && x < |t1.inodes| && path != []
    && (Missing(v, path) || (IsFile(v, path) && x == Target(v, path)))
    && FilesKept(g, t0.inodes, t0.data, t1.inodes, t1.data, Touched(v, path, x))
    && (HasRoom(g, t1.inodes[x], t1.data, t1.used, 0) <==> MkdirSpace(g, t0, path).Enough?)
    && (MkdirSpace(g, t0, path).Enough? ==> ok)
    && (!MkdirSpace(g, t0, path).Enough? ==> MkdirSpace(g, t0, path) == if ok then NoBlock else NoEntry)
    && (Missing(v, path) ==>
          |t1.used| == |t0.used| + TakenFor(g, t0, path) && Taken(g, t1.inodes[x], t1.data, 0) == 1)
  }

  lemma AfterCreatParts(g: Geometry, t0: Tables, t1: Tables, path: Path, x: nat, ok: bool)
    requires AfterCreat(g, t0, t1, path, x, ok)
    ensures Began(VolumeOf(g, t0), path, x, ok, VolumeOf(g, t1)) && x < |t1.inodes| && path != []
    ensures HasRoom(g, t1.inodes[x], t1.data, t1.used, 0) <==> MkdirSpace(g, t0, path).Enough?
    ensures MkdirSpace(g, t0, path).Enough? ==> ok
    ensures !MkdirSpace(g, t0, path).Enough? ==> MkdirSpace(g, t0, path) == if ok then NoBlock else NoEntry
  {
    hide Began, FilesKept, HasRoom, MkdirSpace, VolumeOf, Taken, TakenFor;
  }

  // A new file has no block.
  lemma NewFirstBlock(g: Geometry, t: Tables, x: nat, mode: Short)
    requires DataShape(g, t.data) && x < |t.inodes| && t.inodes[x] == T.NewNode(mode)
    requires forall d :: d in t.used ==> d < g.DataCount()
    ensures HasRoom(g, t.inodes[x], t.data, t.used, 0) <==> K.Free(g, t.used) >= 1
    ensures Taken(g, t.inodes[x], t.data, 0) == 1 && K.Free(g, t.used) >= 0
  {
    FirstBlock(g);
    K.FullIsNoneFree(g, t.used);
    hide K.Free, DiskFull;
  }

  // Where the entry did not go in, the disk was full.
  lemma NoRoomIsFull(g: Geometry, t: Tables, path: Path)
    requires Missing(VolumeOf(g, t), path) && !HasRoomFor(g, t, path) && g.Valid()
    requires DataShape(g, t.data) && Parent(VolumeOf(g, t), path) < |t.inodes|
    requires NodeShape(g, t.inodes[Parent(VolumeOf(g, t), path)])
    requires forall d :: d in t.used ==> d < g.DataCount()
    ensures K.Free(g, t.used) == 0 && TakenFor(g, t, path) == 0
  {
    RoomForIs(g, t, path);
    K.FullIsNoneFree(g, t.used);
    hide K.Free, DiskFull, VolumeOf, InUse, HasRoomFor;
  }

  lemma NewNodeRoom(g: Geometry, t0: Tables, t1: Tables, path: Path, x: nat, lost: set<nat>)
    requires CreatedFrom(g, t0, t1, path, x, S_IFDIR) && Sound(g, t0, lost) && Inv(VolumeOf(g, t0)) && g.Valid()
    requires forall d :: d in t0.used ==> d < g.DataCount()
    requires forall d :: d in t1.used ==> d < g.DataCount()
    ensures AfterCreat(g, t0, t1, path, x, HasRoomFor(g, t0, path))
  {
    hide *;
    var v := VolumeOf(g, t0);
    NewNodeParts(g, t0, t1, path, x);
    ParentLive(g, t0, path);
    NodeFits(g, t0, lost, Parent(v, path));
    UnchangedIsKept(g, t0.inodes, t0.data, t1.inodes, t1.data, {Parent(v, path), x});
    KeptShape(g, t0, t1, {Parent(v, path), x});
    NewFirstBlock(g, t1, x, S_IFDIR);
    NoFileYet(v, path);
    if !HasRoomFor(g, t0, path) {
      NoRoomIsFull(g, t0, path);
    }
    SpaceOfNew(g, t0, path);
    BeganNow(v, path, x, HasRoomFor(g, t0, path), VolumeOf(g, t1));
    AfterCreatNow(g, t0, t1, path, x, HasRoomFor(g, t0, path));
  }

  lemma NewNodeParts(g: Geometry, t0: Tables, t1: Tables, path: Path, x: nat)
    requires CreatedFrom(g, t0, t1, path, x, S_IFDIR)
    ensures Missing(VolumeOf(g, t0), path) && path != [] && |t1.inodes| == |t0.inodes|
    ensures x < |VolumeOf(g, t0)| < 0x8000 && VolumeOf(g, t0)[x].nlink == 0
    ensures t1.inodes[x] == T.NewNode(S_IFDIR) && Parent(VolumeOf(g, t0), path) >= 0
    ensures OnlyChanged(g, t0.inodes, t0.data, t1.inodes, t1.data, {Parent(VolumeOf(g, t0), path), x})
    ensures Touched(VolumeOf(g, t0), path, x) == {Parent(VolumeOf(g, t0), path), x}
    ensures |t1.used| == |t0.used| + TakenFor(g, t0, path)
    ensures K.Free(g, t1.used) == K.Free(g, t0.used) - TakenFor(g, t0, path)
    ensures VolumeOf(g, t1) == if HasRoomFor(g, t0, path) then Created(VolumeOf(g, t0), path, x, true)
                               else CreatedShort(VolumeOf(g, t0), path, x, true)
  {
    hide OnlyChanged, HasRoomFor, TakenFor, T.NewNode, Created, CreatedShort, VolumeOf;
  }

  lemma KeptShape(g: Geometry, was: Tables, now: Tables, changed: set<nat>)
    requires FilesKept(g, was.inodes, was.data, now.inodes, now.data, changed)
    ensures DataShape(g, now.data)
  {
  }

  lemma SpaceOfNew(g: Geometry, t: Tables, path: Path)
    requires Missing(VolumeOf(g, t), path)
    ensures MkdirSpace(g, t, path) == if !HasRoomFor(g, t, path) then NoEntry
                                      else if K.Free(g, t.used) > TakenFor(g, t, path) then Enough
                                      else NoBlock
  {
    hide HasRoomFor, TakenFor, K.Free;
  }

  lemma AfterCreatNow(g: Geometry, t0: Tables, t1: Tables, path: Path, x: nat, ok: bool)
    requires var v := VolumeOf(g, t0);
             && Began(v, path, x, ok, VolumeOf(g, t1)) && x < |t1.inodes| && path != []
             && (Missing(v, path) || (IsFile(v, path) && x == Target(v, path)))
             && FilesKept(g, t0.inodes, t0.data, t1.inodes, t1.data, Touched(v, path, x))
    requires HasRoom(g, t1.inodes[x], t1.data, t1.used, 0) <==> MkdirSpace(g, t0, path).Enough?
    requires MkdirSpace(g, t0, path).Enough? ==> ok
    requires !MkdirSpace(g, t0, path).Enough? ==> MkdirSpace(g, t0, path) == if ok then NoBlock else NoEntry
    requires Missing(VolumeOf(g, t0), path) ==>
               |t1.used| == |t0.used| + TakenFor(g, t0, path) && Taken(g, t1.inodes[x], t1.data, 0) == 1
    ensures AfterCreat(g, t0, t1, path, x, ok)
  {
    hide Began, FilesKept, HasRoom, MkdirSpace, VolumeOf, Taken, TakenFor, Missing, IsFile, Target, Touched;
  }


  lemma ParentLive(g: Geometry, t: Tables, path: Path)
    requires Missing(VolumeOf(g, t), path) && Inv(VolumeOf(g, t))
    ensures 0 <= Parent(VolumeOf(g, t), path) < |t.inodes| && Live(t.inodes[Parent(VolumeOf(g, t), path)])
  {
    var v, d := VolumeOf(g, t), Parent(VolumeOf(g, t), path);
    assert NodeOK(v[d], |v|);
    LinksOf(g, t);
  }

  lemma EmptiedRoom(g: Geometry, t0: Tables, t1: Tables, path: Path, x: nat, lost: set<nat>)
    requires EmptiedFrom(g, t0, t1, path, lost) && Inv(VolumeOf(g, t0))
    requires IsFile(VolumeOf(g, t0), path) && x == Target(VolumeOf(g, t0), path)
    ensures AfterCreat(g, t0, t1, path, x, true)
  {
    var v := VolumeOf(g, t0);
    NotNew(v, path);
    OnlyOneChanged(g, t0.inodes, t0.data, t1.inodes, t1.data, x);
    UnchangedIsKept(g, t0.inodes, t0.data, t1.inodes, t1.data, {x});
    BeganNow(v, path, x, true, VolumeOf(g, t1));
    hide Began, FilesKept, OnlyChanged, HasRoom, HasRoomOnceEmpty, VolumeOf, Inv, Missing, IsFile, Target, OthersSame;
  }

  lemma NotNew(v: Volume, path: Path)
    requires IsFile(v, path) && Inv(v)
    ensures !Missing(v, path) && Target(v, path) < |v| < 0x8000
  {
  }

  lemma UsedInData(fs: FileSystem)
    requires fs.Valid()
    ensures forall d :: d in fs.used ==> d < fs.g.DataCount()
    ensures fs.g.Valid()
  {
  }

  // mkdir of one path. The exit status is 2 where creat refused, 4 where there was no room for the new directory's
  // first block; then the link counts are left as creat left them. Which it is, and the blocks taken, can be told
  // from the disk before.
  method Mkdir(k: Kernel, path: Path) returns (code: int, ghost x: int)
    requires k.Booted()
    requires Missing(k.View(), path) ==> Entry(0, Last(path)).Fits() && RoomAt(k.fs.g, k.fs.Now(), path)
    requires forall y :: 0 <= y < |k.View()| ==> k.View()[y].nlink < 0x7FFF
    modifies k.fs, k.fs.freeListBitBlock, k.fs.indexBlockBytes
    ensures k.fs.Valid() && Sound(k.fs.g, k.fs.Now(), k.lost)
    ensures code == 0 || code == 2 || code == 4
    ensures var v := old(k.View());
            && (code != 2 <==> IsFile(v, path) || (Missing(v, path) && HasFreeNode(v)))
            && (code == 2 ==> k.fs.Now() == old(k.fs.Now()))
            && (code != 2 ==>
                  && MadeFrom(k.fs.g, old(k.fs.Now()), k.fs.Now(), path, x)
                  && (code == 0 <==> MkdirSpace(k.fs.g, old(k.fs.Now()), path).Enough?))
    ensures code == 4 ==> DiskFull(k.fs.g, k.fs.used)
    ensures code != 2 ==>
              && 0 <= x < |k.fs.inodes| == |old(k.fs.inodes)|
              && var node := k.fs.inodes[x];
                 if Missing(old(k.View()), path) then node.mode == 0x4000 && node.uid == 0 && node.gid == 0
                 else SameOwner(old(k.fs.inodes)[x], node)
    ensures code == 0 && Missing(old(k.View()), path) ==>
              var v, v' := old(k.View()), k.View();
              && path != [] && |v| > 0 && |v'| == |v|
              && Walk(v', 0, path) == x && Walk(v', 0, path + [[46]]) == x
              && Walk(v', 0, path + [[46, 46]]) == ParentOf(v, path, x)
              && (forall y: nat :: y < |v| ==>
                    v'[y].nlink == (if y == x then 2 else v[y].nlink) + if y == ParentOf(v, path, x) then 1 else 0)
              && forall q: Path :: Walk(v, 0, q) != -1 ==> Walk(v', 0, q) == Walk(v, 0, q)
  {
    hide *;
    EntrySize();
    DirectoryMode();
    BootedParts(k);
    UsedInData(k.fs);
    ghost var g, t0, v := k.fs.g, k.fs.Now(), k.View();
    WholeRoot(g, t0, k.lost, k.root);
    FactsSound(g, t0, k.lost, k.root);
    var status, self, node := k.Creat(path, S_IFDIR);
    x := self;
    RunningParts(k);
    if status < 0 {
      return 2, x;
    }
    UsedInData(k.fs);
    ghost var t1, v1 := k.fs.Now(), k.View();
    ghost var ok := !Missing(v, path) || HasRoomFor(g, t0, path);
    if Missing(v, path) {
      NewNodeRoom(g, t0, t1, path, self, k.lost);
    } else {
      EmptiedRoom(g, t0, t1, path, self, k.lost);
    }
    AfterCreatParts(g, t0, t1, path, self, ok);
    GaveUp(v, path, self, ok, v1);
    NodeFits(g, t1, k.lost, self);
    NodeLeads(g, node, k.fs.data);
    var fd := new FileDescriptor(k.fs, self, node, Nobody(k.lost));
    WritingStart(k, fd, self, node, v1);
    DotFits(self, 0);
    var count := PutCell(k, fd, self, Entry(self, DOT), [], v1);
    UnchangedIsKept(g, t1.inodes, t1.data, k.fs.inodes, k.fs.data, {self});
    if count < 0 {
      WritingParts(k, fd, self, [], v1);
      WrittenParts(g, Tables(k.fs.used, k.fs.inodes, k.fs.data), k.lost, k.root, self, fd.indexNode, [], v1);
      RunningParts(k);
      MadeFromNow(g, t0, t1, k.fs.Now(), path, self, ok);
      SameOwnerIs(node, k.fs.inodes[self]);
      SameOwnerIs(t0.inodes[self], k.fs.inodes[self]);
      return 4, x;
    }
    ghost var node1 := fd.indexNode;
    SameOwnerIs(node, node1);
    ghost var inodes2, data2 := k.fs.inodes, k.fs.data;
    RecordParent(k, fd, self, path, v, v1);
    FsUnlink.TablesNow(k.fs);
    FilesKeptNext(g, t1.inodes, t1.data, inodes2, data2, k.fs.inodes, k.fs.data, {self}, {self});
    Twice(self);
    MadeFromNow(g, t0, t1, k.fs.Now(), path, self, ok);
    SameOwnerIs(node1, k.fs.inodes[self]);
    SameOwnerIs(t0.inodes[self], k.fs.inodes[self]);
    ViewIs(k);
    if Missing(v, path) {
      MadeFound(g, t0, k.fs.Now(), path, self);
    }
    return 0, x;
  }

  lemma MadeFound(g: Geometry, was: Tables, now: Tables, path: Path, x: int)
    requires MadeFrom(g, was, now, path, x) && Missing(VolumeOf(g, was), path) && MkdirSpace(g, was, path).Enough?
    ensures var v, v' := VolumeOf(g, was), VolumeOf(g, now);
            && path != [] && |v| > 0 && |v'| == |v|
            && Walk(v', 0, path) == x && Walk(v', 0, path + [[46]]) == x
            && Walk(v', 0, path + [[46, 46]]) == ParentOf(v, path, x)
            && (forall y: nat :: y < |v| ==>
                  v'[y].nlink == (if y == x then 2 else v[y].nlink) + if y == ParentOf(v, path, x) then 1 else 0)
            && forall q: Path :: Walk(v, 0, q) != -1 ==> Walk(v', 0, q) == Walk(v, 0, q)
  {
    MadeIsFound(VolumeOf(g, was), path, x);
    hide VolumeOf, Walk, Missing, MkdirSpace, MkdirResult, FilesKept, Touched, IsFile, Target, Shape, ParentOf,
      MkdirTakes;
  }

  lemma Twice(x: nat)
    ensures {x} + {x} == {x}
  {
  }

  lemma NodeLeads(g: Geometry, node: IndexNode, data: seq<Block>)
    requires DataShape(g, data) && FileOK(g, node, data)
    ensures Leads(g, node, data)
  {
    FileLeads(g, node, data);
  }
}
