/** A program that opens an existing file, seeks and writes: Kernel::open, lseek from the beginning, and one
    Kernel::write, over a kernel that has just booted. */
module DiskWrite {
  import opened FsCodec
  import opened FsGeometry
  import opened FsFile
  import opened FsVolume
  import opened FsDescriptor
  import opened DirectoryEntries
  import opened FsView
  import opened LinkLaw
  import opened DiskKernel
  import DiskMkdir
  import FsUnlink
  import K = FsKernel
  import T = FsTruncate

  // ----- what a write comes to -----

  // The blocks and the size of a file after a write to it. A write of no bytes within a block puts the buffer over
  // that block, and the buffer of a file just opened is all zeros.
  ghost predicate FileWritten(n: nat, c: seq<Block>, size: int, c': seq<Block>, size': int, offset: nat,
                              buf: seq<Byte>, status: int)
  {
    && K.Cells(c, n) && offset + |buf| <= |c| * n
    && if status < 0 then
         exists f: nat :: f <= |buf| && c' == K.Splice(c, n, offset, buf[..f]) && K.Grown(size, size', offset, f)
       else
         && size' == K.Larger(size, offset + |buf|)
         && if |buf| > 0 then c' == K.Splice(c, n, offset, buf)
            else if Rem(offset, n) == 0 then c' == c
            else Quot(offset, n) < |c| && c' == c[Quot(offset, n) := Zeros(n)]
  }

  // File n has been written to and no other file has changed. The write succeeds exactly where there were as many
  // free blocks as it needs; a write of no bytes at the start of a block needs none.
  ghost predicate WroteFile(g: Geometry, was: Tables, now: Tables, n: nat, offset: nat, buf: seq<Byte>, status: int) {
    && n < |was.inodes| == |now.inodes| && OnlyChanged(g, was.inodes, was.data, now.inodes, now.data, {n})
    && K.SameFile(was.inodes[n], now.inodes[n]) && g.blockSize >= 1
    && NodeShape(g, was.inodes[n]) && NodeShape(g, now.inodes[n])
    && FileWritten(g.blockSize, Contents(g, was.inodes[n], was.data), was.inodes[n].size,
                   Contents(g, now.inodes[n], now.data), now.inodes[n].size, offset, buf, status)
    && var spare := K.Spare(g, Snapshot(was.inodes, was.used, was.data, was.inodes[n]), offset, |buf|);
    && (status >= 0 <==> (|buf| == 0 && Rem(offset, g.blockSize) == 0) || spare >= 0)
    && (status >= 0 && |buf| > 0 ==> K.Free(g, now.used) == spare)
  }

  lemma WroteFileNow(g: Geometry, was: Tables, now: Tables, n: nat, offset: nat, buf: seq<Byte>, status: int)
    requires n < |was.inodes| == |now.inodes| && OnlyChanged(g, was.inodes, was.data, now.inodes, now.data, {n})
    requires K.SameFile(was.inodes[n], now.inodes[n]) && g.blockSize >= 1
    requires NodeShape(g, was.inodes[n]) && NodeShape(g, now.inodes[n])
    requires FileWritten(g.blockSize, Contents(g, was.inodes[n], was.data), was.inodes[n].size,
                         Contents(g, now.inodes[n], now.data), now.inodes[n].size, offset, buf, status)
    requires var spare := K.Spare(g, Snapshot(was.inodes, was.used, was.data, was.inodes[n]), offset, |buf|);
             && (status >= 0 <==> (|buf| == 0 && Rem(offset, g.blockSize) == 0) || spare >= 0)
             && (status >= 0 && |buf| > 0 ==> K.Free(g, now.used) == spare)
    ensures WroteFile(g, was, now, n, offset, buf, status)
  {
    hide OnlyChanged, FileWritten, K.Spare, K.Free, Contents;
  }

  // What K.Write says of the open file.
  lemma WriteParts(fd: FileDescriptor, offset: nat, buf: seq<Byte>, f: nat, c: seq<Block>, was: Snapshot, stale: Block,
                   status: int)
    requires fd.fs.g.blockSize >= 1 && K.Cells(c, fd.fs.g.blockSize)
    requires stale == Zeros(fd.fs.g.blockSize) && offset + |buf| <= |c| * fd.fs.g.blockSize
    requires if status < 0 then K.FailedWrite(fd, offset, buf, f, c, was)
             else if |buf| > 0 then K.Wrote(fd, offset, buf, c, was)
             else K.WroteNothing(fd, offset, stale, c, was)
    ensures K.Kept(fd, was) && fd.Readable() && fd.Valid()
    ensures FileWritten(fd.fs.g.blockSize, c, was.node.size, fd.File(), fd.indexNode.size, offset, buf, status)
    ensures status >= 0 && |buf| > 0 ==> K.Free(fd.fs.g, fd.fs.used) == K.Spare(fd.fs.g, was, offset, |buf|)
    ensures fd.indexNode.size <= K.Larger(was.node.size, offset + |buf|)
  {
    hide FileDescriptor.File, K.Splice, K.Cells, K.Went, K.Spare, K.Free, Quot, Rem, Opens, Leads;
  }

  // The file at the end of the path has room for the write in what its pointers can reach, and it does not come to
  // need an indirect block with just one block free for that.
  ghost predicate WriteFits(g: Geometry, t: Tables, path: Path, offset: nat, len: nat) {
    var v := VolumeOf(g, t);
    && g.Valid() && K.Fits(g, offset + len)
    && (IsFile(v, path) ==>
          && Target(v, path) < |t.inodes| && t.inodes[Target(v, path)].Shaped()
          && K.Roomy(g, t.inodes[Target(v, path)], t.used, Quot(offset, g.blockSize),
                     K.LastTouched(offset, len, g.blockSize)))
  }

  lemma WriteFitsParts(g: Geometry, t: Tables, path: Path, offset: nat, len: nat)
    requires WriteFits(g, t, path, offset, len)
    ensures g.Valid() && g.blockSize >= 1 && K.Fits(g, offset + len)
    ensures IsFile(VolumeOf(g, t), path) ==>
              var n := Target(VolumeOf(g, t), path);
              && n < |t.inodes| && t.inodes[n].Shaped()
              && K.Roomy(g, t.inodes[n], t.used, Quot(offset, g.blockSize), K.LastTouched(offset, len, g.blockSize))
  {
    hide VolumeOf, IsFile, Target, K.Fits, K.Roomy, K.LastTouched;
  }

  // Opening the file.
  lemma OpenForWrite(fd: FileDescriptor, t: Tables, lost: set<nat>, root: IndexNode)
    requires fd.Readable() && fd.held == Nobody(lost) && t == Tables(fd.fs.used, fd.fs.inodes, fd.fs.data)
    requires Facts(fd.fs.g, t, lost, root) && fd.indexNodeNumber < |t.inodes| == fd.fs.g.NodeCount()
    requires fd.indexNode == t.inodes[fd.indexNodeNumber] && Live(fd.indexNode) && fd.indexNode.size >= 0
    requires Owned(fd.fs.g, t.used, t.inodes, t.data, Nobody(lost))
    ensures fd.Valid() && fd.Now() == Snapshot(t.inodes, t.used, t.data, fd.indexNode)
    ensures fd.File() == Contents(fd.fs.g, fd.indexNode, fd.fs.data) && K.Cells(fd.File(), fd.fs.g.blockSize)
    ensures |fd.File()| == Slots(fd.fs.g)
    ensures DataShape(fd.fs.g, fd.fs.data) && NodeShape(fd.fs.g, fd.indexNode)
  {
    assert t.inodes == Owners(t.inodes, Nobody(lost));
    K.FileCells(fd);
    hide Ownership, Leads, Facts;
  }

  lemma FitsIs(g: Geometry, end: int)
    ensures K.Fits(g, end) <==> end <= Slots(g) * g.blockSize
  {
  }

  lemma SizeStillFits(g: Geometry, size: int, size': int, end: int)
    requires K.Fits(g, size) && K.Fits(g, end) && size' <= K.Larger(size, end)
    ensures K.Fits(g, size')
  {
  }

  lemma GrownSize(fd: FileDescriptor)
    requires fd.Valid()
    ensures fd.indexNode.size >= 0
  {
  }

  // Open the file at the end of the path, move to the offset, write. Where there is no file nothing happens.
  method WriteFile(k: Kernel, path: Path, offset: nat, buf: seq<Byte>) returns (status: int)
    requires k.Booted() && WriteFits(k.fs.g, k.fs.Now(), path, offset, |buf|)
    requires !IsDirectory(k.View(), Walk(k.View(), 0, path))
    modifies k.fs, k.fs.freeListBitBlock, k.fs.indexBlockBytes
    ensures k.fs.Valid() && Sound(k.fs.g, k.fs.Now(), k.lost) && k.View() == old(k.View())
    ensures status == |buf| || status == -1
    ensures !IsFile(old(k.View()), path) ==> status == -1 && k.fs.Now() == old(k.fs.Now())
    ensures IsFile(old(k.View()), path) ==>
              WroteFile(k.fs.g, old(k.fs.Now()), k.fs.Now(), Target(old(k.View()), path), offset, buf, status)
  {
    hide *;
    BootedParts(k);
    ghost var g, t0, v := k.fs.g, k.fs.Now(), k.View();
    WholeRoot(g, t0, k.lost, k.root);
    ResolveFresh(v, path);
    WriteFitsParts(g, t0, path, offset, |buf|);
    PathEnds(v, path);
    var n, node := k.FindIndexNode(path);
    RunningParts(k);
    NumberIs(g, t0, k.lost, k.root, n, node);
    if n < 0 {
      return -1;
    }
    FileIs(g, t0, k.lost, k.root, n);
    DiskMkdir.NodeFits(g, t0, k.lost, n);
    DiskMkdir.NodeLeads(g, node, k.fs.data);
    var fd := new FileDescriptor(k.fs, n, node, Nobody(k.lost));
    OpenForWrite(fd, t0, k.lost, k.root);
    FitsIs(g, offset + |buf|);
    fd.offset := offset;
    ghost var was, c, stale := fd.Now(), fd.File(), fd.bytes[..];
    ghost var f: nat;
    status, f := K.Write(fd, buf);
    WriteParts(fd, offset, buf, f, c, was, stale, status);
    DiskMkdir.AfterWrite(k, fd, n, was);
    ghost var t1 := Tables(k.fs.used, k.fs.inodes, k.fs.data);
    GrownSize(fd);
    DescriptorParts(fd);
    HoldsParts(fd.fs, n, fd.indexNode, fd.fs.used, fd.held);
    DiskMkdir.WentParts(g, was, Snapshot(t1.inodes, t1.used, t1.data, t1.inodes[n]), n);
    SizeStillFits(g, was.node.size, fd.indexNode.size, offset + |buf|);
    DiskMkdir.FileEdited(g, t0, t1, k.lost, k.root, n);
    RunningAgain(k, t1);
    WroteFileNow(g, t0, t1, n, offset, buf, status);
  }
}
