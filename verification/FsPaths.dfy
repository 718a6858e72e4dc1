/** Path lookup on the disk: directories read through copies of their index nodes, the root through the
    copy the kernel took at boot. */
module FsPaths {
  import opened FsCodec
  import opened FsGeometry
  import opened FsFile
  import opened FsVolume
  import opened FsDescriptor
  import opened DirectoryEntries
  import opened FsDirectory
  import opened FsView
  import opened LinkLaw
  import K = FsKernel
  import T = FsTruncate

  // ----- a copy of a directory's node, as old as it may be -----

  function CountOf(node: IndexNode): int {
    node.size / DIRECTORY_ENTRY_SIZE
  }

  // The blocks the copy leads to are still the directory's, and it has still as many entries.
  ghost predicate CopyOf(g: Geometry, copy: IndexNode, node: IndexNode, data: seq<Block>, count: nat) {
    && IsDir(copy) && BlocksStay(g, copy, data, node, data)
    && 0 <= CountOf(copy) <= count && copy.size == DIRECTORY_ENTRY_SIZE * CountOf(copy)
    && NoHoles(g, copy, data, CountOf(copy))
  }

  lemma CopyStart(g: Geometry, node: IndexNode, data: seq<Block>, s: seq<Entry>)
    requires Lists(g, node, data, s) && IsDir(node)
    ensures CountOf(node) == |s| && CopyOf(g, node, node, data, |s|)
  {
  }

  // As long as the directory keeps its blocks, the copy stays good.
  lemma CopyNext(g: Geometry, copy: IndexNode, node: IndexNode, data: seq<Block>, count: nat, node': IndexNode,
                 data': seq<Block>, count': nat)
    requires CopyOf(g, copy, node, data, count) && BlocksStay(g, node, data, node', data') && count <= count'
    ensures CopyOf(g, copy, node', data', count')
  {
  }

  lemma UntouchedStays(g: Geometry, node: IndexNode, data: seq<Block>, data': seq<Block>)
    requires Untouched(g, node, data, data')
    ensures BlocksStay(g, node, data, node, data')
  {
  }

  // Reading through the copy gives the first entries of the directory as it is now.
  lemma CopyEntry(g: Geometry, copy: IndexNode, node: IndexNode, data: seq<Block>, count: nat, k: nat)
    requires CopyOf(g, copy, node, data, count) && DataShape(g, data) && NodeShape(g, copy) && NodeShape(g, node)
    requires k < CountOf(copy)
    ensures EntryOf(Contents(g, copy, data), g.blockSize, k) == EntryOf(Contents(g, node, data), g.blockSize, k)
  {
    var b := BlockOf(g, k);
    assert InUse(g, copy, data, b);
    assert FileBlock(g, copy, data, b) == FileBlock(g, node, data, b);
    hide Address, DecodeEntry, Quot, Rem;
  }

  lemma CopyLeads(g: Geometry, copy: IndexNode, node: IndexNode, data: seq<Block>, count: nat)
    requires CopyOf(g, copy, node, data, count) && DataShape(g, data) && FileOK(g, node, data)
    ensures Leads(g, copy, data)
  {
  }

  lemma CopyLists(g: Geometry, copy: IndexNode, node: IndexNode, data: seq<Block>, s: seq<Entry>)
    requires CopyOf(g, copy, node, data, |s|) && Lists(g, node, data, s)
    ensures Lists(g, copy, data, s[..CountOf(copy)])
  {
    var c, t := Contents(g, copy, data), s[..CountOf(copy)];
    forall k | 0 <= k < |t|
      ensures t[k] == EntryOf(c, g.blockSize, k)
    {
      CopyEntry(g, copy, node, data, |s|, k);
    }
    assert t == Listing(c, g.blockSize, |t|);
    hide Contents, EntryOf, Listing, Address, BlocksStay, NoHoles, BlockOf;
  }

  // ----- lookup in one directory -----

  predicate InRange(s: seq<Entry>, limit: nat) {
    forall i :: 0 <= i < |s| ==> 0 <= s[i].ino < limit
  }

  lemma LookupIs(s: seq<Entry>, name: Name, k: nat)
    requires k <= |s| && forall i :: 0 <= i < k ==> s[i].name != name
    ensures k < |s| && s[k].name == name ==> Lookup(s, name) == s[k].ino
    ensures k == |s| ==> Lookup(s, name) == -1
  {
  }

  lemma ShowsAtOnce(fd: FileDescriptor, s: seq<Entry>)
    requires fd.Readable() && Lists(fd.fs.g, fd.indexNode, fd.fs.data, s)
    ensures Shows(fd, s)
  {
  }

  lemma ShownIsValid(fd: FileDescriptor, s: seq<Entry>)
    requires Shows(fd, s)
    ensures fd.fs.Valid() && fd.Readable() && |fd.fs.inodes| == fd.fs.g.NodeCount()
    ensures fd.bytes != fd.fs.freeListBitBlock && fd.bytes != fd.fs.indexBlockBytes
  {
  }

  // findNextIndexNode: scan the directory that `node` is a copy of.
  method FindNextIndexNode(fs: FileSystem, node: IndexNode, name: Name, ghost s: seq<Entry>)
    returns (r: int, next: IndexNode)
    requires fs.Valid() && InRange(s, |fs.inodes|)
    requires IsDir(node) ==> DataShape(fs.g, fs.data) && Leads(fs.g, node, fs.data) && Lists(fs.g, node, fs.data, s)
    modifies fs`currentIndexNodeBlock, fs.indexBlockBytes
    ensures fs.Valid() && r == if IsDir(node) then Lookup(s, name) else -1
    ensures -1 <= r < |fs.inodes| && (r >= 0 ==> next == fs.inodes[r])
  {
    hide *;
    next := node;
    KindOf(node);
    EntrySize();
    if !(0x4000 <= node.mode < 0x5000) {
      return -1, next;
    }
    var fd := new FileDescriptor(fs, 0, node, Nobody({}));
    ShowsAtOnce(fd, s);
    var e := Entry(0, []);
    ghost var k := 0;
    while true
      invariant k <= |s| && Shows(fd, s) && fd.offset == DIRECTORY_ENTRY_SIZE * k
      invariant fs.Valid() && fresh(fd) && fresh(fd.bytes)
      invariant forall i :: 0 <= i < k ==> s[i].name != name
      decreases |s| - k
    {
      var status: int;
      status, e := ReadDir(fd, e, s, k);
      ShownIsValid(fd, s);
      LookupIs(s, name, k);
      if status <= 0 {
        return -1, next;
      }
      if e.name == name {
        EntryInRange(s, k, |fs.inodes|);
        next := fs.ReadIndexNode(e.ino);
        return e.ino, next;
      }
      k := k + 1;
    }
  }

  lemma KindOf(node: IndexNode)
    ensures IsDir(node) <==> 0x4000 <= node.mode < 0x5000
  {
  }

  lemma EntryInRange(s: seq<Entry>, k: nat, limit: nat)
    requires InRange(s, limit) && k < |s|
    ensures 0 <= s[k].ino < limit
  {
  }
}
