/** unlink of a regular file: the directory is scanned, the link count goes to disk, the directory is
    shifted, and only then are the blocks of a file without links freed. */
module FsUnlink {
  import opened FsCodec
  import opened FsGeometry
  import opened FsFile
  import opened FsVolume
  import opened FsDescriptor
  import opened FsDirectory
  import opened DirectoryEntries
  import K = FsKernel
  import T = FsTruncate

  // The table says one link less of the file that is being unlinked; the open directory is as it was.
  lemma CountDropped(fd: FileDescriptor, s: seq<Entry>, k: nat, was: Snapshot, inodes: seq<IndexNode>, x: IndexNode)
    requires fd.held.Unlinking? && fd.held.number < |inodes| && fd.fs.inodes == inodes[fd.held.number := x]
    requires fd.Readable() && Lists(fd.fs.g, fd.indexNode, fd.fs.data, s) && fd.offset == DIRECTORY_ENTRY_SIZE * k
    requires fd.indexNode == was.node && fd.fs.used == was.used
    requires Opened(fd.fs.g, fd.fs.used, inodes, fd.fs.data, fd.indexNodeNumber, fd.indexNode, fd.held)
    requires K.Went(fd.fs.g, was, Snapshot(Owners(inodes, fd.held), fd.fs.used, fd.fs.data, fd.indexNode),
                    fd.indexNodeNumber)
    ensures At(fd, s, k, was)
  {
    assert Owners(fd.fs.inodes, fd.held) == Owners(inodes, fd.held);
    hide Lists, K.Went, Ownership;
  }

  // Opens, for given tables.
  ghost predicate Opened(g: Geometry, used: set<nat>, inodes: seq<IndexNode>, data: seq<Block>, n: nat,
                         node: IndexNode, held: Held)
  {
    && n < g.NodeCount() && Writable(inodes, held, n) && inodes[n] == node && Live(node) && node.size >= 0
    && Owned(g, used, inodes, data, held)
  }

  lemma OpenedNow(fd: FileDescriptor, s: seq<Entry>, k: nat, was: Snapshot)
    requires At(fd, s, k, was)
    ensures fd.fs.Valid() && fd.Readable() && |fd.fs.inodes| == fd.fs.g.NodeCount()
    ensures Opened(fd.fs.g, fd.fs.used, fd.fs.inodes, fd.fs.data, fd.indexNodeNumber, fd.indexNode, fd.held)
    ensures K.Went(fd.fs.g, was, Snapshot(Owners(fd.fs.inodes, fd.held), fd.fs.used, fd.fs.data, fd.indexNode),
                   fd.indexNodeNumber)
  {
    hide Lists, K.Went, Ownership;
  }

  lemma ReadableParts(fd: FileDescriptor)
    requires fd.Readable()
    ensures fd.fs.Valid() && DataShape(fd.fs.g, fd.fs.data) && Leads(fd.fs.g, fd.indexNode, fd.fs.data)
    ensures fd.bytes != fd.fs.freeListBitBlock && fd.bytes != fd.fs.indexBlockBytes
    ensures fd.bytes.Length == fd.fs.g.blockSize
  {
  }

  lemma ReadableAgain(fd: FileDescriptor)
    requires fd.fs.Valid() && DataShape(fd.fs.g, fd.fs.data) && Leads(fd.fs.g, fd.indexNode, fd.fs.data)
    requires fd.bytes != fd.fs.freeListBitBlock && fd.bytes != fd.fs.indexBlockBytes
    requires fd.bytes.Length == fd.fs.g.blockSize
    ensures fd.Readable()
  {
  }

  // unlink's first write: the node with one link less.
  method DropCount(fd: FileDescriptor, t: nat, node: IndexNode, ghost s: seq<Entry>, ghost k: nat, ghost was: Snapshot)
    requires At(fd, s, k, was) && fd.held.Unlinking? && fd.held.number == t < |fd.fs.inodes|
    requires node.Storable() && node.nlink >= 1
    modifies fd.fs, fd.fs.indexBlockBytes
    ensures At(fd, s, k, was)
  {
    hide *;
    ghost var inodes := fd.fs.inodes;
    OpenedNow(fd, s, k, was);
    AtParts(fd, s, k, was);
    ReadableParts(fd);
    OneLess(node);
    fd.fs.WriteIndexNode(node.(nlink := node.nlink - 1), t);
    ReadableAgain(fd);
    CountDropped(fd, s, k, was, inodes, node.(nlink := node.nlink - 1));
  }

  lemma OneLess(node: IndexNode)
    requires node.Storable() && node.nlink >= 1
    ensures node.(nlink := node.nlink - 1).Storable() && node.(nlink := node.nlink - 1).Shaped()
  {
  }

  // A regular file has lost a link and the directory its entry, and no other file has changed. Where it
  // was the last link, its indirect block and the blocks beyond its size are nobody's from now on.
  ghost predicate Unlinked(g: Geometry, was: Tables, now: Tables, d: nat, t: nat, s: seq<Entry>, lost: set<nat>) {
    && d < |was.inodes| == |now.inodes| && t < |was.inodes| && d != t
    && OnlyChanged(g, was.inodes, was.data, now.inodes, now.data, {d, t})
    && now.inodes[d] == was.inodes[d].(size := now.inodes[d].size) && Lists(g, now.inodes[d], now.data, s)
    && LinkDropped(g, was, now, t, was.inodes[t], lost)
  }

  ghost predicate LinkDropped(g: Geometry, was: Tables, now: Tables, t: nat, node: IndexNode, lost: set<nat>)
    requires t < |now.inodes|
  {
    && DataShape(g, was.data) && NodeShape(g, node) && node.size >= 0
    && if node.nlink > 1 then
         && now.used == was.used && now.inodes[t] == node.(nlink := node.nlink - 1)
         && Untouched(g, node, was.data, now.data)
         && Owned(g, now.used, now.inodes, now.data, Nobody(lost))
       else
         && now.inodes[t] == node.(nlink := 0, size := 0, direct := now.inodes[t].direct)
         && T.Remains(g, node, was.data) !! lost
         && Owned(g, now.used, now.inodes, now.data, Nobody(lost + T.Remains(g, node, was.data)))
         && (Owned(g, now.used, now.inodes, now.data, Nobody(lost)) <==>
             node.indirect == NOT_A_BLOCK && T.Covered(g, node, was.data))
  }

  // After the shift: the directory lists s, and the tables say `files` but for the file being unlinked.
  ghost predicate Shifted(g: Geometry, was: Tables, files: seq<IndexNode>, data: seq<Block>, d: nat, t: nat,
                          s: seq<Entry>, lost: set<nat>)
  {
    && d < |was.inodes| && t < |was.inodes| && d != t && OthersSame(g, was.inodes, was.data, files, data, d)
    && files[t] == was.inodes[t] && Live(files[t]) && files[t].nlink >= 1 && files[t].size >= 0
    && files[d] == was.inodes[d].(size := files[d].size) && Live(files[d]) && Lists(g, files[d], data, s)
    && Owned(g, was.used, files, data, Nobody(lost))
  }

  lemma ListsUntouched(g: Geometry, node: IndexNode, data: seq<Block>, data': seq<Block>, s: seq<Entry>)
    requires Lists(g, node, data, s) && Untouched(g, node, data, data')
    ensures Lists(g, node, data', s)
  {
    hide Address, Contents, Listing;
  }

  lemma OtherUntouched(g: Geometry, inodes: seq<IndexNode>, data: seq<Block>, inodes': seq<IndexNode>,
                       data': seq<Block>, n: nat, m: nat)
    requires OthersSame(g, inodes, data, inodes', data', n) && m < |inodes| && m != n && Live(inodes[m])
    ensures inodes'[m] == inodes[m] && Untouched(g, inodes[m], data, data') && FileOK(g, inodes[m], data)
    ensures |inodes'| == |inodes|
  {
  }

  // What unlink does last where links remain.
  lemma CountWritten(g: Geometry, was: Tables, files: seq<IndexNode>, data: seq<Block>, d: nat, t: nat, s: seq<Entry>,
                     lost: set<nat>)
    requires Shifted(g, was, files, data, d, t, s, lost) && was.inodes[t].nlink > 1
    ensures |files| == |was.inodes|
    ensures Unlinked(g, was, Tables(was.used, files[t := was.inodes[t].(nlink := was.inodes[t].nlink - 1)], data), d,
                     t, s, lost)
  {
    var nlink := was.inodes[t].nlink - 1;
    var inodes := files[t := was.inodes[t].(nlink := nlink)];
    OtherUntouched(g, was.inodes, was.data, files, data, d, t);
    T.Relinked(g, was.used, files, data, t, nlink, lost);
    hide OthersSame, Owned, Untouched, Lists;
    OnlyOneChanged(g, was.inodes, was.data, files, data, d);
    OnlyOneChanged(g, files, data, inodes, data, t);
    OnlyChangedNext(g, was.inodes, was.data, files, data, inodes, data, {d}, {t});
    assert {d} + {t} == {d, t};
  }

  lemma RemainsUntouched(g: Geometry, node: IndexNode, data: seq<Block>, data': seq<Block>)
    requires Untouched(g, node, data, data') && node.size >= 0
    ensures T.Remains(g, node, data') == T.Remains(g, node, data)
    ensures T.Covered(g, node, data') <==> T.Covered(g, node, data)
  {
  }

  // What it does last for the last link.
  lemma LastLinkGone(g: Geometry, was: Tables, files: seq<IndexNode>, data1: seq<Block>, now: Tables, d: nat, t: nat,
                     s: seq<Entry>, lost: set<nat>)
    requires Shifted(g, was, files, data1, d, t, s, lost) && was.inodes[t].nlink == 1
    requires T.Removed(g, now.used, files, data1, now.inodes, now.data, t, was.inodes[t], lost)
    ensures Unlinked(g, was, now, d, t, s, lost)
  {
    OtherUntouched(g, was.inodes, was.data, files, data1, d, t);
    OtherUntouched(g, files, data1, now.inodes, now.data, t, d);
    RemainsUntouched(g, was.inodes[t], was.data, data1);
    ListsUntouched(g, files[d], data1, now.data, s);
    hide OthersSame, Owned, Untouched, Lists, T.Remains, T.Covered, FileOK;
    OnlyOneChanged(g, was.inodes, was.data, files, data1, d);
    OnlyOneChanged(g, files, data1, now.inodes, now.data, t);
    OnlyChangedNext(g, was.inodes, was.data, files, data1, now.inodes, now.data, {d}, {t});
    assert {d} + {t} == {d, t};
  }

  // What is known when the shift is over.
  lemma ShiftOver(fd: FileDescriptor, was: Tables, now: Snapshot, t: nat, node: IndexNode, s: seq<Entry>,
                  lost: set<nat>)
    requires fd.indexNodeNumber < |was.inodes| && t < |was.inodes| && was.inodes[t] == node
    requires now.files == was.inodes && now.data == was.data && now.node == was.inodes[fd.indexNodeNumber]
    requires K.Kept(fd, now) && fd.held == Unlinking(lost, t, node) && Lists(fd.fs.g, fd.indexNode, fd.fs.data, s)
    requires fd.indexNode == now.node.(size := fd.indexNode.size)
    requires fd.fs.used == was.used && node.nlink >= 1 && node.size >= 0
    ensures fd.fs.Valid() && |fd.fs.inodes| == fd.fs.g.NodeCount() == |was.inodes|
    ensures Owned(fd.fs.g, fd.fs.used, fd.fs.inodes, fd.fs.data, Unlinking(lost, t, node))
    ensures Shifted(fd.fs.g, was, fd.fs.inodes[t := node], fd.fs.data, fd.indexNodeNumber, t, s, lost)
    ensures node.(nlink := node.nlink - 1).Storable() && node.(nlink := node.nlink - 1).Shaped()
  {
    var files := fd.fs.inodes[t := node];
    assert files == fd.Files();
    assert FileOK(fd.fs.g, files[t], fd.fs.data);
    hide OthersSame, Ownership, Lists, FileOK;
  }

  // What is known before.
  lemma UnlinkStart(fd: FileDescriptor, t: nat, node: IndexNode, lost: set<nat>)
    requires fd.Valid() && fd.held == Unlinking(lost, t, node) && t < |fd.fs.inodes| && fd.fs.inodes[t] == node
    requires node.nlink >= 1
    ensures fd.fs.Valid() && node.Storable()
    ensures fd.indexNodeNumber < |fd.fs.inodes| == fd.fs.g.NodeCount()
    ensures var now := fd.Now();
            && now.files == fd.fs.inodes && now.data == fd.fs.data && now.used == fd.fs.used
            && now.node == fd.indexNode == fd.fs.inodes[fd.indexNodeNumber]
  {
    assert fd.fs.inodes[t := node] == fd.fs.inodes;
    assert FileOK(fd.fs.g, fd.Files()[t], fd.fs.data);
    hide Ownership, FileOK;
  }

  lemma WrittenTwice(inodes: seq<IndexNode>, t: nat, node: IndexNode, x: IndexNode)
    requires t < |inodes|
    ensures inodes[t := node][t := x] == inodes[t := x]
  {
  }

  // The end of unlink, after the shift.
  method FinishUnlink(fd: FileDescriptor, t: nat, node: IndexNode, ghost s: seq<Entry>, ghost lost: set<nat>,
                      ghost was: Tables,
                      ghost now: Snapshot)
    requires fd.indexNodeNumber < |was.inodes| && t < |was.inodes| && was.inodes[t] == node
    requires now.files == was.inodes && now.data == was.data && now.node == was.inodes[fd.indexNodeNumber]
    requires K.Kept(fd, now) && fd.held == Unlinking(lost, t, node) && Lists(fd.fs.g, fd.indexNode, fd.fs.data, s)
    requires fd.indexNode == now.node.(size := fd.indexNode.size)
    requires fd.fs.used == was.used && node.nlink >= 1 && node.size >= 0 && K.Fits(fd.fs.g, node.size)
    modifies fd.fs, fd.fs.freeListBitBlock, fd.fs.indexBlockBytes
    ensures fd.fs.Valid() && Unlinked(fd.fs.g, was, fd.fs.Now(), fd.indexNodeNumber, t, s, lost)
  {
    hide *;
    ShiftOver(fd, was, now, t, node, s, lost);
    ghost var g, files, data := fd.fs.g, fd.fs.inodes[t := node], fd.fs.data;
    if node.nlink - 1 > 0 {
      CountWritten(g, was, files, data, fd.indexNodeNumber, t, s, lost);
      WrittenTwice(fd.fs.inodes, t, node, node.(nlink := node.nlink - 1));
      fd.fs.WriteIndexNode(node.(nlink := node.nlink - 1), t);
    } else {
      T.FreeUnlinked(fd.fs, t, node, lost);
      TablesNow(fd.fs);
      LastLinkGone(g, was, files, data, fd.fs.Now(), fd.indexNodeNumber, t, s, lost);
    }
    TablesNow(fd.fs);
  }

  lemma TablesNow(fs: FileSystem)
    ensures fs.Now() == Tables(fs.used, fs.inodes, fs.data)
  {
  }

  // unlink of `name`, which is index node t, in an open directory that lists s. Without such an entry
  // nothing happens. `left` is whatever the caller finds where a result should be: on success there is
  // no return statement.
  method Unlink(fd: FileDescriptor, t: int, node: IndexNode, name: Name, left: int, ghost s: seq<Entry>,
                ghost lost: set<nat>)
    returns (status: int)
    requires fd.Valid() && Lists(fd.fs.g, fd.indexNode, fd.fs.data, s) && fd.offset == 0
    requires Named(s, name) ==>
               && 0 <= t < |fd.fs.inodes| && fd.fs.inodes[t] == node && fd.held == Unlinking(lost, t, node)
               && node.nlink >= 1 && node.size >= 0 && K.Fits(fd.fs.g, node.size)
    modifies fd.bytes, fd`offset, fd`indexNode, fd.fs, fd.fs.indexBlockBytes, fd.fs.freeListBitBlock
    ensures fd.fs.Valid() && status == if Named(s, name) then left else -1
    ensures !Named(s, name) ==> fd.fs.Now() == old(fd.fs.Now())
    ensures Named(s, name) ==>
              Unlinked(fd.fs.g, old(fd.fs.Now()), fd.fs.Now(), fd.indexNodeNumber, t,
                       DirectoryEntries.Removed(s, name), lost)
  {
    hide *;
    ghost var was, now := fd.fs.Now(), fd.Now();
    TablesNow(fd.fs);
    AtStart(fd, s);
    FoundIsNamed(s, name);
    if Named(s, name) {
      UnlinkStart(fd, t, node, lost);
    }
    var found, current, p := SeekName(fd, name, s, now);
    if found == 0 {
      AtParts(fd, s, p, now);
      ReadableParts(fd);
      TablesNow(fd.fs);
      return -1;
    }
    DropCount(fd, t, node, s, p + 1, now);
    ShiftDown(fd, current, s, p, now);
    FinishUnlink(fd, t, node, DirectoryEntries.Removed(s, name), lost, was, now);
    status := left;
  }
}
