/** fsck on the disk: the traversal reads index nodes, lists their blocks, asks the free list about them and
    reads directories; at the end every block number of the disk is looked up in the free list. */
module DiskFsck {
  import opened Collections
  import opened FsCodec
  import opened FsGeometry
  import opened FsFile
  import opened FsVolume
  import opened FsDescriptor
  import opened DirectoryEntries
  import opened FsDirectory
  import opened FsView
  import opened FsPaths
  import opened FsckBlocks
  import opened Fsck
  import K = FsKernel

  // ----- what the checker reads of a disk -----

  function Numbers(s: seq<Entry>): (r: seq<nat>)
    ensures |r| == |s|
    ensures forall i :: 0 <= i < |s| ==> r[i] == if s[i].ino >= 0 then s[i].ino else 0
  {
    seq(|s|, i requires 0 <= i < |s| => if s[i].ino >= 0 then s[i].ino else 0)
  }

  ghost function Listed(g: Geometry, node: IndexNode, data: seq<Block>): seq<int> {
    if DataShape(g, data) && NodeShape(g, node) && node.size >= 0 && K.Fits(g, node.size) then BlockList(g, node, data)
    else []
  }

  ghost function ImageOf(g: Geometry, t: Tables): (image: Image)
    ensures |image| == |t.inodes|
    ensures forall x :: 0 <= x < |image| ==> image[x] == SeenNode(g, t.inodes[x], t.data)
  {
    seq(|t.inodes|, x requires 0 <= x < |t.inodes| => SeenNode(g, t.inodes[x], t.data))
  }

  ghost function SeenNode(g: Geometry, node: IndexNode, data: seq<Block>): Fsck.Node {
    Fsck.Node(node.nlink, IsDir(node), Numbers(NodeView(g, node, data).entries), Listed(g, node, data))
  }

  // The pointers of a node lead to data blocks, and a directory can be listed.
  ghost predicate Seen(g: Geometry, node: IndexNode, data: seq<Block>) {
    && DataShape(g, data) && Leads(g, node, data) && node.size >= 0 && K.Fits(g, node.size)
    && (IsDir(node) ==>
          var s := NodeView(g, node, data).entries;
          Lists(g, node, data, s) && forall i :: 0 <= i < |s| ==> s[i].ino >= 0)
  }

  // Directories name nodes that exist, and what can be reached from the root can be read.
  ghost predicate Checkable(g: Geometry, t: Tables) {
    && |t.inodes| == g.NodeCount() && WellFormed(ImageOf(g, t))
    && forall x: nat :: x < |t.inodes| && Reachable(ImageOf(g, t), x) ==> Seen(g, t.inodes[x], t.data)
  }

  // ----- the blocks of one node -----

  lemma BitIsUsed(fs: FileSystem, d: nat)
    requires fs.Cached() && d < fs.g.DataCount()
    ensures d < fs.g.blockCount && DiskShape(fs.g, fs.file) && fs.g.Valid()
    ensures MarkedOnDisk(fs.g, fs.file, d) <==> d in fs.used
    ensures ListBlock(fs.g, d) < fs.g.ListBlocks()
  {
    ListBlockInRange(fs.g, d);
    assert MarkedOnDisk(fs.g, fs.file, d) == Allocated(fs.g, fs.file, d);
  }

  lemma ValidIsCached(fs: FileSystem)
    requires fs.Valid()
    ensures fs.Cached() && fs.g.Valid() && DiskShape(fs.g, fs.file) && |fs.inodes| == fs.g.NodeCount()
  {
  }

  lemma CachedIsValid(fs: FileSystem)
    requires fs.Cached() && fs.currentFreeListBlock < fs.g.ListBlocks()
    ensures fs.Valid()
  {
  }

  // is_free of a data block.
  method IsFree(fs: FileSystem, d: int) returns (free: bool)
    requires fs.Valid() && InData(fs.g, d)
    modifies fs.freeListBitBlock, fs`currentFreeListBlock
    ensures fs.Valid() && (free <==> d !in fs.used)
  {
    hide *;
    ValidIsCached(fs);
    DataNumber(fs.g, d);
    BitIsUsed(fs, d);
    free := fs.IsFree(d);
    BitIsUsed(fs, d);
    CachedIsValid(fs);
  }

  lemma DataNumber(g: Geometry, d: int)
    requires InData(g, d)
    ensures 0 <= d < g.DataCount()
  {
  }

  // The blocks from number k on have been checked.
  ghost predicate Checked(blocks: seq<int>, k: nat, x: nat, used: set<nat>, found0: set<int>,
                          problems0: seq<(int, nat)>, found: set<int>, problems: seq<(int, nat)>)
    requires k <= |blocks|
  {
    && (forall b :: b in found <==> b in found0 || b in blocks[k..])
    && problems0 <= problems
    && forall e :: e in problems[|problems0|..] <==> e.1 == x && e.0 in blocks[k..] && e.0 !in used
  }

  lemma CheckedStart(blocks: seq<int>, x: nat, used: set<nat>, found: set<int>, problems: seq<(int, nat)>)
    ensures Checked(blocks, |blocks|, x, used, found, problems, found, problems)
  {
  }

  lemma CheckedNext(blocks: seq<int>, k: nat, x: nat, used: set<nat>, found0: set<int>, problems0: seq<(int, nat)>,
                    found: set<int>, problems: seq<(int, nat)>)
    requires 0 < k <= |blocks| && Checked(blocks, k, x, used, found0, problems0, found, problems)
    ensures Checked(blocks, k - 1, x, used, found0, problems0, found + {blocks[k - 1]},
                    if blocks[k - 1] in used then problems else problems + [(blocks[k - 1], x)])
  {
    assert blocks[k - 1..] == [blocks[k - 1]] + blocks[k..];
    assert (problems + [(blocks[k - 1], x)])[|problems0|..] == problems[|problems0|..] + [(blocks[k - 1], x)];
  }

  lemma AllChecked(blocks: seq<int>, x: nat, used: set<nat>, found0: set<int>, problems0: seq<(int, nat)>,
                   found: set<int>, problems: seq<(int, nat)>)
    requires Checked(blocks, 0, x, used, found0, problems0, found, problems)
    ensures forall b :: b in found <==> b in found0 || b in blocks
    ensures problems0 <= problems
    ensures forall e :: e in problems[|problems0|..] <==> e.1 == x && e.0 in blocks && e.0 !in used
  {
  }

  // The blocks of one node: all marked in use, those the free list calls free reported.
  method CheckBlocks(fs: FileSystem, x: nat, node: IndexNode, found0: set<int>, problems0: seq<(int, nat)>)
    returns (found: set<int>, problems: seq<(int, nat)>)
    requires fs.Valid() && Seen(fs.g, node, fs.data)
    modifies fs.freeListBitBlock, fs`currentFreeListBlock
    ensures fs.Valid() && problems0 <= problems
    ensures var blocks := Listed(fs.g, node, fs.data);
            && (forall b :: b in found <==> b in found0 || b in blocks)
            && forall e :: e in problems[|problems0|..] <==> e.1 == x && e.0 in blocks && e.0 !in fs.used
  {
    hide *;
    SeenParts(fs.g, node, fs.data);
    var blocks := GetBlocks(fs, node);
    found, problems := found0, problems0;
    CheckedStart(blocks, x, fs.used, found, problems);
    var k := |blocks|;
    while k > 0
      invariant 0 <= k <= |blocks| && fs.Valid()
      invariant Checked(blocks, k, x, fs.used, found0, problems0, found, problems)
      decreases k
    {
      k := k - 1;
      var addr := blocks[k];
      ListedInData(fs.g, node, fs.data, addr);
      CheckedNext(blocks, k + 1, x, fs.used, found0, problems0, found, problems);
      found := found + {addr};
      var free := IsFree(fs, addr);
      if free {
        problems := problems + [(addr, x)];
      }
    }
    AllChecked(blocks, x, fs.used, found0, problems0, found, problems);
  }

  lemma SeenParts(g: Geometry, node: IndexNode, data: seq<Block>)
    requires Seen(g, node, data)
    ensures DataShape(g, data) && NodeShape(g, node) && Leads(g, node, data) && node.size >= 0 && K.Fits(g, node.size)
    ensures Listed(g, node, data) == BlockList(g, node, data)
    ensures IsDir(node) ==>
              var s := NodeView(g, node, data).entries;
              Lists(g, node, data, s) && forall i :: 0 <= i < |s| ==> s[i].ino >= 0
  {
  }

  // ----- the entries of one directory -----

  lemma TallyStart(counts: map<nat, nat>)
    ensures Tally(counts, [], counts)
  {
  }

  lemma NumberAt(s: seq<Entry>, k: nat)
    requires k < |s| && s[k].ino >= 0
    ensures Numbers(s)[..k + 1] == Numbers(s)[..k] + [s[k].ino as nat] && s[k].ino in Numbers(s)
    ensures Numbers(s)[..0] == []
  {
  }

  lemma NumbersWhole(s: seq<Entry>)
    ensures Numbers(s)[..|s|] == Numbers(s) && Numbers(s)[..0] == [] && |Numbers(s)| == |s|
  {
  }

  // Go through one directory, counting each name and pushing what is new.
  method CountEntries(fs: FileSystem, node: IndexNode, stack0: seq<nat>, counts0: map<nat, nat>, ghost s: seq<Entry>)
    returns (stack: seq<nat>, counts: map<nat, nat>)
    requires fs.Valid() && DataShape(fs.g, fs.data) && Leads(fs.g, node, fs.data) && Lists(fs.g, node, fs.data, s)
    requires forall i :: 0 <= i < |s| ==> s[i].ino >= 0
    requires Pushed(stack0, counts0, Numbers(s), stack0, counts0)
    ensures fs.Valid() && Pushed(stack0, counts0, Numbers(s), stack, counts) && Tally(counts0, Numbers(s), counts)
  {
    hide *;
    EntrySize();
    stack, counts := stack0, counts0;
    NumbersWhole(s);
    TallyStart(counts0);
    var fd := new FileDescriptor(fs, 0, node, Nobody({}));
    ShowsAtOnce(fd, s);
    var e := Entry(0, []);
    ghost var k := 0;
    while true
      invariant k <= |s| && Shows(fd, s) && fd.offset == DIRECTORY_ENTRY_SIZE * k
      invariant fs.Valid() && fresh(fd) && fresh(fd.bytes)
      invariant Pushed(stack0, counts0, Numbers(s), stack, counts) && Tally(counts0, Numbers(s)[..k], counts)
      decreases |s| - k
    {
      var status: int;
      status, e := ReadDir(fd, e, s, k);
      ShownIsValid(fd, s);
      if status <= 0 {
        break;
      }
      NumberAt(s, k);
      var next: nat := e.ino;
      TallyNext(counts0, Numbers(s)[..k], counts, next);
      PushNext(stack0, counts0, Numbers(s), stack, counts, next, (if next in counts then counts[next] else 0) + 1);
      stack, counts := CountEntry(next, stack, counts);
      k := k + 1;
    }
  }

  // ----- the traversal -----

  // What is known of a node on the stack.
  lemma OnStack(g: Geometry, t: Tables, stack: seq<nat>, visited: set<nat>, counts: map<nat, nat>)
    requires Checkable(g, t) && Progress(ImageOf(g, t), stack, visited, counts) && stack != []
    ensures var d := stack[|stack| - 1];
            && d < |t.inodes| == |ImageOf(g, t)| && d !in visited && d in counts && Seen(g, t.inodes[d], t.data)
            && ImageOf(g, t)[d] == SeenNode(g, t.inodes[d], t.data) && stack == stack[..|stack| - 1] + [d]
  {
    hide *;
    TopOfStack(ImageOf(g, t), stack, visited, counts);
    CheckableAt(g, t, stack[|stack| - 1]);
  }

  lemma CheckableAt(g: Geometry, t: Tables, d: nat)
    requires Checkable(g, t) && d < |ImageOf(g, t)| && Reachable(ImageOf(g, t), d)
    ensures d < |t.inodes| == |ImageOf(g, t)| && Seen(g, t.inodes[d], t.data)
    ensures ImageOf(g, t)[d] == SeenNode(g, t.inodes[d], t.data)
  {
    hide Seen, Reachable, SeenNode, WellFormed;
  }

  lemma NodeSeen(g: Geometry, node: IndexNode, data: seq<Block>)
    ensures SeenNode(g, node, data) == Fsck.Node(node.nlink, IsDir(node), Numbers(NodeView(g, node, data).entries),
                                                 Listed(g, node, data))
  {
  }

  lemma TraversalStart(image: Image, taken: set<nat>)
    requires WellFormed(image)
    ensures Progress(image, [0], {}, map[0 := 0]) && CountsMentions(image, {}, map[0 := 0])
    ensures Recorded(image, taken, {}, map[], {}, [])
  {
    RootReachable(image);
    MentionsOfNone(image, 0, |image|);
  }

  lemma StackShrinks(image: Image, stack: seq<nat>, visited: set<nat>, counts: map<nat, nat>, d: nat)
    requires Progress(image, stack, visited, counts) && d < |image| && d !in visited
    ensures UpTo(|image|) - (visited + {d}) < UpTo(|image|) - visited
  {
    assert d in UpTo(|image|);
  }

  // The depth-first traversal from the root.
  method Traverse(fs: FileSystem)
    returns (counts: map<nat, nat>, expected: map<nat, int>, found: set<int>, problems: seq<(int, nat)>)
    requires fs.Valid() && Checkable(fs.g, Tables(fs.used, fs.inodes, fs.data))
    modifies fs.freeListBitBlock, fs`currentFreeListBlock, fs.indexBlockBytes, fs`currentIndexNodeBlock
    ensures fs.Valid()
    ensures var image := ImageOf(fs.g, Tables(fs.used, fs.inodes, fs.data));
            && counts.Keys == ReachableSet(image)
            && (forall x :: x in counts ==> counts[x] == Mentions(image, ReachableSet(image), x, |image|))
            && Recorded(image, fs.used, ReachableSet(image), expected, found, problems)
  {
    hide *;
    ghost var t := Tables(fs.used, fs.inodes, fs.data);
    ghost var image := ImageOf(fs.g, t);
    CheckableParts(fs.g, t);
    ValidIsCached(fs);
    var stack: seq<nat> := [0];
    counts := map[0 := 0];
    expected := map[];
    found, problems := {}, [];
    ghost var visited: set<nat> := {};
    TraversalStart(image, fs.used);
    while stack != []
      invariant fs.Valid() && Progress(image, stack, visited, counts) && CountsMentions(image, visited, counts)
      invariant Recorded(image, fs.used, visited, expected, found, problems)
      decreases UpTo(|image|) - visited
    {
      OnStack(fs.g, t, stack, visited, counts);
      var d := stack[|stack| - 1];
      var rest := stack[..|stack| - 1];
      StackShrinks(image, stack, visited, counts, d);
      var node := fs.ReadIndexNode(d);
      NodeSeen(fs.g, node, fs.data);
      SeenParts(fs.g, node, fs.data);
      KindOf(node);
      ghost var found0, problems0, expected0 := found, problems, expected;
      expected := expected[d := node.nlink];
      found, problems := CheckBlocks(fs, d, node, found, problems);
      RecordVisit(image, fs.used, visited, expected0, found0, problems0, d, found, problems);
      if 0x4000 <= node.mode < 0x5000 {
        ghost var counts0 := counts;
        RestPushed(image, rest, d, visited, counts);
        stack, counts := CountEntries(fs, node, rest, counts, NodeView(fs.g, node, fs.data).entries);
        VisitDirectory(image, d, rest, visited, counts0, stack, counts);
      } else {
        VisitFile(image, d, rest, visited, counts);
        stack := rest;
      }
      visited := visited + {d};
    }
    VisitedIsReachable(image, visited, counts);
    MentionsIs(image, visited, counts);
  }

  lemma CheckableParts(g: Geometry, t: Tables)
    requires Checkable(g, t)
    ensures WellFormed(ImageOf(g, t)) && |t.inodes| == g.NodeCount() == |ImageOf(g, t)|
  {
  }

  lemma MentionsIs(image: Image, visited: set<nat>, counts: map<nat, nat>)
    requires CountsMentions(image, visited, counts)
    ensures forall x :: x in counts ==> counts[x] == Mentions(image, visited, x, |image|)
  {
  }

  // ----- the scan -----

  // FileSystem::scan: every number of a block of the disk whose bit is set, data block or not, and that no
  // file was found to use.
  method Scan(fs: FileSystem, found: set<int>) returns (leaked: seq<nat>)
    requires fs.Cached() && fs.g.Valid() && DiskShape(fs.g, fs.file)
    modifies fs.freeListBitBlock, fs`currentFreeListBlock
    ensures fs.Cached()
    ensures forall b: nat :: b in leaked <==> b < fs.g.blockCount && MarkedOnDisk(fs.g, fs.file, b) && b !in found
  {
    hide *;
    leaked := [];
    var i := 0;
    while i < fs.g.blockCount
      invariant 0 <= i <= fs.g.blockCount && fs.Cached()
      invariant forall b: nat :: b in leaked <==> b < i && MarkedOnDisk(fs.g, fs.file, b) && b !in found
      decreases fs.g.blockCount - i
    {
      var free := fs.IsFree(i);
      if !free && i !in found {
        leaked := leaked + [i];
      }
      i := i + 1;
    }
  }

  // Main result: what fsck prints is what the tables of the disk have wrong, and the set bits of the free
  // list, or beyond it, that belong to no file.
  method Check(fs: FileSystem) returns (r: Report)
    requires fs.Valid() && Checkable(fs.g, Tables(fs.used, fs.inodes, fs.data))
    modifies fs.freeListBitBlock, fs`currentFreeListBlock, fs.indexBlockBytes, fs`currentIndexNodeBlock
    ensures fs.Cached() && fs.g.Valid() && DiskShape(fs.g, fs.file)
    ensures var image := ImageOf(fs.g, Tables(fs.used, fs.inodes, fs.data));
            && r.counts.Keys == ReachableSet(image)
            && (forall x :: x in r.counts ==> r.counts[x] == LinkCount(image, x))
            && (forall x: nat :: x in r.wrongLinks <==> WrongLinks(image, x))
            && (forall b: int, x: nat :: (b, x) in r.freeButUsed <==> FreeButUsed(image, fs.used, b, x))
            && forall b: nat :: b in r.leaked <==>
                                b < fs.g.blockCount && MarkedOnDisk(fs.g, fs.file, b) && !Fsck.InUse(image, b)
  {
    hide *;
    ghost var image := ImageOf(fs.g, Tables(fs.used, fs.inodes, fs.data));
    CheckableParts(fs.g, Tables(fs.used, fs.inodes, fs.data));
    ValidIsCached(fs);
    var counts, expected, found, problems := Traverse(fs);
    ValidIsCached(fs);
    RootCounted(image, counts);
    counts := counts[0 := counts[0] + 1];
    RecordedKeys(image, fs.used, expected, found, problems);
    var wrong := CompareLinks(fs.g.NodeCount(), counts, expected);
    var leaked := Scan(fs, found);
    FoundIsInUse(image, fs.used, expected, found, problems);
    ReportIs(image, fs.used, counts, expected, found, problems, wrong);
    r := Report(counts, expected, found, problems, wrong, leaked);
  }

  // One more for the root.
  lemma RootCounted(image: Image, counts: map<nat, nat>)
    requires WellFormed(image) && counts.Keys == ReachableSet(image)
    requires forall x :: x in counts ==> counts[x] == Mentions(image, ReachableSet(image), x, |image|)
    ensures 0 in counts && counts[0 := counts[0] + 1].Keys == ReachableSet(image)
    ensures forall x :: x in counts ==> counts[0 := counts[0] + 1][x] == LinkCount(image, x)
  {
    RootReachable(image);
    assert counts[0 := counts[0] + 1].Keys == counts.Keys + {0};
  }

  lemma RecordedKeys(image: Image, taken: set<nat>, expected: map<nat, int>, found: set<int>, problems: seq<(int, nat)>)
    requires Recorded(image, taken, ReachableSet(image), expected, found, problems)
    ensures expected.Keys == ReachableSet(image)
  {
  }

  lemma ReportIs(image: Image, taken: set<nat>, counts: map<nat, nat>, expected: map<nat, int>, found: set<int>,
                 problems: seq<(int, nat)>, wrong: seq<nat>)
    requires Recorded(image, taken, ReachableSet(image), expected, found, problems)
    requires counts.Keys == ReachableSet(image)
    requires expected.Keys == ReachableSet(image) && forall x :: x in counts ==> counts[x] == LinkCount(image, x)
    requires forall x: nat :: x in wrong <==> x < |image| && x in counts && expected[x] != counts[x]
    ensures forall x: nat :: x in wrong <==> WrongLinks(image, x)
    ensures forall b: int, x: nat :: (b, x) in problems <==> FreeButUsed(image, taken, b, x)
  {
    hide Reachable, LinkCount;
  }
}
