/** What fsck says of a disk that keeps the link law and block ownership: nothing of link counts, nothing of
    free blocks in files, and of leaked blocks exactly those that are lost, those beyond the size of their
    file, and numbers beyond the free list whose bit, which is then one of an index node, happens to be set. */
module FsckVerdict {
  import opened FsCodec
  import opened FsGeometry
  import opened FsFile
  import opened FsVolume
  import opened FsDescriptor
  import opened FsDirectory
  import opened DirectoryEntries
  import opened FsView
  import opened FsckBlocks
  import opened DiskFsck
  import opened LinkLaw
  import DiskKernel
  import Fsck
  import K = FsKernel
  import T = FsTruncate

  // ----- the disk can be checked -----

  // Two images that differ in blocks only.
  ghost predicate SameGraph(a: Fsck.Image, b: Fsck.Image) {
    && |a| == |b|
    && forall x :: 0 <= x < |a| ==> a[x].isDir == b[x].isDir && a[x].entries == b[x].entries && a[x].nlink == b[x].nlink
  }

  lemma SamePaths(a: Fsck.Image, b: Fsck.Image, x: nat)
    requires SameGraph(a, b) && Fsck.Reachable(a, x)
    ensures Fsck.Reachable(b, x)
  {
    var path :| Fsck.IsPath(a, path) && path[|path| - 1] == x;
    forall i | 0 <= i < |path| - 1
      ensures Fsck.Names(b, path[i], path[i + 1])
    {
      assert Fsck.Names(a, path[i], path[i + 1]);
    }
    assert Fsck.IsPath(b, path);
  }

  lemma SameReach(a: Fsck.Image, b: Fsck.Image, x: nat)
    requires SameGraph(a, b)
    ensures Fsck.Reachable(a, x) <==> Fsck.Reachable(b, x)
  {
    if Fsck.Reachable(a, x) {
      SamePaths(a, b, x);
    }
    if Fsck.Reachable(b, x) {
      SamePaths(b, a, x);
    }
  }

  lemma {:induction false} SameMentions(a: Fsck.Image, b: Fsck.Image, dirs: set<nat>, x: nat, n: nat)
    requires SameGraph(a, b) && n <= |a|
    ensures Fsck.Mentions(a, dirs, x, n) == Fsck.Mentions(b, dirs, x, n)
  {
    if n > 0 {
      SameMentions(a, b, dirs, x, n - 1);
    }
  }

  lemma SameLinkCount(a: Fsck.Image, b: Fsck.Image, x: nat)
    requires SameGraph(a, b)
    ensures Fsck.LinkCount(a, x) == Fsck.LinkCount(b, x)
  {
    forall y: nat
      ensures y in Fsck.ReachableSet(a) <==> y in Fsck.ReachableSet(b)
    {
      SameReach(a, b, y);
    }
    assert Fsck.ReachableSet(a) == Fsck.ReachableSet(b);
    SameMentions(a, b, Fsck.ReachableSet(a), x, |a|);
  }

  // What fsck reads of the disk is the volume, and blocks.
  lemma ImageIsVolume(g: Geometry, t: Tables)
    requires Shape(VolumeOf(g, t))
    ensures SameGraph(ImageOf(g, t), ToImage(VolumeOf(g, t)))
  {
    var v := VolumeOf(g, t);
    var a, b := ImageOf(g, t), ToImage(v);
    forall x | 0 <= x < |a|
      ensures a[x].isDir == b[x].isDir && a[x].entries == b[x].entries && a[x].nlink == b[x].nlink
    {
      assert NodeOK(v[x], |v|);
      NumbersAreInos(v[x].entries, a[x].entries, b[x].entries);
    }
  }

  lemma NumbersAreInos(s: seq<Entry>, a: seq<nat>, b: seq<nat>)
    requires a == Numbers(s) && |b| == |s| && forall i :: 0 <= i < |s| ==> 0 <= s[i].ino && b[i] == Inos(s)[i]
    ensures a == b
  {
  }

  // On such a disk fsck reaches the live files, and can read them.
  lemma ReachesTheLive(g: Geometry, t: Tables, lost: set<nat>, x: nat)
    requires Sound(g, t, lost) && Inv(VolumeOf(g, t)) && x < |t.inodes|
    ensures Fsck.Reachable(ImageOf(g, t), x) <==> Live(t.inodes[x])
  {
    ImageIsVolume(g, t);
    SameReach(ImageOf(g, t), ToImage(VolumeOf(g, t)), x);
    ReachableIsLinked(VolumeOf(g, t), x);
  }

  lemma LiveIsSeen(g: Geometry, t: Tables, lost: set<nat>, x: nat)
    requires Sound(g, t, lost) && Inv(VolumeOf(g, t)) && x < |t.inodes| && Live(t.inodes[x])
    ensures Seen(g, t.inodes[x], t.data) && FileOK(g, t.inodes[x], t.data)
  {
    var v := VolumeOf(g, t);
    assert NodeSound(g, t.inodes[x], t.data);
    assert t.inodes == Owners(t.inodes, Nobody(lost));
    FileLeads(g, t.inodes[x], t.data);
    assert NodeOK(v[x], |v|);
    hide Lists, Address, Leads;
  }

  // The checker can be run.
  lemma SoundIsCheckable(g: Geometry, t: Tables, lost: set<nat>)
    requires Sound(g, t, lost) && Inv(VolumeOf(g, t))
    ensures Checkable(g, t)
  {
    var image := ImageOf(g, t);
    ImageIsVolume(g, t);
    forall n | 0 <= n < |image|
      ensures forall k :: 0 <= k < |image[n].entries| ==> image[n].entries[k] < |image|
    {
      assert NodeOK(VolumeOf(g, t)[n], |image|);
    }
    forall x: nat | x < |t.inodes| && Fsck.Reachable(image, x)
      ensures Seen(g, t.inodes[x], t.data)
    {
      ReachesTheLive(g, t, lost, x);
      LiveIsSeen(g, t, lost, x);
    }
  }

  // ----- link counts, and blocks of files -----

  // No wrong link count.
  lemma NoCountIsWrong(g: Geometry, t: Tables, x: nat)
    requires Inv(VolumeOf(g, t))
    ensures !Fsck.WrongLinks(ImageOf(g, t), x)
  {
    var v := VolumeOf(g, t);
    ImageIsVolume(g, t);
    SameReach(ImageOf(g, t), ToImage(v), x);
    SameLinkCount(ImageOf(g, t), ToImage(v), x);
    CountsAreRight(v, x);
  }

  lemma OwnedParts(g: Geometry, t: Tables, lost: set<nat>)
    requires Sound(g, t, lost)
    ensures lost <= t.used && Ownership(g, t.used - lost, t.inodes, t.data) && DataShape(g, t.data)
    ensures |t.inodes| == g.NodeCount() == |ImageOf(g, t)|
  {
    assert t.inodes == Owners(t.inodes, Nobody(lost));
    hide AllSound;
  }

  lemma ListedIs(g: Geometry, t: Tables, x: nat)
    requires x < |t.inodes| && Seen(g, t.inodes[x], t.data)
    ensures DataShape(g, t.data) && NodeShape(g, t.inodes[x]) && t.inodes[x].size >= 0 && K.Fits(g, t.inodes[x].size)
    ensures x < |ImageOf(g, t)| && ImageOf(g, t)[x].blocks == BlockList(g, t.inodes[x], t.data)
  {
    hide Lists, Address, BlockList;
  }

  // No block of a file is free.
  lemma NoneFreeButUsed(g: Geometry, t: Tables, lost: set<nat>, b: int, x: nat)
    requires Sound(g, t, lost) && Inv(VolumeOf(g, t))
    ensures !Fsck.FreeButUsed(ImageOf(g, t), t.used, b, x)
  {
    OwnedParts(g, t, lost);
    hide Inv, Sound, FileOK, Fsck.Reachable, Ownership, VolumeOf, ImageOf;
    if Fsck.FreeButUsed(ImageOf(g, t), t.used, b, x) {
      FoundIsOwned(g, t, lost, b, x);
      OneOwner(g, t, lost, b, x, x);
    }
  }

  // ----- allocated blocks -----

  // Block d lies beyond the size of file n.
  ghost predicate Beyond(g: Geometry, t: Tables, n: nat, d: int) {
    && n < |t.inodes| && Live(t.inodes[n]) && DataShape(g, t.data) && NodeShape(g, t.inodes[n]) && t.inodes[n].size >= 0
    && d != NOT_A_BLOCK
    && exists b: nat :: T.Span(g, t.inodes[n].size) <= b < Slots(g) && Address(g, t.inodes[n], t.data, b) == d
  }

  ghost predicate BeyondSome(g: Geometry, t: Tables, d: int) {
    exists n: nat :: Beyond(g, t, n, d)
  }

  lemma BeyondSomeIs(g: Geometry, t: Tables, d: int)
    ensures BeyondSome(g, t, d) <==> exists n: nat :: Beyond(g, t, n, d)
  {
  }

  // An allocated block is in no file that fsck finds exactly when it is lost or beyond the size of its file.
  lemma Unfound(g: Geometry, t: Tables, lost: set<nat>, d: nat)
    requires Sound(g, t, lost) && Inv(VolumeOf(g, t))
    ensures d in t.used && !Fsck.InUse(ImageOf(g, t), d) <==> d in lost || BeyondSome(g, t, d)
  {
    hide *;
    BeyondSomeIs(g, t, d);
    OwnedParts(g, t, lost);
    if d in lost {
      LostIsUnfound(g, t, lost, d);
    } else if d in t.used {
      var n := OwnerOf(g, t, lost, d);
      OwnedIsFound(g, t, lost, d, n);
    } else {
      BeyondIsUsed(g, t, lost, d);
    }
  }

  lemma OwnerOf(g: Geometry, t: Tables, lost: set<nat>, d: nat) returns (n: nat)
    requires Sound(g, t, lost) && d in t.used && d !in lost
    ensures n < |t.inodes| && Live(t.inodes[n]) && DataShape(g, t.data) && FileOK(g, t.inodes[n], t.data)
    ensures Owns(g, t.inodes[n], t.data, d)
  {
    OwnedParts(g, t, lost);
    assert d in t.used - lost;
    n :| 0 <= n < |t.inodes| && Live(t.inodes[n]) && Owns(g, t.inodes[n], t.data, d);
  }

  // A file of the image that holds a block owns it.
  lemma FoundIsOwned(g: Geometry, t: Tables, lost: set<nat>, d: int, x: nat)
    requires Sound(g, t, lost) && Inv(VolumeOf(g, t)) && x < |t.inodes| && Fsck.Reachable(ImageOf(g, t), x)
    requires x < |ImageOf(g, t)| && d in ImageOf(g, t)[x].blocks
    ensures Live(t.inodes[x]) && DataShape(g, t.data) && FileOK(g, t.inodes[x], t.data)
    ensures Owns(g, t.inodes[x], t.data, d)
  {
    ReachesTheLive(g, t, lost, x);
    LiveIsSeen(g, t, lost, x);
    ListedIs(g, t, x);
    hide Inv, Seen, FileOK, Fsck.Reachable, VolumeOf, AllSound;
    ListedIsOwned(g, t.inodes[x], t.data, d);
  }

  lemma OneOwner(g: Geometry, t: Tables, lost: set<nat>, d: int, m: nat, n: nat)
    requires Sound(g, t, lost) && m < |t.inodes| && n < |t.inodes| && Live(t.inodes[m]) && Live(t.inodes[n])
    requires DataShape(g, t.data) && FileOK(g, t.inodes[m], t.data) && FileOK(g, t.inodes[n], t.data)
    requires Owns(g, t.inodes[m], t.data, d) && Owns(g, t.inodes[n], t.data, d)
    ensures m == n && d in t.used - lost
  {
    OwnedParts(g, t, lost);
    OwnedInData(g, t.inodes[m], t.data, d);
    hide FileOK, AllSound;
  }

  lemma LostIsUnfound(g: Geometry, t: Tables, lost: set<nat>, d: nat)
    requires Sound(g, t, lost) && Inv(VolumeOf(g, t)) && d in lost
    ensures d in t.used && !Fsck.InUse(ImageOf(g, t), d)
  {
    OwnedParts(g, t, lost);
    hide Inv, Sound, Fsck.Reachable, VolumeOf, Ownership;
    if Fsck.InUse(ImageOf(g, t), d) {
      var x :| 0 <= x < |ImageOf(g, t)| && Fsck.Reachable(ImageOf(g, t), x) && d in ImageOf(g, t)[x].blocks;
      FoundIsOwned(g, t, lost, d, x);
      OneOwner(g, t, lost, d, x, x);
    }
  }

  // A block beyond the size of a file is that file's.
  lemma BeyondIsOwned(g: Geometry, t: Tables, lost: set<nat>, d: int, n: nat)
    requires Sound(g, t, lost) && Beyond(g, t, n, d)
    ensures n < |t.inodes| && Live(t.inodes[n]) && DataShape(g, t.data) && FileOK(g, t.inodes[n], t.data)
    ensures Owns(g, t.inodes[n], t.data, d)
  {
    OwnedParts(g, t, lost);
    hide T.Span, Address, AllSound;
  }

  lemma BeyondIsUsed(g: Geometry, t: Tables, lost: set<nat>, d: nat)
    requires Sound(g, t, lost) && d !in t.used
    ensures !exists n: nat :: Beyond(g, t, n, d)
  {
    hide Beyond, Sound;
    forall n: nat
      ensures !Beyond(g, t, n, d)
    {
      if Beyond(g, t, n, d) {
        BeyondIsOwned(g, t, lost, d, n);
        OneOwner(g, t, lost, d, n, n);
      }
    }
  }

  // Whether fsck finds a block with an owner.
  lemma OwnedIsFound(g: Geometry, t: Tables, lost: set<nat>, d: nat, n: nat)
    requires Sound(g, t, lost) && Inv(VolumeOf(g, t)) && d in t.used && n < |t.inodes| && Live(t.inodes[n])
    requires DataShape(g, t.data) && FileOK(g, t.inodes[n], t.data) && Owns(g, t.inodes[n], t.data, d)
    ensures Fsck.InUse(ImageOf(g, t), d) <==> !exists m: nat :: Beyond(g, t, m, d)
  {
    ReachesTheLive(g, t, lost, n);
    LiveIsSeen(g, t, lost, n);
    ListedIs(g, t, n);
    ListedIsOwned(g, t.inodes[n], t.data, d);
    hide Inv, Sound, Seen, FileOK, Fsck.Reachable, VolumeOf, T.Span, Address, Owns, BlockList;
    if Fsck.InUse(ImageOf(g, t), d) {
      var x :| 0 <= x < |ImageOf(g, t)| && Fsck.Reachable(ImageOf(g, t), x) && d in ImageOf(g, t)[x].blocks;
      FoundIsOwned(g, t, lost, d, x);
      OneOwner(g, t, lost, d, x, n);
      forall m: nat
        ensures !Beyond(g, t, m, d)
      {
        if Beyond(g, t, m, d) {
          BeyondIsOwned(g, t, lost, d, m);
          OneOwner(g, t, lost, d, m, n);
        }
      }
    } else {
      assert Beyond(g, t, n, d);
    }
  }

  // ----- the bits fsck looks at -----

  // The numbers beyond the free list whose bit is set.
  ghost predicate Phantom(g: Geometry, disk: Disk, b: nat)
    requires g.Valid() && DiskShape(g, disk)
  {
    g.ListBits() <= b < g.blockCount && MarkedOnDisk(g, disk, b)
  }

  lemma ListedBit(g: Geometry, disk: Disk, used: set<nat>, b: nat)
    requires g.Valid() && DiskShape(g, disk) && BitmapAgrees(g, disk, used) && b < g.ListBits() && b < g.blockCount
    ensures MarkedOnDisk(g, disk, b) <==> b in used
  {
    ListBlockInRange(g, b);
    assert MarkedOnDisk(g, disk, b) == Allocated(g, disk, b);
  }

  // The scan reports nothing exactly when no block is lost, no file has a block beyond its size, and no
  // number beyond the free list reads as allocated.
  lemma ScanIsClean(g: Geometry, disk: Disk, t: Tables, lost: set<nat>)
    requires g.Valid() && DiskShape(g, disk) && BitmapAgrees(g, disk, t.used)
    requires Sound(g, t, lost) && Inv(VolumeOf(g, t))
    ensures (forall b: nat :: b < g.blockCount ==> !(MarkedOnDisk(g, disk, b) && !Fsck.InUse(ImageOf(g, t), b)))
            <==> lost == {} && AllCovered(g, t.inodes, t.data) && forall b: nat :: !Phantom(g, disk, b)
  {
    hide *;
    UsedFits(g, disk, t.used);
    OwnedParts(g, t, lost);
    forall b: nat | b < g.blockCount
      ensures MarkedOnDisk(g, disk, b) && !Fsck.InUse(ImageOf(g, t), b) <==> Accused(g, disk, t, lost, b)
    {
      WhatIsReported(g, disk, t, lost, b);
    }
    CoveredIs(g, t, lost);
    NothingReported(g, disk, t, lost);
  }

  // The numbers the scan reports.
  ghost predicate Accused(g: Geometry, disk: Disk, t: Tables, lost: set<nat>, b: nat)
    requires g.Valid() && DiskShape(g, disk)
  {
    b in lost || BeyondSome(g, t, b) || Phantom(g, disk, b)
  }

  lemma UsedFits(g: Geometry, disk: Disk, used: set<nat>)
    requires g.Valid() && DiskShape(g, disk) && BitmapAgrees(g, disk, used)
    ensures forall d :: d in used ==> d < g.DataCount() && d < g.blockCount && d < g.ListBits()
  {
  }

  // One number of the scan.
  lemma WhatIsReported(g: Geometry, disk: Disk, t: Tables, lost: set<nat>, b: nat)
    requires g.Valid() && DiskShape(g, disk) && BitmapAgrees(g, disk, t.used)
    requires Sound(g, t, lost) && Inv(VolumeOf(g, t)) && b < g.blockCount
    ensures MarkedOnDisk(g, disk, b) && !Fsck.InUse(ImageOf(g, t), b) <==> Accused(g, disk, t, lost, b)
  {
    hide *;
    AccusedIs(g, disk, t, lost, b);
    BeyondSomeIs(g, t, b);
    UsedFits(g, disk, t.used);
    OwnedParts(g, t, lost);
    Unfound(g, t, lost, b);
    PhantomIs(g, disk, b);
    if b < g.ListBits() {
      ListedBit(g, disk, t.used, b);
      if b !in t.used {
        BeyondIsUsed(g, t, lost, b);
      }
    } else {
      NotInUse(g, t, lost, b);
      BeyondIsUsed(g, t, lost, b);
    }
  }

  lemma PhantomIs(g: Geometry, disk: Disk, b: nat)
    requires g.Valid() && DiskShape(g, disk) && b < g.blockCount
    ensures Phantom(g, disk, b) <==> g.ListBits() <= b && MarkedOnDisk(g, disk, b)
  {
  }

  // What is not allocated is in no file.
  lemma NotInUse(g: Geometry, t: Tables, lost: set<nat>, b: nat)
    requires Sound(g, t, lost) && Inv(VolumeOf(g, t)) && b !in t.used
    ensures !Fsck.InUse(ImageOf(g, t), b)
  {
    hide Inv, Sound, Fsck.Reachable, VolumeOf;
    if Fsck.InUse(ImageOf(g, t), b) {
      var x :| 0 <= x < |ImageOf(g, t)| && Fsck.Reachable(ImageOf(g, t), x) && b in ImageOf(g, t)[x].blocks;
      FoundIsOwned(g, t, lost, b, x);
      OneOwner(g, t, lost, b, x, x);
    }
  }

  // No block beyond a size, for every file.
  lemma CoveredIs(g: Geometry, t: Tables, lost: set<nat>)
    requires Sound(g, t, lost)
    ensures AllCovered(g, t.inodes, t.data) <==> forall n: nat, d: nat :: !Beyond(g, t, n, d)
    ensures forall n: nat, d: nat :: Beyond(g, t, n, d) ==> d in t.used
  {
    OwnedParts(g, t, lost);
    hide Ownership, FileOK;
    forall n: nat, d: nat | Beyond(g, t, n, d)
      ensures d in t.used && !T.Covered(g, t.inodes[n], t.data)
    {
      BeyondIsUsedHere(g, t, lost, n, d);
    }
    forall n: nat | n < |t.inodes| && Live(t.inodes[n])
      ensures NodeShape(g, t.inodes[n]) && t.inodes[n].size >= 0
      ensures T.Covered(g, t.inodes[n], t.data) || exists d: nat :: Beyond(g, t, n, d)
    {
      UncoveredHas(g, t, lost, n);
    }
  }

  lemma BeyondIsUsedHere(g: Geometry, t: Tables, lost: set<nat>, n: nat, d: nat)
    requires Sound(g, t, lost) && Beyond(g, t, n, d)
    ensures d in t.used && !T.Covered(g, t.inodes[n], t.data)
  {
    BeyondIsOwned(g, t, lost, d, n);
    OneOwner(g, t, lost, d, n, n);
    hide Sound, T.Span, Address, FileOK;
  }

  lemma UncoveredHas(g: Geometry, t: Tables, lost: set<nat>, n: nat)
    requires Sound(g, t, lost) && n < |t.inodes| && Live(t.inodes[n])
    ensures DataShape(g, t.data) && NodeShape(g, t.inodes[n]) && t.inodes[n].size >= 0
    ensures T.Covered(g, t.inodes[n], t.data) || exists d: nat :: Beyond(g, t, n, d)
  {
    assert NodeSound(g, t.inodes[n], t.data);
    OwnedParts(g, t, lost);
    if !T.Covered(g, t.inodes[n], t.data) {
      var b: nat :| T.Span(g, t.inodes[n].size) <= b < Slots(g) && Address(g, t.inodes[n], t.data, b) != NOT_A_BLOCK;
      var d := Address(g, t.inodes[n], t.data, b);
      assert InData(g, d);
      assert Beyond(g, t, n, d);
    }
  }

  lemma NothingReported(g: Geometry, disk: Disk, t: Tables, lost: set<nat>)
    requires g.Valid() && DiskShape(g, disk) && Sound(g, t, lost)
    requires forall d :: d in t.used ==> d < g.blockCount
    requires lost <= t.used && forall n: nat, d: nat :: Beyond(g, t, n, d) ==> d in t.used
    ensures (forall b: nat :: b < g.blockCount ==> !Accused(g, disk, t, lost, b))
            <==> lost == {} && (forall n: nat, d: nat :: !Beyond(g, t, n, d)) && forall b: nat :: !Phantom(g, disk, b)
  {
    hide Beyond, Sound, MarkedOnDisk;
    if forall b: nat :: b < g.blockCount ==> !Accused(g, disk, t, lost, b) {
      forall b: nat
        ensures b !in lost
      {
        assert b in lost ==> b in t.used && Accused(g, disk, t, lost, b);
      }
      forall n: nat, d: nat
        ensures !Beyond(g, t, n, d)
      {
        assert Beyond(g, t, n, d) ==> d in t.used && Accused(g, disk, t, lost, d);
      }
      forall b: nat
        ensures !Phantom(g, disk, b)
      {
        assert Phantom(g, disk, b) ==> Accused(g, disk, t, lost, b);
      }
    }
  }

  lemma AccusedIs(g: Geometry, disk: Disk, t: Tables, lost: set<nat>, b: nat)
    requires g.Valid() && DiskShape(g, disk)
    ensures Accused(g, disk, t, lost, b) <==> b in lost || BeyondSome(g, t, b) || Phantom(g, disk, b)
  {
  }

  // ----- the first byte after the free list: the root's mode -----

  lemma ModeByte(b1: Byte, b0: Byte)
    requires Short2(b1, b0) == S_IFDIR
    ensures b1 == 0x40
  {
  }

  lemma RootByte(g: Geometry, disk: Disk, inodes: seq<IndexNode>)
    requires g.Valid() && DiskShape(g, disk) && TableAgrees(g, disk, inodes)
    ensures |inodes| > 0 && |disk[g.inodeBlockOffset]| == g.blockSize >= 64
    ensures inodes[0].mode == S_IFDIR ==> disk[g.inodeBlockOffset][0] == 0x40
  {
    NodeBlockInRange(g, 0);
    QuotRemOf(0, g.NodesPerBlock(), 0, 0);
    QuotRemOf(0, g.blockSize, 0, 0);
    hide Quot, Rem, DecodePointers, Pointer3, Int4;
    assert inodes[0] == NodeAt(g, disk, 0);
    var block := disk[g.inodeBlockOffset];
    assert block[0..] == block;
    if inodes[0].mode == S_IFDIR {
      ModeByte(block[0], block[1]);
    }
  }

  lemma DirectoryBits(j: nat)
    requires j < 7
    ensures Bit(0x40, j) <==> j == 6
  {
    assert Bit(64, 0) == false && Bit(64, 1) == Bit(32, 0) && Bit(64, 2) == Bit(32, 1) == Bit(16, 0);
    assert Bit(64, 3) == Bit(16, 1) == Bit(8, 0) && Bit(64, 4) == Bit(8, 1) == Bit(4, 0);
    assert Bit(64, 5) == Bit(4, 1) == Bit(2, 0) && Bit(64, 6) == Bit(4, 2) == Bit(2, 1) == Bit(1, 0);
  }

  lemma FirstBitsAfter(g: Geometry, disk: Disk, j: nat)
    requires g.Valid() && DiskShape(g, disk) && j < 8 && g.ListBits() + j < g.blockCount
    ensures |disk[g.inodeBlockOffset]| > 0
    ensures MarkedOnDisk(g, disk, g.ListBits() + j) <==> Bit(disk[g.inodeBlockOffset][0], j)
  {
    QuotRemOf(g.ListBits() + j, g.BitsPerBlock(), g.ListBlocks(), j);
    ListBlockOnDisk(g, g.ListBits() + j);
    hide Quot, Rem, Bit;
  }

  // S_IFDIR sets bit 6 of that byte, and the code asks about it when the disk has a block of that number.
  lemma PhantomsOfTheRoot(g: Geometry, disk: Disk, inodes: seq<IndexNode>)
    requires g.Valid() && DiskShape(g, disk) && TableAgrees(g, disk, inodes) && |inodes| > 0
    requires inodes[0].mode == S_IFDIR
    ensures (forall b: nat :: !Phantom(g, disk, b)) <==> g.blockCount <= g.ListBits() + 6
  {
    RootByte(g, disk, inodes);
    hide TableAgrees, MarkedOnDisk, Bit, Geometry.ListBits;
    if g.blockCount > g.ListBits() + 6 {
      FirstBitsAfter(g, disk, 6);
      DirectoryBits(6);
      assert Phantom(g, disk, g.ListBits() + 6);
    } else {
      forall b: nat
        ensures !Phantom(g, disk, b)
      {
        if g.ListBits() <= b < g.blockCount {
          FirstBitsAfter(g, disk, b - g.ListBits());
          DirectoryBits(b - g.ListBits());
        }
      }
    }
  }

  // What the scan of Check reports on a disk with a root as mkfs makes it is nothing exactly when no block is
  // lost, no file has a block beyond its size, and the disk has at most six blocks more than the free list bits.
  lemma ScanIsCleanWhen(g: Geometry, disk: Disk, t: Tables, lost: set<nat>)
    requires g.Valid() && DiskShape(g, disk) && BitmapAgrees(g, disk, t.used) && TableAgrees(g, disk, t.inodes)
    requires Sound(g, t, lost) && Inv(VolumeOf(g, t)) && |t.inodes| > 0 && t.inodes[0].mode == S_IFDIR
    ensures (forall b: nat :: b < g.blockCount ==> !(MarkedOnDisk(g, disk, b) && !Fsck.InUse(ImageOf(g, t), b)))
            <==> lost == {} && AllCovered(g, t.inodes, t.data) && g.blockCount <= g.ListBits() + 6
  {
    hide *;
    ScanIsClean(g, disk, t, lost);
    PhantomsOfTheRoot(g, disk, t.inodes);
  }
}
