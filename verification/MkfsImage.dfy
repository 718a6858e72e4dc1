/** The bytes mkfs writes, and what they mean: block ownership, the volume the link law starts from, and a
    disk that fsck nevertheless complains of when it has too many blocks for its free list. */
module MkfsImage {
  import opened FsCodec
  import opened FsGeometry
  import opened FsFile
  import opened FsVolume
  import opened FsDescriptor
  import opened DirectoryEntries
  import opened FsDirectory
  import opened FsView
  import DiskFsck
  import Fsck
  import FsckBlocks
  import FsckVerdict
  import FsTruncate
  import K = FsKernel
  import LinkLaw
  import MkfsLayout

  // A layout with a data block, in the ranges of the shorts and 24-bit pointers on disk.
  lemma LayoutIsValid(blockSize: nat, blocks: nat, freeListBlocks: nat, inodeBlocks: nat, dataBlocks: nat)
    requires blockSize % INDEX_NODE_SIZE == 0 && INDEX_NODE_SIZE <= blockSize < 0x8000
    requires MkfsLayout.Optimal(dataBlocks, blockSize, blocks) && dataBlocks >= 1
    requires 1 + freeListBlocks + inodeBlocks + dataBlocks == blocks
    requires freeListBlocks * (8 * blockSize) >= dataBlocks && inodeBlocks * (blockSize / INDEX_NODE_SIZE) >= dataBlocks
    requires dataBlocks <= NOT_A_BLOCK && inodeBlocks * (blockSize / INDEX_NODE_SIZE) < 0x8000
    ensures var g := Geometry(blockSize, blocks, 1, 1 + freeListBlocks, 1 + freeListBlocks + inodeBlocks);
            g.Valid() && g.DataCount() == dataBlocks && g.NodeCount() >= dataBlocks
  {
  }

  // ----- the bytes -----

  // The root: two entries in the first data block, and three links.
  function RootNode(): (node: IndexNode)
    ensures node.Storable()
  {
    FsTruncate.NewNode(S_IFDIR).(nlink := 3, size := 2 * DIRECTORY_ENTRY_SIZE,
                                 direct := [0] + FsTruncate.NoBlocks(MAX_DIRECT_BLOCKS - 1))
  }

  lemma RootFields()
    ensures var node := RootNode();
            && node.mode == 0x4000 && node.nlink == 3 && node.uid == 0 && node.gid == 0 && node.size == 32
            && |node.direct| == 10 && node.direct[0] == 0
            && (forall i :: 1 <= i < 10 ==> node.direct[i] == 0x00FF_FFFF) && node.indirect == 0x00FF_FFFF
  {
  }

  function RootBlock(n: nat): (r: Block)
    requires n >= INDEX_NODE_SIZE
    ensures |r| == n
  {
    Patch(Patch(Zeros(n), 0, EncodeEntry(Entry(0, LinkLaw.DOT))), DIRECTORY_ENTRY_SIZE,
          EncodeEntry(Entry(0, LinkLaw.DOT_DOT)))
  }

  // Block i of the file.
  function MkfsBlock(g: Geometry, super: Block, i: nat): (r: Block)
    requires g.Valid() && |super| == g.blockSize
    ensures |r| == g.blockSize
  {
    if i == 0 then super
    else if i == g.freeListBlockOffset then SetBlockBit(Zeros(g.blockSize), 0, true)
    else if i == g.inodeBlockOffset then PatchNode(Zeros(g.blockSize), 0, RootNode())
    else if i == g.dataBlockOffset then RootBlock(g.blockSize)
    else Zeros(g.blockSize)
  }

  function MkfsDisk(g: Geometry, super: Block): (disk: Disk)
    requires g.Valid() && |super| == g.blockSize
    ensures |disk| == g.blockCount && DiskShape(g, disk)
    ensures forall i :: 0 <= i < |disk| ==> disk[i] == MkfsBlock(g, super, i)
  {
    seq(g.blockCount, i requires 0 <= i < g.blockCount => MkfsBlock(g, super, i))
  }

  lemma RootBlockEnds(n: nat)
    requires n >= INDEX_NODE_SIZE
    ensures RootBlock(n)[n - 1] == 0 && Zeros(n)[n - 1] == 0
  {
  }

  lemma OffsetsApart(g: Geometry)
    requires g.Valid()
    ensures 0 < g.freeListBlockOffset < g.inodeBlockOffset < g.dataBlockOffset < g.blockCount
  {
  }

  // The writes of mkfs, to a new file, which reads as zeros where nothing was written; the super block is any
  // block.
  method WriteImage(g: Geometry, super: Block) returns (disk: Disk)
    requires g.Valid() && |super| == g.blockSize
    ensures disk == MkfsDisk(g, super)
  {
    OffsetsApart(g);
    RootBlockEnds(g.blockSize);
    var n := g.blockSize;
    disk := seq(g.blockCount, _ => Zeros(n));
    disk := disk[0 := super];
    disk := disk[g.freeListBlockOffset := SetBlockBit(Zeros(n), 0, true)];
    hide Zeros, RootBlock, PatchNode, SetBlockBit, Geometry.Valid, RootNode;
    var i := g.freeListBlockOffset + 1;
    while i < g.inodeBlockOffset
      invariant g.freeListBlockOffset < i <= g.inodeBlockOffset && |disk| == g.blockCount
      invariant disk[0] == super && disk[g.freeListBlockOffset] == SetBlockBit(Zeros(n), 0, true)
      invariant forall j :: 0 < j < |disk| && j != g.freeListBlockOffset ==> disk[j] == Zeros(n)
    {
      disk := disk[i := Zeros(n)];
      i := i + 1;
    }
    disk := disk[g.inodeBlockOffset := PatchNode(Zeros(n), 0, RootNode())];
    disk := disk[g.dataBlockOffset := RootBlock(n)];
    var last := g.blockCount - 1;
    disk := disk[last := disk[last][n - 1 := 0]];
    forall j | 0 <= j < |disk|
      ensures disk[j] == MkfsBlock(g, super, j)
    {
    }
  }

  // ----- what they mean -----

  function FreeNode(): IndexNode {
    DecodeNode(Zeros(45))
  }

  function FreshTables(g: Geometry): (t: Tables)
    requires g.Valid()
    ensures |t.inodes| == g.NodeCount() && |t.data| == g.DataCount() && t.used == {0}
    ensures t.inodes[0] == RootNode() && forall n :: 1 <= n < |t.inodes| ==> t.inodes[n] == FreeNode()
    ensures t.data[0] == RootBlock(g.blockSize) && forall k :: 1 <= k < |t.data| ==> t.data[k] == Zeros(g.blockSize)
  {
    Tables({0}, [RootNode()] + seq(g.NodeCount() - 1, _ => FreeNode()),
           [RootBlock(g.blockSize)] + seq(g.DataCount() - 1, _ => Zeros(g.blockSize)))
  }

  lemma {:induction false} NoBit(i: nat)
    ensures !Bit(0, i)
  {
    if i > 0 {
      NoBit(i - 1);
    }
  }

  lemma FreshBit(g: Geometry, super: Block, d: nat)
    requires g.Valid() && |super| == g.blockSize && d < g.ListBits()
    ensures Allocated(g, MkfsDisk(g, super), d) <==> d == 0
  {
    ListBlockInRange(g, d);
    var n := g.blockSize;
    var block := MkfsDisk(g, super)[g.freeListBlockOffset + ListBlock(g, d)];
    NoBit(ListBit(g, d) % 8);
    assert !BlockBit(Zeros(n), ListBit(g, d));
    QuotRemOf(0, g.BitsPerBlock(), 0, 0);
    if ListBlock(g, d) == 0 {
      BlockBitAt(Zeros(n), 0, true, ListBit(g, d));
      if ListBit(g, d) == 0 {
        ListPlaceIsUnique(g, d, 0);
      }
    } else {
      OffsetsApart(g);
    }
  }

  lemma ZeroNode(block: Block, o: nat)
    requires o + 45 <= |block| && forall i :: o <= i < o + 45 ==> block[i] == 0
    ensures DecodeNode(block[o..]) == FreeNode()
  {
  }

  lemma FreshNode(g: Geometry, super: Block, n: nat)
    requires g.Valid() && |super| == g.blockSize && n < g.NodeCount()
    ensures NodeAt(g, MkfsDisk(g, super), n) == if n == 0 then RootNode() else FreeNode()
  {
    NodeBlockInRange(g, n);
    NodeOffsetIs(g, n);
    NodeOffsetIs(g, 0);
    OffsetsApart(g);
    QuotRemOf(0, g.NodesPerBlock(), 0, 0);
    QuotRemOf(0, g.blockSize, 0, 0);
    var disk := MkfsDisk(g, super);
    hide Quot, Rem, DecodeNode, RootNode;
    if NodeBlock(g, n) == 0 {
      PatchedNode(g, Zeros(g.blockSize), 0, RootNode(), n);
      StorableIsUncut(RootNode());
      if n != 0 {
        ZeroNode(Zeros(g.blockSize), NodeOffset(g, n));
      }
    } else {
      ZeroNode(Zeros(g.blockSize), NodeOffset(g, n));
    }
  }

  // The tables of the image.
  lemma MkfsDiskAgrees(g: Geometry, super: Block)
    requires g.Valid() && |super| == g.blockSize
    ensures var disk, t := MkfsDisk(g, super), FreshTables(g);
            BitmapAgrees(g, disk, t.used) && TableAgrees(g, disk, t.inodes) && DataAgrees(g, disk, t.data)
  {
    var disk, t := MkfsDisk(g, super), FreshTables(g);
    OffsetsApart(g);
    hide Allocated, NodeAt, RootNode, FreeNode, RootBlock, Zeros;
    forall d: nat | d < g.ListBits()
      ensures d in t.used <==> Allocated(g, disk, d)
    {
      FreshBit(g, super, d);
    }
    forall n | 0 <= n < |t.inodes|
      ensures t.inodes[n] == NodeAt(g, disk, n)
    {
      FreshNode(g, super, n);
    }
    forall k | 0 <= k < |t.data|
      ensures t.data[k] == disk[g.dataBlockOffset + k]
    {
    }
  }

  lemma FreeNodeIs()
    ensures FreeNode().mode == 0 && FreeNode().nlink == 0 && !Live(FreeNode()) && !IsDir(FreeNode())
  {
    hide DecodePointers, Pointer3, Int4;
    assert Zeros(45)[0] == Zeros(45)[1] == Zeros(45)[2] == Zeros(45)[3] == 0;
  }

  lemma FreshShape(g: Geometry)
    requires g.Valid()
    ensures DataShape(g, FreshTables(g).data)
  {
  }

  lemma RootAddresses(g: Geometry, data: seq<Block>, b: nat)
    requires DataShape(g, data) && b < Slots(g)
    ensures NodeShape(g, RootNode()) && Address(g, RootNode(), data, b) == if b == 0 then 0 else NOT_A_BLOCK
  {
  }

  // The root owns the one allocated block.
  lemma FreshOwnership(g: Geometry)
    requires g.Valid()
    ensures var t := FreshTables(g);
            Ownership(g, t.used, t.inodes, t.data) && FsckBlocks.AllCovered(g, t.inodes, t.data)
  {
    var t := FreshTables(g);
    FreshShape(g);
    FreeNodeIs();
    forall b: nat | b < Slots(g)
      ensures Address(g, RootNode(), t.data, b) == if b == 0 then 0 else NOT_A_BLOCK
    {
      RootAddresses(g, t.data, b);
    }
    RootAddresses(g, t.data, 0);
    assert Owns(g, t.inodes[0], t.data, 0);
    RootSpan(g);
    hide Address, FsTruncate.Span, RootNode, FreeNode, RootBlock, Zeros;
  }

  lemma RootSpan(g: Geometry)
    requires g.Valid()
    ensures FsTruncate.Span(g, 2 * DIRECTORY_ENTRY_SIZE) == 1 && RootNode().size == 2 * DIRECTORY_ENTRY_SIZE
    ensures Live(RootNode()) && IsDir(RootNode()) && RootNode().nlink == 3
  {
    QuotRemOf(2 * DIRECTORY_ENTRY_SIZE + g.blockSize - 1, g.blockSize, 1, 2 * DIRECTORY_ENTRY_SIZE - 1);
  }

  lemma RootBlockEntries(n: nat)
    requires n >= INDEX_NODE_SIZE
    ensures DecodeEntry(RootBlock(n), 0) == Entry(0, LinkLaw.DOT)
    ensures DecodeEntry(RootBlock(n), DIRECTORY_ENTRY_SIZE) == Entry(0, LinkLaw.DOT_DOT)
  {
    var first := Patch(Zeros(n), 0, EncodeEntry(Entry(0, LinkLaw.DOT)));
    EntryRoundTrip(Zeros(n), 0, Entry(0, LinkLaw.DOT));
    EntryRoundTrip(first, DIRECTORY_ENTRY_SIZE, Entry(0, LinkLaw.DOT_DOT));
    OtherCellKept(first, DIRECTORY_ENTRY_SIZE, Entry(0, LinkLaw.DOT_DOT), 0);
  }

  // The root directory on the fresh disk lists what the link law starts from.
  lemma FreshRootListing(g: Geometry)
    requires g.Valid()
    ensures var t := FreshTables(g); Lists(g, t.inodes[0], t.data, LinkLaw.Dots(0, 0))
  {
    var t := FreshTables(g);
    FreshShape(g);
    RootAddresses(g, t.data, 0);
    RootSpan(g);
    TwoFit(g);
    QuotRemOf(0, g.blockSize, 0, 0);
    QuotRemOf(DIRECTORY_ENTRY_SIZE, g.blockSize, 0, DIRECTORY_ENTRY_SIZE);
    assert Contents(g, RootNode(), t.data)[0] == RootBlock(g.blockSize);
    hide RootBlock, Quot, Rem, Address, RootNode, Zeros, FreeNode, Listing, AllFit, K.Fits, LinkLaw.Dots;
    RootListed(Contents(g, RootNode(), t.data), g.blockSize);
    assert NoHoles(g, RootNode(), t.data, 2);
  }

  lemma RootListed(c: seq<Block>, n: nat)
    requires |c| > 0 && n >= INDEX_NODE_SIZE && c[0] == RootBlock(n)
    ensures LinkLaw.Dots(0, 0) == Listing(c, n, 2) && |LinkLaw.Dots(0, 0)| == 2
  {
    RootBlockEntries(n);
    QuotRemOf(0, n, 0, 0);
    QuotRemOf(DIRECTORY_ENTRY_SIZE, n, 0, DIRECTORY_ENTRY_SIZE);
    hide RootBlock, DecodeEntry, Quot, Rem;
    assert EntryOf(c, n, 0) == Entry(0, LinkLaw.DOT);
    assert EntryOf(c, n, 1) == Entry(0, LinkLaw.DOT_DOT);
  }

  lemma TwoFit(g: Geometry)
    requires g.Valid()
    ensures K.Fits(g, 2 * DIRECTORY_ENTRY_SIZE) && Slots(g) > 0
    ensures AllFit(LinkLaw.Dots(0, 0))
  {
    TimesAtLeast(Slots(g), 1, g.blockSize);
  }

  // The fresh disk is what the link law starts from.
  lemma FreshView(g: Geometry)
    requires g.Valid()
    ensures Sound(g, FreshTables(g), {}) && VolumeOf(g, FreshTables(g)) == LinkLaw.Mkfs(g.NodeCount())
  {
    var t := FreshTables(g);
    FreshOwnership(g);
    FreshRootListing(g);
    RootSpan(g);
    FreeNodeIs();
    ListsIsView(g, t.inodes[0], t.data, LinkLaw.Dots(0, 0));
    assert t.used - {} == t.used && Owners(t.inodes, Nobody({})) == t.inodes;
    hide Ownership, Lists, RootNode, FreeNode, RootBlock, Zeros, NodeSound;
    FileView(g, FreeNode(), t.data);
    var v := VolumeOf(g, t);
    forall x | 0 <= x < |v|
      ensures v[x] == LinkLaw.Mkfs(g.NodeCount())[x]
    {
    }
  }

  // mkfs and the first boot: a file system whose volume is the one the link law starts from.
  method Format(g: Geometry, super: Block) returns (fs: FileSystem)
    requires g.Valid() && |super| == g.blockSize
    ensures fresh(fs) && fresh(fs.freeListBitBlock) && fresh(fs.indexBlockBytes)
    ensures fs.Valid() && fs.g == g && fs.file == MkfsDisk(g, super) && fs.Now() == FreshTables(g)
    ensures Sound(g, fs.Now(), {}) && VolumeOf(g, fs.Now()) == LinkLaw.Mkfs(g.NodeCount())
  {
    hide FileSystem.Valid;
    var disk := WriteImage(g, super);
    MkfsDiskAgrees(g, super);
    FreshView(g);
    ghost var t := FreshTables(g);
    fs := new FileSystem(g, disk, t.used, t.inodes, t.data);
  }

  // ----- a fresh disk that fsck complains of -----

  // fsck of a fresh disk is silent exactly when the disk has at most six blocks more than free list bits.
  lemma FreshScan(g: Geometry, super: Block)
    requires g.Valid() && |super| == g.blockSize
    ensures var disk, t := MkfsDisk(g, super), FreshTables(g);
            (forall b: nat :: b < g.blockCount ==>
                !(MarkedOnDisk(g, disk, b) && !Fsck.InUse(DiskFsck.ImageOf(g, t), b)))
            <==> g.blockCount <= g.ListBits() + 6
  {
    hide *;
    NodeCountIs(g);
    MkfsDiskAgrees(g, super);
    FreshView(g);
    FreshOwnership(g);
    RootMode();
    LinkLaw.MkfsInv(g.NodeCount());
    FsckVerdict.ScanIsCleanWhen(g, MkfsDisk(g, super), FreshTables(g), {});
  }

  lemma NodeCountIs(g: Geometry)
    requires g.Valid()
    ensures 0 < g.NodeCount() < 0x8000
  {
  }

  lemma RootMode()
    ensures RootNode().mode == S_IFDIR
  {
  }

  // What it says of a disk with more.
  lemma SeventhBit(g: Geometry, super: Block)
    requires g.Valid() && |super| == g.blockSize && g.ListBits() + 6 < g.blockCount
    ensures MarkedOnDisk(g, MkfsDisk(g, super), g.ListBits() + 6)
    ensures !Fsck.InUse(DiskFsck.ImageOf(g, FreshTables(g)), g.ListBits() + 6)
  {
    hide *;
    NodeCountIs(g);
    MkfsDiskAgrees(g, super);
    FreshView(g);
    LinkLaw.MkfsInv(g.NodeCount());
    RootMode();
    FsckVerdict.RootByte(g, MkfsDisk(g, super), FreshTables(g).inodes);
    FsckVerdict.FirstBitsAfter(g, MkfsDisk(g, super), 6);
    FsckVerdict.DirectoryBits(6);
    ListIsLonger(g);
    FsckVerdict.NotInUse(g, FreshTables(g), {}, g.ListBits() + 6);
  }

  lemma ListIsLonger(g: Geometry)
    requires g.Valid()
    ensures g.ListBits() >= 1 && forall b: nat :: b >= 1 ==> b !in FreshTables(g).used
  {
  }

  // mkfs of 600 blocks of 64 bytes makes such a disk: 299 data blocks, one free list block of 512 bits. fsck then
  // reports block 518.
  lemma FreshDiskAccused(g: Geometry, super: Block)
    requires g == Geometry(64, 600, 1, 2, 301) && |super| == 64
    ensures MkfsLayout.Total(299, 64) == 600
    ensures g.Valid() && g.DataCount() == 299 && MarkedOnDisk(g, MkfsDisk(g, super), 518)
    ensures !Fsck.InUse(DiskFsck.ImageOf(g, FreshTables(g)), 518)
  {
    AccusedGeometry(g);
    hide *;
    SeventhBit(g, super);
  }

  lemma AccusedGeometry(g: Geometry)
    requires g == Geometry(64, 600, 1, 2, 301)
    ensures MkfsLayout.Total(299, 64) == 600
    ensures g.Valid() && g.DataCount() == 299 && g.ListBits() == 512
  {
  }
}
