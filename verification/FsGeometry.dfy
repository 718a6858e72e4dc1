/** Where things are on the simulated disk, and what a disk image says: the set of allocated data
    blocks, the table of index nodes, and the data blocks. */
module FsGeometry {
  import opened FsCodec

  datatype Geometry = Geometry(blockSize: nat, blockCount: nat, freeListBlockOffset: nat,
                               inodeBlockOffset: nat, dataBlockOffset: nat)
  {
    function BitsPerBlock(): nat { 8 * blockSize }
    function NodesPerBlock(): nat { blockSize / INDEX_NODE_SIZE }
    function DataCount(): int { blockCount - dataBlockOffset }
    function ListBlocks(): int { inodeBlockOffset - freeListBlockOffset }
    function ListBits(): int { ListBlocks() * BitsPerBlock() }
    function NodeCount(): int { (dataBlockOffset - inodeBlockOffset) * NodesPerBlock() }

    // The superblock comes first, the block size is a multiple of the node size, every data block
    // has a bit, and node numbers fit a short.
    predicate Valid() {
      && INDEX_NODE_SIZE <= blockSize < 0x8000 && blockSize % INDEX_NODE_SIZE == 0
      && 1 == freeListBlockOffset <= inodeBlockOffset <= dataBlockOffset < blockCount
      && DataCount() <= ListBits()
      && DataCount() <= NOT_A_BLOCK
      && 1 <= NodeCount() < 0x8000
    }
  }

  type Disk = seq<Block>

  predicate DiskShape(g: Geometry, disk: Disk) {
    |disk| == g.blockCount && forall b :: 0 <= b < |disk| ==> |disk[b]| == g.blockSize
  }

  function Quot(x: nat, n: nat): nat
    requires n >= 1
  {
    x / n
  }

  function Rem(x: nat, n: nat): (r: nat)
    requires n >= 1
    ensures r < n
  {
    x % n
  }

  lemma DivMod(x: nat, n: nat)
    requires n >= 1
    ensures x == Quot(x, n) * n + Rem(x, n)
  {
  }

  lemma TimesAtLeast(k: nat, m: nat, n: nat)
    requires k >= m
    ensures k * n >= m * n
  {
  }

  lemma QuotientBound(x: nat, n: nat, limit: nat)
    requires n >= 1 && x < limit * n
    ensures Quot(x, n) < limit
  {
  }

  // A quotient and a remainder in range are the quotient and the remainder.
  lemma QuotRemUnique(q: nat, r: nat, q': nat, r': nat, n: nat)
    requires q * n + r == q' * n + r' && r < n && r' < n
    ensures q == q' && r == r'
  {
    if q < q' {
      TimesAtLeast(q', q + 1, n);
    } else if q' < q {
      TimesAtLeast(q, q' + 1, n);
    }
  }

  lemma QuotRemOf(x: nat, n: nat, q: nat, r: nat)
    requires n >= 1 && x == q * n + r && r < n
    ensures Quot(x, n) == q && Rem(x, n) == r
  {
    DivMod(x, n);
    QuotRemUnique(Quot(x, n), Rem(x, n), q, r, n);
  }

  // ----- the free list -----

  function ListBlock(g: Geometry, d: nat): nat
    requires g.Valid()
  {
    Quot(d, g.BitsPerBlock())
  }

  function ListBit(g: Geometry, d: nat): (k: nat)
    requires g.Valid()
    ensures k < 8 * g.blockSize
  {
    Rem(d, g.BitsPerBlock())
  }

  lemma ListBlockInRange(g: Geometry, d: nat)
    requires g.Valid() && d < g.ListBits()
    ensures ListBlock(g, d) < g.ListBlocks()
  {
  }

  lemma ListPlaceIsUnique(g: Geometry, d: nat, e: nat)
    requires g.Valid() && ListBlock(g, d) == ListBlock(g, e) && ListBit(g, d) == ListBit(g, e)
    ensures d == e
  {
    DivMod(d, g.BitsPerBlock());
    DivMod(e, g.BitsPerBlock());
  }

  // loadFreeListBlock and isBitSet, for any block number of the disk: from the end of the free list
  // on, the bit is one of an index node block or a data block.
  lemma ListBlockOnDisk(g: Geometry, i: nat)
    requires g.Valid() && i < g.blockCount
    ensures g.freeListBlockOffset + ListBlock(g, i) < g.blockCount
  {
    DivMod(i, g.BitsPerBlock());
    hide Quot, Rem;
    if ListBlock(g, i) >= 1 {
      TimesAtLeast(g.BitsPerBlock(), 2, ListBlock(g, i));
    }
  }

  predicate MarkedOnDisk(g: Geometry, disk: Disk, i: nat)
    requires g.Valid() && DiskShape(g, disk) && i < g.blockCount
  {
    ListBlockOnDisk(g, i);
    BlockBit(disk[g.freeListBlockOffset + ListBlock(g, i)], ListBit(g, i))
  }

  predicate Allocated(g: Geometry, disk: Disk, d: nat)
    requires g.Valid() && DiskShape(g, disk) && d < g.ListBits()
  {
    ListBlockInRange(g, d);
    BlockBit(disk[g.freeListBlockOffset + ListBlock(g, d)], ListBit(g, d))
  }

  // The bits of the data blocks say which are allocated, and the other bits of the list are clear.
  ghost predicate BitmapAgrees(g: Geometry, disk: Disk, used: set<nat>)
    requires g.Valid() && DiskShape(g, disk)
  {
    && (forall d :: d in used ==> d < g.DataCount())
    && (forall d: nat :: d < g.ListBits() ==> (d in used <==> Allocated(g, disk, d)))
  }

  // ----- the index nodes -----

  function NodeBlock(g: Geometry, n: nat): nat
    requires g.Valid()
  {
    Quot(n, g.NodesPerBlock())
  }

  function NodeOffset(g: Geometry, n: nat): (o: nat)
    requires g.Valid()
  {
    Rem(n * INDEX_NODE_SIZE, g.blockSize)
  }

  // (n * 64) % blockSize counts whole nodes into the block.
  lemma NodeOffsetIs(g: Geometry, n: nat)
    requires g.Valid()
    ensures NodeOffset(g, n) == Rem(n, g.NodesPerBlock()) * INDEX_NODE_SIZE
    ensures NodeOffset(g, n) + INDEX_NODE_SIZE <= g.blockSize
  {
    var k := g.NodesPerBlock();
    var q, r := Quot(n, k), Rem(n, k);
    DivMod(n, k);
    assert g.blockSize == k * INDEX_NODE_SIZE;
    assert n * INDEX_NODE_SIZE == q * g.blockSize + r * INDEX_NODE_SIZE by {
      assert (q * k) * INDEX_NODE_SIZE == q * (k * INDEX_NODE_SIZE);
    }
    QuotRemOf(n * INDEX_NODE_SIZE, g.blockSize, q, r * INDEX_NODE_SIZE);
  }

  lemma NodeBlockInRange(g: Geometry, n: nat)
    requires g.Valid() && n < g.NodeCount()
    ensures NodeBlock(g, n) < g.dataBlockOffset - g.inodeBlockOffset
  {
  }

  // Two nodes in the same block do not overlap.
  lemma NodePlaceIsUnique(g: Geometry, m: nat, n: nat)
    requires g.Valid() && m != n && NodeBlock(g, m) == NodeBlock(g, n)
    ensures NodeOffset(g, m) + INDEX_NODE_SIZE <= NodeOffset(g, n)
            || NodeOffset(g, n) + INDEX_NODE_SIZE <= NodeOffset(g, m)
  {
    NodeOffsetIs(g, m);
    NodeOffsetIs(g, n);
    DivMod(m, g.NodesPerBlock());
    DivMod(n, g.NodesPerBlock());
  }

  function NodeIn(g: Geometry, block: Block, n: nat): IndexNode
    requires g.Valid() && |block| == g.blockSize
  {
    NodeOffsetIs(g, n);
    DecodeNode(block[NodeOffset(g, n)..])
  }

  function NodeAt(g: Geometry, disk: Disk, n: nat): IndexNode
    requires g.Valid() && DiskShape(g, disk) && n < g.NodeCount()
  {
    NodeBlockInRange(g, n);
    NodeIn(g, disk[g.inodeBlockOffset + NodeBlock(g, n)], n)
  }

  ghost predicate TableAgrees(g: Geometry, disk: Disk, inodes: seq<IndexNode>)
    requires g.Valid() && DiskShape(g, disk)
  {
    |inodes| == g.NodeCount() && forall n :: 0 <= n < |inodes| ==> inodes[n] == NodeAt(g, disk, n)
  }

  // ----- the data -----

  ghost predicate DataAgrees(g: Geometry, disk: Disk, data: seq<Block>)
    requires g.Valid() && DiskShape(g, disk)
  {
    |data| == g.DataCount() && forall k :: 0 <= k < |data| ==> data[k] == disk[g.dataBlockOffset + k]
  }

  // ----- one block written -----

  lemma WriteListBlock(g: Geometry, disk: Disk, used: set<nat>, inodes: seq<IndexNode>, data: seq<Block>, d: nat,
                       on: bool)
    requires g.Valid() && DiskShape(g, disk) && d < g.DataCount()
    requires BitmapAgrees(g, disk, used) && TableAgrees(g, disk, inodes) && DataAgrees(g, disk, data)
    ensures ListBlock(g, d) < g.ListBlocks()
    ensures var b := g.freeListBlockOffset + ListBlock(g, d);
            var disk' := disk[b := SetBlockBit(disk[b], ListBit(g, d), on)];
            && DiskShape(g, disk')
            && BitmapAgrees(g, disk', if on then used + {d} else used - {d})
            && TableAgrees(g, disk', inodes) && DataAgrees(g, disk', data)
  {
    ListBlockInRange(g, d);
    var b := g.freeListBlockOffset + ListBlock(g, d);
    var disk' := disk[b := SetBlockBit(disk[b], ListBit(g, d), on)];
    forall e: nat | e < g.ListBits()
      ensures Allocated(g, disk', e) == if e == d then on else Allocated(g, disk, e)
    {
      ListBlockInRange(g, e);
      if ListBlock(g, e) == ListBlock(g, d) {
        BlockBitAt(disk[b], ListBit(g, d), on, ListBit(g, e));
        if ListBit(g, e) == ListBit(g, d) {
          ListPlaceIsUnique(g, d, e);
        }
      }
    }
    forall n | 0 <= n < |inodes|
      ensures NodeAt(g, disk', n) == NodeAt(g, disk, n)
    {
      NodeBlockInRange(g, n);
    }
  }

  lemma WriteDataBlock(g: Geometry, disk: Disk, used: set<nat>, inodes: seq<IndexNode>, data: seq<Block>, k: nat,
                       block: Block)
    requires g.Valid() && DiskShape(g, disk) && k < g.DataCount() && |block| == g.blockSize
    requires BitmapAgrees(g, disk, used) && TableAgrees(g, disk, inodes) && DataAgrees(g, disk, data)
    ensures var disk' := disk[g.dataBlockOffset + k := block];
            && DiskShape(g, disk')
            && BitmapAgrees(g, disk', used) && TableAgrees(g, disk', inodes)
            && DataAgrees(g, disk', data[k := block])
  {
    var disk' := disk[g.dataBlockOffset + k := block];
    forall e: nat | e < g.ListBits()
      ensures Allocated(g, disk', e) == Allocated(g, disk, e)
    {
      ListBlockInRange(g, e);
    }
    forall n | 0 <= n < |inodes|
      ensures NodeAt(g, disk', n) == NodeAt(g, disk, n)
    {
      NodeBlockInRange(g, n);
    }
  }

  // Store a node's bytes over its place in a block.
  function PatchNode(block: Block, offset: nat, node: IndexNode): (r: Block)
    requires node.Shaped() && offset + INDEX_NODE_SIZE <= |block|
    ensures |r| == |block|
  {
    block[..offset] + EncodeNode(node) + block[offset + 45..]
  }

  lemma PatchedNode(g: Geometry, block: Block, m: nat, node: IndexNode, n: nat)
    requires g.Valid() && |block| == g.blockSize && node.Shaped()
    requires NodeOffset(g, m) + INDEX_NODE_SIZE <= g.blockSize
    requires NodeBlock(g, m) == NodeBlock(g, n)
    ensures NodeIn(g, PatchNode(block, NodeOffset(g, m), node), n) == if n == m then Cut(node) else NodeIn(g, block, n)
  {
    NodeOffsetIs(g, n);
    var o, p := NodeOffset(g, m), NodeOffset(g, n);
    var block' := PatchNode(block, o, node);
    if n == m {
      assert block'[o..] == EncodeNode(node) + block[o + 45..];
      NodeRoundTrip(node, block[o + 45..]);
    } else {
      NodePlaceIsUnique(g, m, n);
      assert block'[p..][..45] == block[p..][..45];
      SameBytesSameNode(block'[p..], block[p..]);
    }
  }

  lemma SameBytesSameNode(a: seq<Byte>, b: seq<Byte>)
    requires |a| >= 45 && |b| >= 45 && a[..45] == b[..45]
    ensures DecodeNode(a) == DecodeNode(b)
  {
  }

  lemma WriteNodeBlock(g: Geometry, disk: Disk, used: set<nat>, inodes: seq<IndexNode>, data: seq<Block>, m: nat,
                       node: IndexNode)
    requires g.Valid() && DiskShape(g, disk) && m < g.NodeCount() && node.Shaped()
    requires BitmapAgrees(g, disk, used) && TableAgrees(g, disk, inodes) && DataAgrees(g, disk, data)
    ensures NodeBlock(g, m) < g.dataBlockOffset - g.inodeBlockOffset
    ensures NodeOffset(g, m) + INDEX_NODE_SIZE <= g.blockSize
    ensures var b := g.inodeBlockOffset + NodeBlock(g, m);
            var disk' := disk[b := PatchNode(disk[b], NodeOffset(g, m), node)];
            && DiskShape(g, disk')
            && BitmapAgrees(g, disk', used) && TableAgrees(g, disk', inodes[m := Cut(node)])
            && DataAgrees(g, disk', data)
  {
    NodeBlockInRange(g, m);
    NodeOffsetIs(g, m);
    var b := g.inodeBlockOffset + NodeBlock(g, m);
    var disk' := disk[b := PatchNode(disk[b], NodeOffset(g, m), node)];
    forall n | 0 <= n < |inodes|
      ensures NodeAt(g, disk', n) == inodes[m := Cut(node)][n]
    {
      NodeBlockInRange(g, n);
      if NodeBlock(g, n) == NodeBlock(g, m) {
        PatchedNode(g, disk[b], m, node, n);
      }
    }
    forall e: nat | e < g.ListBits()
      ensures Allocated(g, disk', e) == Allocated(g, disk, e)
    {
      ListBlockInRange(g, e);
    }
  }
}
