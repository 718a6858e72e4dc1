/** FileSystem.cc as it runs: a backing file, a one-block cache of the free list and a one-block
    cache of the index nodes, with two rotating cursors. */
module FsVolume {
  import opened FsCodec
  import opened FsGeometry

  // Positions passed going round from `start` up to but not including `cursor`.
  predicate Passed(start: nat, cursor: nat, k: nat) {
    if start <= cursor then start <= k < cursor else k >= start || k < cursor
  }

  // What the disk says: allocated data blocks, index nodes, data blocks.
  datatype Tables = Tables(used: set<nat>, inodes: seq<IndexNode>, data: seq<Block>)

  class FileSystem {
    const g: Geometry
    var file: Disk
    const freeListBitBlock: array<Byte>
    var currentFreeListBlock: int
    var currentFreeListBitNumber: nat
    const indexBlockBytes: array<Byte>
    var currentIndexNodeBlock: int
    var currentIndexNodeNumber: nat

    // What the file says.
    ghost var used: set<nat>
    ghost var inodes: seq<IndexNode>
    ghost var data: seq<Block>

    ghost function Now(): Tables
      reads this
    {
      Tables(used, inodes, data)
    }

    // Both buffers equal the disk blocks they stand for.
    ghost predicate Cached()
      reads this, freeListBitBlock, indexBlockBytes
    {
      && g.Valid() && DiskShape(g, file)
      && freeListBitBlock != indexBlockBytes
      && freeListBitBlock.Length == g.blockSize && indexBlockBytes.Length == g.blockSize
      && -1 <= currentFreeListBlock < g.blockCount - g.freeListBlockOffset
      && (currentFreeListBlock >= 0 ==> freeListBitBlock[..] == file[g.freeListBlockOffset + currentFreeListBlock])
      && -1 <= currentIndexNodeBlock < g.dataBlockOffset - g.inodeBlockOffset
      && (currentIndexNodeBlock >= 0 ==> indexBlockBytes[..] == file[g.inodeBlockOffset + currentIndexNodeBlock])
      && currentFreeListBitNumber < g.DataCount() && currentIndexNodeNumber < g.NodeCount()
      && Agrees()
    }

    // As long as nobody asks about a block beyond the free list, the first buffer holds a part of it.
    ghost predicate Valid()
      reads this, freeListBitBlock, indexBlockBytes
    {
      Cached() && currentFreeListBlock < g.ListBlocks()
    }

    ghost predicate Agrees()
      requires g.Valid() && DiskShape(g, file)
      reads this
    {
      BitmapAgrees(g, file, used) && TableAgrees(g, file, inodes) && DataAgrees(g, file, data)
    }

    // Open a file system over a disk image; both caches start empty.
    constructor (g: Geometry, image: Disk, ghost used0: set<nat>, ghost inodes0: seq<IndexNode>,
                 ghost data0: seq<Block>)
      requires g.Valid() && DiskShape(g, image)
      requires BitmapAgrees(g, image, used0) && TableAgrees(g, image, inodes0) && DataAgrees(g, image, data0)
      ensures Valid() && this.g == g && file == image
      ensures used == used0 && inodes == inodes0 && data == data0
      ensures currentFreeListBitNumber == 0 && currentIndexNodeNumber == 0
      ensures fresh(freeListBitBlock) && fresh(indexBlockBytes)
    {
      this.g := g;
      file := image;
      freeListBitBlock := new Byte[g.blockSize](_ => 0);
      indexBlockBytes := new Byte[g.blockSize](_ => 0);
      currentFreeListBlock, currentIndexNodeBlock := -1, -1;
      currentFreeListBitNumber, currentIndexNodeNumber := 0, 0;
      used, inodes, data := used0, inodes0, data0;
    }

    // The number is not checked: any block of the disk may be asked for.
    method LoadFreeListBlock(dataBlockNumber: nat)
      requires Cached() && dataBlockNumber < g.blockCount
      modifies freeListBitBlock, `currentFreeListBlock
      ensures Cached() && currentFreeListBlock == ListBlock(g, dataBlockNumber)
    {
      ListBlockOnDisk(g, dataBlockNumber);
      var needed := ListBlock(g, dataBlockNumber);
      if currentFreeListBlock != needed {
        FillBuffer(freeListBitBlock, file[g.freeListBlockOffset + needed]);
        currentFreeListBlock := needed;
      }
    }

    // FileSystem::is_free: the bit of any block of the disk, be there one or not.
    method IsFree(block: nat) returns (free: bool)
      requires Cached() && block < g.blockCount
      modifies freeListBitBlock, `currentFreeListBlock
      ensures Cached() && currentFreeListBlock == ListBlock(g, block) && (free <==> !MarkedOnDisk(g, file, block))
    {
      LoadFreeListBlock(block);
      var bit := ListBit(g, block);
      ListBlockOnDisk(g, block);
      assert MarkedOnDisk(g, file, block) == BlockBit(freeListBitBlock[..], bit);
      free := !Bit(freeListBitBlock[bit / 8], bit % 8);
    }

    // The bit of one data block, in the cached block.
    method IsAllocated(dataBlockNumber: nat) returns (on: bool)
      requires Valid() && dataBlockNumber < g.DataCount()
      modifies freeListBitBlock, `currentFreeListBlock
      ensures Valid() && currentFreeListBlock == ListBlock(g, dataBlockNumber)
      ensures on <==> dataBlockNumber in used
    {
      LoadFreeListBlock(dataBlockNumber);
      ListBlockInRange(g, dataBlockNumber);
      var bit := ListBit(g, dataBlockNumber);
      assert Allocated(g, file, dataBlockNumber) == BlockBit(freeListBitBlock[..], bit);
      on := Bit(freeListBitBlock[bit / 8], bit % 8);
    }

    // Change one bit of the cached block and write the block out.
    method StoreBit(dataBlockNumber: nat, on: bool)
      requires Valid() && dataBlockNumber < g.DataCount() && currentFreeListBlock == ListBlock(g, dataBlockNumber)
      modifies freeListBitBlock, `file, `used
      ensures Valid()
      ensures used == if on then old(used) + {dataBlockNumber} else old(used) - {dataBlockNumber}
    {
      var bit := ListBit(g, dataBlockNumber);
      WriteListBlock(g, file, used, inodes, data, dataBlockNumber, on);
      freeListBitBlock[bit / 8] := ByteWithBit(freeListBitBlock[bit / 8], bit % 8, on);
      assert freeListBitBlock[..] == SetBlockBit(old(freeListBitBlock[..]), bit, on);
      file := file[g.freeListBlockOffset + currentFreeListBlock := freeListBitBlock[..]];
      used := if on then used + {dataBlockNumber} else used - {dataBlockNumber};
    }

    method FreeBlock(dataBlockNumber: nat)
      requires Valid() && dataBlockNumber < g.DataCount()
      modifies freeListBitBlock, `currentFreeListBlock, `file, `used
      ensures Valid() && used == old(used) - {dataBlockNumber}
    {
      LoadFreeListBlock(dataBlockNumber);
      ListBlockInRange(g, dataBlockNumber);
      StoreBit(dataBlockNumber, false);
    }

    // The first free block going round from the cursor; -1 when there is none.
    method AllocateBlock() returns (r: int)
      requires Valid()
      modifies freeListBitBlock, `currentFreeListBlock, `currentFreeListBitNumber, `file, `used
      ensures Valid()
      ensures r == -1 <==> forall k: nat :: k < g.DataCount() ==> k in old(used)
      ensures r == -1 ==> used == old(used) && currentFreeListBitNumber == old(currentFreeListBitNumber)
      ensures r != -1 ==>
                && 0 <= r < g.DataCount() && r !in old(used) && used == old(used) + {r}
                && (forall k: nat :: k < g.DataCount() ==>
                      k in old(used) ||
                      (if old(currentFreeListBitNumber) <= r then k < old(currentFreeListBitNumber) || r <= k
                       else r <= k < old(currentFreeListBitNumber)))
                && currentFreeListBitNumber == (if r + 1 < g.DataCount() then r + 1 else 0)
    {
      hide BitmapAgrees, TableAgrees, DataAgrees;
      var save := currentFreeListBitNumber;
      var total := g.DataCount();
      while true
        invariant Valid() && used == old(used) && file == old(file)
        invariant forall k: nat :: k < total && Passed(save, currentFreeListBitNumber, k) ==> k in used
        decreases if currentFreeListBitNumber >= save then total - currentFreeListBitNumber + save
                  else save - currentFreeListBitNumber
      {
        var allocated' := IsAllocated(currentFreeListBitNumber);
        var previous := currentFreeListBitNumber;
        currentFreeListBitNumber := currentFreeListBitNumber + 1;
        if currentFreeListBitNumber >= total {
          currentFreeListBitNumber := 0;
        }
        if !allocated' {
          StoreBit(previous, true);
          return previous;
        }
        if save == currentFreeListBitNumber {
          return -1;
        }
      }
    }

    method LoadIndexNodeBlock(n: nat)
      requires Valid() && n < g.NodeCount()
      modifies indexBlockBytes, `currentIndexNodeBlock
      ensures Valid() && currentIndexNodeBlock == NodeBlock(g, n)
    {
      NodeBlockInRange(g, n);
      var needed := NodeBlock(g, n);
      if currentIndexNodeBlock != needed {
        FillBuffer(indexBlockBytes, file[g.inodeBlockOffset + needed]);
        currentIndexNodeBlock := needed;
      }
    }

    // The node last written under this number.
    method ReadIndexNode(n: nat) returns (node: IndexNode)
      requires Valid() && n < g.NodeCount()
      modifies indexBlockBytes, `currentIndexNodeBlock
      ensures Valid() && node == inodes[n]
    {
      LoadIndexNodeBlock(n);
      NodeOffsetIs(g, n);
      assert inodes[n] == NodeAt(g, file, n);
      node := ReadNode(indexBlockBytes, NodeOffset(g, n));
    }

    // Replace one node and no other; block pointers are cut to 24 bits.
    method WriteIndexNode(node: IndexNode, n: nat)
      requires Valid() && n < g.NodeCount() && node.Shaped()
      modifies indexBlockBytes, `currentIndexNodeBlock, `file, `inodes
      ensures Valid() && inodes == old(inodes)[n := Cut(node)]
      ensures node.Storable() ==> inodes == old(inodes)[n := node]
    {
      StorableIsUncut(node);
      LoadIndexNodeBlock(n);
      WriteNodeBlock(g, file, used, inodes, data, n, node);
      WriteNode(node, indexBlockBytes, NodeOffset(g, n));
      assert indexBlockBytes[..] == PatchNode(file[g.inodeBlockOffset + NodeBlock(g, n)], NodeOffset(g, n), node);
      hide BitmapAgrees, TableAgrees, DataAgrees, PatchNode, NodeOffset, DecodeNode;
      file := file[g.inodeBlockOffset + currentIndexNodeBlock := indexBlockBytes[..]];
      inodes := inodes[n := Cut(node)];
    }

    // The first node going round from the cursor whose link count is zero; -1 when there is none.
    method AllocateIndexNode() returns (r: int)
      requires Valid()
      modifies indexBlockBytes, `currentIndexNodeBlock, `currentIndexNodeNumber
      ensures Valid()
      ensures r == -1 <==> forall k :: 0 <= k < |inodes| ==> inodes[k].nlink != 0
      ensures r != -1 ==>
                && 0 <= r < g.NodeCount() && inodes[r].nlink == 0
                && (forall k: nat :: k < |inodes| ==>
                      inodes[k].nlink != 0 ||
                      (if old(currentIndexNodeNumber) <= r then k < old(currentIndexNodeNumber) || r <= k
                       else r <= k < old(currentIndexNodeNumber)))
                && currentIndexNodeNumber == (if r + 1 < g.NodeCount() then r + 1 else 0)
    {
      hide BitmapAgrees, DataAgrees;
      var save := currentIndexNodeNumber;
      var total := g.NodeCount();
      while true
        invariant Valid()
        invariant forall k: nat :: k < total && Passed(save, currentIndexNodeNumber, k) ==> inodes[k].nlink != 0
        decreases if currentIndexNodeNumber >= save then total - currentIndexNodeNumber + save
                  else save - currentIndexNodeNumber
      {
        var temp := ReadIndexNode(currentIndexNodeNumber);
        var previous := currentIndexNodeNumber;
        currentIndexNodeNumber := currentIndexNodeNumber + 1;
        if currentIndexNodeNumber >= total {
          currentIndexNodeNumber := 0;
        }
        if temp.nlink == 0 {
          return previous;
        }
        if save == currentIndexNodeNumber {
          return -1;
        }
      }
    }

    // FileSystem::read and write on a data block.
    method ReadData(k: nat) returns (block: Block)
      requires Valid() && k < g.DataCount()
      ensures block == data[k]
    {
      block := file[g.dataBlockOffset + k];
    }

    method WriteData(block: Block, k: nat)
      requires Valid() && k < g.DataCount() && |block| == g.blockSize
      modifies `file, `data
      ensures Valid() && data == old(data)[k := block]
    {
      WriteDataBlock(g, file, used, inodes, data, k, block);
      file := file[g.dataBlockOffset + k := block];
      data := data[k := block];
    }
  }

  // fstream::read into a buffer.
  method FillBuffer(buffer: array<Byte>, block: Block)
    requires |block| == buffer.Length
    modifies buffer
    ensures buffer[..] == block
  {
    var i := 0;
    while i < buffer.Length
      invariant 0 <= i <= buffer.Length && buffer[..i] == block[..i]
    {
      buffer[i] := block[i];
      i := i + 1;
    }
  }

  // IndexNode::read at an offset in a buffer.
  method ReadNode(buffer: array<Byte>, offset: nat) returns (node: IndexNode)
    requires offset + INDEX_NODE_SIZE <= buffer.Length
    ensures node == DecodeNode(buffer[offset..])
  {
    var mode := Short2(buffer[offset], buffer[offset + 1]);
    var nlink := Short2(buffer[offset + 2], buffer[offset + 3]);
    var uid := Short2(buffer[offset + 4], buffer[offset + 5]);
    var gid := Short2(buffer[offset + 6], buffer[offset + 7]);
    var size := Int4(buffer[offset + 8], buffer[offset + 9], buffer[offset + 10], buffer[offset + 11]);
    ghost var b := buffer[offset..];
    var direct: seq<int> := [];
    var i := 0;
    while i < MAX_DIRECT_BLOCKS
      invariant 0 <= i <= MAX_DIRECT_BLOCKS
      invariant direct == DecodePointers(b[12..42])[..i]
    {
      var at := offset + 12 + 3 * i;
      direct := direct + [Pointer3(buffer[at], buffer[at + 1], buffer[at + 2])];
      i := i + 1;
    }
    node := IndexNode(mode, nlink, uid, gid, size, direct,
                      Pointer3(buffer[offset + 42], buffer[offset + 43], buffer[offset + 44]));
  }

  lemma NoPointers(direct: seq<int>)
    ensures EncodePointers(direct[..0]) == []
  {
  }

  lemma OnePointerMore(direct: seq<int>, i: nat)
    requires i < |direct|
    ensures EncodePointers(direct[..i + 1]) == EncodePointers(direct[..i]) + Field3(direct[i])
  {
    assert direct[..i + 1][..i] == direct[..i];
  }

  // The ten direct pointers.
  method StorePointers(direct: seq<int>, buffer: array<Byte>, offset: nat)
    requires offset + 3 * |direct| <= buffer.Length
    modifies buffer
    ensures buffer[..offset + 3 * |direct|] == old(buffer[..offset]) + EncodePointers(direct)
    ensures buffer[offset + 3 * |direct|..] == old(buffer[offset + 3 * |direct|..])
  {
    hide EncodePointers;
    NoPointers(direct);
    var i := 0;
    while i < |direct|
      invariant 0 <= i <= |direct|
      invariant buffer[..offset + 3 * i] == old(buffer[..offset]) + EncodePointers(direct[..i])
      invariant buffer[offset + 3 * i..] == old(buffer[offset + 3 * i..])
    {
      OnePointerMore(direct, i);
      assert old(buffer[offset + 3 * i..])[3..] == old(buffer[offset + 3 * (i + 1)..]);
      Store(Field3(direct[i]), buffer, offset + 3 * i);
      i := i + 1;
    }
    assert direct[..i] == direct;
  }

  // IndexNode::write at an offset in a buffer.
  method WriteNode(node: IndexNode, buffer: array<Byte>, offset: nat)
    requires node.Shaped() && offset + INDEX_NODE_SIZE <= buffer.Length
    modifies buffer
    ensures buffer[..] == PatchNode(old(buffer[..]), offset, node)
  {
    ghost var before := buffer[..];
    Store(Header(node), buffer, offset);
    assert buffer[offset + 12..] == before[offset + 12..];
    StorePointers(node.direct, buffer, offset + 12);
    assert buffer[offset + 42..] == before[offset + 12..][30..];
    ghost var tail := buffer[offset + 42..];
    Store(Field3(node.indirect), buffer, offset + 42);
    assert buffer[offset + 45..] == tail[3..] == before[offset + 45..];
    assert buffer[..] == buffer[..offset + 45] + buffer[offset + 45..];
  }
}
