/** Giving the blocks of a file back: creat over an existing file, and unlink of a last link. */
module FsTruncate {
  import opened FsCodec
  import opened FsGeometry
  import opened FsFile
  import opened FsVolume
  import FsDescriptor
  import FsKernel

  // The node as if it still had a link.
  function AsLive(node: IndexNode): IndexNode {
    if Live(node) then node else node.(nlink := 1)
  }

  // Blocks a file of this size spans.
  function Span(g: Geometry, size: nat): nat
    requires g.Valid()
  {
    Quot(size + g.blockSize - 1, g.blockSize)
  }

  lemma SpanFits(g: Geometry, size: nat)
    requires g.Valid() && FsKernel.Fits(g, size)
    ensures Span(g, size) <= Slots(g)
  {
    QuotientBound(size + g.blockSize - 1, g.blockSize, Slots(g) + 1);
  }

  // No pointer lies beyond the size.
  ghost predicate Covered(g: Geometry, node: IndexNode, data: seq<Block>)
    requires DataShape(g, data) && NodeShape(g, node) && node.size >= 0
  {
    forall b: nat :: Span(g, node.size) <= b < Slots(g) ==> Address(g, node, data, b) == NOT_A_BLOCK
  }

  // Clearing a slot and freeing its block.
  lemma SlotFreed(g: Geometry, used: set<nat>, inodes: seq<IndexNode>, data: seq<Block>, n: nat, b: nat)
    requires Ownership(g, used, inodes, data) && n < |inodes| && Live(inodes[n]) && b < Slots(g)
    requires Address(g, inodes[n], data, b) != NOT_A_BLOCK
    ensures HasSlot(g, inodes[n], b) && InData(g, Address(g, inodes[n], data, b))
    ensures var a := Address(g, inodes[n], data, b);
            var node', data' := SlotNode(inodes[n], b, NOT_A_BLOCK), SlotData(g, inodes[n], data, b, NOT_A_BLOCK);
            && Ownership(g, used - {a}, inodes[n := node'], data')
            && OthersKept(g, inodes, data, inodes[n := node'], data', n)
            && forall c: nat :: c < Slots(g) ==>
                 Address(g, node', data', c) == if c == b then NOT_A_BLOCK else Address(g, inodes[n], data, c)
  {
    var a := Address(g, inodes[n], data, b);
    var node', data' := SlotNode(inodes[n], b, NOT_A_BLOCK), SlotData(g, inodes[n], data, b, NOT_A_BLOCK);
    ClearSlot(g, inodes[n], data, b);
    assert Owns(g, inodes[n], data, a);
    OwnershipAfter(g, used, inodes, data, n, used - {a}, node', data');
  }

  // The node in memory is the one thing the table on disk may lag behind on.
  ghost predicate HeldBy(g: Geometry, used: set<nat>, inodes: seq<IndexNode>, data: seq<Block>, n: nat, node: IndexNode,
                         lost: set<nat>)
  {
    n < |inodes| && lost <= used && Ownership(g, used - lost, inodes[n := AsLive(node)], data)
  }

  lemma HeldNode(g: Geometry, used: set<nat>, inodes: seq<IndexNode>, data: seq<Block>, n: nat, node: IndexNode,
                 lost: set<nat>)
    requires HeldBy(g, used, inodes, data, n, node, lost)
    ensures DataShape(g, data) && NodeShape(g, node) && FileOK(g, AsLive(node), data)
    ensures OthersSame(g, inodes[n := AsLive(node)], data, inodes[n := AsLive(node)], data, n)
  {
    assert inodes[n := AsLive(node)][n] == AsLive(node);
  }

  // Clearing a slot of the node in memory and freeing its block.
  lemma HeldSlotFreed(g: Geometry, used: set<nat>, inodes: seq<IndexNode>, data: seq<Block>, n: nat, node: IndexNode,
                      lost: set<nat>, b: nat)
    requires HeldBy(g, used, inodes, data, n, node, lost) && b < Slots(g)
    requires DataShape(g, data) && NodeShape(g, node) && Address(g, node, data, b) != NOT_A_BLOCK
    ensures HasSlot(g, node, b) && InData(g, Address(g, node, data, b))
    ensures var a := Address(g, node, data, b);
            var node', data' := SlotNode(node, b, NOT_A_BLOCK), SlotData(g, node, data, b, NOT_A_BLOCK);
            && HeldBy(g, used - {a}, inodes, data', n, node', lost)
            && OthersSame(g, inodes[n := AsLive(node)], data, inodes[n := AsLive(node')], data', n)
            && DataShape(g, data') && NodeShape(g, node')
            && forall c: nat :: c < Slots(g) ==>
                 Address(g, node', data', c) == if c == b then NOT_A_BLOCK else Address(g, node, data, c)
  {
    var inodes1 := inodes[n := AsLive(node)];
    assert inodes1[n] == AsLive(node);
    SlotFreed(g, used - lost, inodes1, data, n, b);
    var a := Address(g, node, data, b);
    assert used - lost - {a} == used - {a} - lost;
    var node' := SlotNode(node, b, NOT_A_BLOCK);
    assert AsLive(node') == SlotNode(AsLive(node), b, NOT_A_BLOCK);
    assert inodes1[n := AsLive(node')] == inodes[n := AsLive(node')];
  }

  // The slots from lo up to hi are empty, and the others are as they were.
  ghost predicate SlotsCleared(g: Geometry, node: IndexNode, data: seq<Block>, node': IndexNode, data': seq<Block>,
                               lo: nat, hi: nat) {
    && DataShape(g, data) && DataShape(g, data') && NodeShape(g, node) && NodeShape(g, node')
    && forall c: nat :: c < Slots(g) ==>
         Address(g, node', data', c) == if lo <= c < hi then NOT_A_BLOCK else Address(g, node, data, c)
  }

  // The file has a block among its first n.
  ghost predicate SomeInUse(g: Geometry, node: IndexNode, data: seq<Block>, n: nat)
    requires DataShape(g, data) && NodeShape(g, node)
  {
    exists b: nat :: b < n && InUse(g, node, data, b)
  }

  // Freeing block b of a file leaves the disk full exactly if it was and the file does not have the block.
  ghost predicate FreedAt(g: Geometry, used: set<nat>, node: IndexNode, data: seq<Block>, used': set<nat>, b: nat) {
    && DataShape(g, data) && NodeShape(g, node)
    && (FsDescriptor.DiskFull(g, used') <==> FsDescriptor.DiskFull(g, used) && !InUse(g, node, data, b))
    && used' <= used
  }

  lemma FreedNow(g: Geometry, used: set<nat>, node: IndexNode, data: seq<Block>, used': set<nat>, b: nat)
    requires DataShape(g, data) && NodeShape(g, node) && b < Slots(g)
    requires var a := Address(g, node, data, b);
             if a == NOT_A_BLOCK then used' == used else InData(g, a) && used' == used - {a}
    ensures FreedAt(g, used, node, data, used', b)
  {
  }

  lemma FreedNext(g: Geometry, used: set<nat>, node: IndexNode, data: seq<Block>, used1: set<nat>, node1: IndexNode,
                  data1: seq<Block>, used2: set<nat>, b: nat)
    requires FreedFirst(g, used, node, data, used1, b) && FreedAt(g, used1, node1, data1, used2, b) && b < Slots(g)
    requires SlotsCleared(g, node, data, node1, data1, 0, b)
    ensures FreedFirst(g, used, node, data, used2, b + 1)
  {
    hide Address, FsDescriptor.DiskFull;
    assert InUse(g, node1, data1, b) <==> InUse(g, node, data, b);
    if SomeInUse(g, node, data, b) {
      var c: nat :| c < b && InUse(g, node, data, c);
      assert c < b + 1;
    }
  }

  lemma NothingFreed(g: Geometry, used: set<nat>, node: IndexNode, data: seq<Block>)
    requires DataShape(g, data) && NodeShape(g, node)
    ensures FreedFirst(g, used, node, data, used, 0)
  {
  }

  // The disk is full after the first n blocks of a file have been freed exactly if it was and there were none; no
  // block has been taken.
  ghost predicate FreedFirst(g: Geometry, used: set<nat>, node: IndexNode, data: seq<Block>, used': set<nat>, n: nat) {
    && DataShape(g, data) && NodeShape(g, node)
    && (FsDescriptor.DiskFull(g, used') <==> FsDescriptor.DiskFull(g, used) && !SomeInUse(g, node, data, n))
    && used' <= used
  }

  // One pass of the freeing loop.
  method FreeSlot(fs: FileSystem, n: nat, node: IndexNode, b: nat, ghost lost: set<nat>) returns (node': IndexNode)
    requires fs.Valid() && b < Slots(fs.g) && HeldBy(fs.g, fs.used, fs.inodes, fs.data, n, node, lost)
    modifies fs, fs.freeListBitBlock
    ensures fs.Valid() && fs.inodes == old(fs.inodes) && HeldBy(fs.g, fs.used, fs.inodes, fs.data, n, node', lost)
    ensures node' == node.(direct := node'.direct)
    ensures OthersSame(fs.g, old(fs.inodes)[n := AsLive(node)], old(fs.data), fs.inodes[n := AsLive(node')], fs.data, n)
    ensures SlotsCleared(fs.g, node, old(fs.data), node', fs.data, b, b + 1)
    ensures FreedAt(fs.g, old(fs.used), node, old(fs.data), fs.used, b)
  {
    HeldNode(fs.g, fs.used, fs.inodes, fs.data, n, node, lost);
    hide FileSystem.Valid, HeldBy, OthersSame, Address, DataShape, NodeShape, AsLive, SlotData, FreedAt;
    var address := FsDescriptor.GetBlockAddress(fs, node, b);
    ghost var used0, data0 := fs.used, fs.data;
    node' := node;
    if address != NOT_A_BLOCK {
      HeldSlotFreed(fs.g, fs.used, fs.inodes, fs.data, n, node, lost, b);
      fs.FreeBlock(address);
      node' := FsDescriptor.SetSlot(fs, node, b, NOT_A_BLOCK);
    }
    FreedNow(fs.g, used0, node, data0, fs.used, b);
  }

  lemma ClearedNext(g: Geometry, node0: IndexNode, data0: seq<Block>, node1: IndexNode, data1: seq<Block>,
                    node2: IndexNode, data2: seq<Block>, b: nat)
    requires SlotsCleared(g, node0, data0, node1, data1, 0, b) && SlotsCleared(g, node1, data1, node2, data2, b, b + 1)
    ensures SlotsCleared(g, node0, data0, node2, data2, 0, b + 1)
  {
  }

  lemma NothingCleared(g: Geometry, used: set<nat>, inodes: seq<IndexNode>, data: seq<Block>, n: nat, node: IndexNode,
                       lost: set<nat>)
    requires HeldBy(g, used, inodes, data, n, node, lost)
    ensures SlotsCleared(g, node, data, node, data, 0, 0) && DataShape(g, data) && NodeShape(g, node)
    ensures OthersSame(g, inodes[n := AsLive(node)], data, inodes[n := AsLive(node)], data, n)
  {
    HeldNode(g, used, inodes, data, n, node, lost);
  }

  // The loop of creat and unlink that frees the blocks of a file.
  method FreeBlocks(fs: FileSystem, n: nat, node: IndexNode, ghost lost: set<nat>) returns (node': IndexNode)
    requires fs.Valid() && HeldBy(fs.g, fs.used, fs.inodes, fs.data, n, node, lost)
    requires node.size >= 0 && FsKernel.Fits(fs.g, node.size)
    modifies fs, fs.freeListBitBlock
    ensures fs.Valid() && fs.inodes == old(fs.inodes) && HeldBy(fs.g, fs.used, fs.inodes, fs.data, n, node', lost)
    ensures node' == node.(direct := node'.direct)
    ensures OthersSame(fs.g, old(fs.inodes)[n := AsLive(node)], old(fs.data), fs.inodes[n := AsLive(node')], fs.data, n)
    ensures SlotsCleared(fs.g, node, old(fs.data), node', fs.data, 0, Span(fs.g, node.size))
    ensures FreedFirst(fs.g, old(fs.used), node, old(fs.data), fs.used, Span(fs.g, node.size))
  {
    ghost var g, used0, inodes0, data0 := fs.g, fs.used, fs.inodes, fs.data;
    NothingCleared(g, fs.used, inodes0, data0, n, node, lost);
    NothingFreed(g, fs.used, node, data0);
    SpanFits(fs.g, node.size);
    hide *;
    var blocks := Span(fs.g, node.size);
    var i := 0;
    node' := node;
    while i < blocks
      invariant 0 <= i <= blocks
      invariant fs.Valid() && fs.inodes == inodes0 && HeldBy(g, fs.used, fs.inodes, fs.data, n, node', lost)
      invariant node' == node.(direct := node'.direct)
      invariant OthersSame(g, inodes0[n := AsLive(node)], data0, inodes0[n := AsLive(node')], fs.data, n)
      invariant SlotsCleared(g, node, data0, node', fs.data, 0, i)
      invariant FreedFirst(g, used0, node, data0, fs.used, i)
    {
      ghost var used1, node1, data1 := fs.used, node', fs.data;
      node' := FreeSlot(fs, n, node', i, lost);
      FreedNext(g, used0, node, data0, used1, node1, data1, fs.used, i);
      ClearedNext(g, node, data0, node1, data1, node', fs.data, i);
      OthersSameNext(g, inodes0[n := AsLive(node)], data0, inodes0[n := AsLive(node1)], data1,
                     inodes0[n := AsLive(node')], fs.data, n);
      i := i + 1;
    }
  }

  // ----- creat over an existing file -----

  // File n has become the empty node', and no other file has changed.
  ghost predicate Emptied(g: Geometry, used: set<nat>, inodes: seq<IndexNode>, data: seq<Block>,
                          inodes': seq<IndexNode>, data': seq<Block>, n: nat, node: IndexNode, lost: set<nat>)
  {
    && n < |inodes| == |inodes'| && inodes' == inodes[n := inodes'[n]]
    && inodes'[n] == node.(size := 0, direct := inodes'[n].direct)
    && FsDescriptor.Owned(g, used, inodes', data', Nobody(lost))
    && OthersSame(g, inodes, data, inodes', data', n)
    && NodeShape(g, node) && NodeShape(g, inodes'[n]) && node.size >= 0
    && (Covered(g, node, data) ==>
          forall b: nat :: b < Slots(g) ==> Contents(g, inodes'[n], data')[b] == Zeros(g.blockSize))
  }

  // The emptied node back in the table, where it still has its links.
  lemma EmptiedInPlace(g: Geometry, used: set<nat>, inodes: seq<IndexNode>, data0: seq<Block>, data: seq<Block>, n: nat,
                       node: IndexNode, node': IndexNode, lost: set<nat>)
    requires HeldBy(g, used, inodes, data, n, node', lost) && inodes[n] == node && Live(node) && node.size >= 0
    requires node' == node.(direct := node'.direct)
    requires SlotsCleared(g, node, data0, node', data, 0, Span(g, node.size))
    requires OthersSame(g, inodes[n := AsLive(node)], data0, inodes[n := AsLive(node')], data, n)
    ensures Emptied(g, used, inodes, data0, inodes[n := node'.(size := 0)], data, n, node, lost)
    ensures node'.(size := 0).Storable()
  {
    var inodes1, node2 := inodes[n := node'], node'.(size := 0);
    assert inodes[n := node] == inodes;
    assert inodes1[n] == node';
    FsDescriptor.Resized(g, used - lost, inodes1, data, n, 0);
    assert inodes1[n := node2] == inodes[n := node2];
    FsKernel.OthersKeptTrans(g, inodes, data0, inodes1, data, inodes[n := node2], data, n);
    FsDescriptor.SameSlots(g, node', node2, data);
  }

  // The size has no part in it.
  lemma ClearedResized(g: Geometry, node: IndexNode, data: seq<Block>, node': IndexNode, data': seq<Block>, n: nat)
    requires SlotsCleared(g, node, data, node', data', 0, n)
    ensures SlotsCleared(g, node, data, node'.(size := 0), data', 0, n)
  {
    assert forall c: nat :: c < Slots(g) ==> Address(g, node'.(size := 0), data', c) == Address(g, node', data', c);
  }

  lemma OnDisk(g: Geometry, used: set<nat>, inodes: seq<IndexNode>, data: seq<Block>, n: nat, lost: set<nat>)
    requires FsDescriptor.Owned(g, used, inodes, data, Nobody(lost)) && n < |inodes| && Live(inodes[n])
    ensures HeldBy(g, used, inodes, data, n, inodes[n], lost) && g.Valid()
  {
    assert inodes[n := AsLive(inodes[n])] == inodes;
  }

  // creat where the file exists: its blocks are free again, it is empty, and no other file changed.
  method Truncate(fs: FileSystem, n: nat, node: IndexNode, ghost lost: set<nat>) returns (node': IndexNode)
    requires fs.Valid() && FsDescriptor.Owned(fs.g, fs.used, fs.inodes, fs.data, Nobody(lost))
    requires n < |fs.inodes| == fs.g.NodeCount() && fs.inodes[n] == node && Live(node)
    requires node.size >= 0 && FsKernel.Fits(fs.g, node.size)
    modifies fs, fs.freeListBitBlock, fs.indexBlockBytes
    ensures fs.Valid() && n < |fs.inodes| && fs.inodes[n] == node'
    ensures Emptied(fs.g, fs.used, old(fs.inodes), old(fs.data), fs.inodes, fs.data, n, node, lost)
    ensures SlotsCleared(fs.g, node, old(fs.data), node', fs.data, 0, Span(fs.g, node.size))
    ensures FreedFirst(fs.g, old(fs.used), node, old(fs.data), fs.used, Span(fs.g, node.size))
  {
    hide *;
    ghost var g, inodes0, data0 := fs.g, fs.inodes, fs.data;
    OnDisk(g, fs.used, inodes0, data0, n, lost);
    node' := FreeBlocks(fs, n, node, lost);
    ClearedResized(g, node, data0, node', fs.data, Span(g, node.size));
    EmptiedInPlace(g, fs.used, inodes0, data0, fs.data, n, node, node', lost);
    node' := node'.(size := 0);
    fs.WriteIndexNode(node', n);
  }

  // ----- unlink of a last link -----

  // Live files are the same but for file n.
  predicate DroppedAt(inodes: seq<IndexNode>, inodes': seq<IndexNode>, n: nat) {
    && n < |inodes| == |inodes'| && Live(inodes[n]) && !Live(inodes'[n])
    && forall m :: 0 <= m < |inodes| && m != n ==> inodes'[m] == inodes[m]
  }

  lemma DroppedKeepsOthers(g: Geometry, used: set<nat>, inodes: seq<IndexNode>, inodes': seq<IndexNode>,
                           data: seq<Block>, n: nat)
    requires Ownership(g, used, inodes, data) && DroppedAt(inodes, inodes', n)
    ensures OthersSame(g, inodes, data, inodes', data, n)
  {
  }

  // Without file n, what it owned is nobody's.
  lemma DroppedOwnership(g: Geometry, used: set<nat>, inodes: seq<IndexNode>, inodes': seq<IndexNode>, data: seq<Block>,
                         n: nat, left: set<nat>)
    requires Ownership(g, used, inodes, data) && DroppedAt(inodes, inodes', n)
    requires forall d: nat :: d in left <==> Owns(g, inodes[n], data, d)
    ensures left <= used && Ownership(g, used - left, inodes', data)
  {
  }

  // The blocks the live files own are one set.
  lemma OwnershipIsUnique(g: Geometry, used: set<nat>, used': set<nat>, inodes: seq<IndexNode>, data: seq<Block>)
    requires Ownership(g, used, inodes, data) && Ownership(g, used', inodes, data)
    ensures used == used'
  {
  }

  // The blocks of a file that the loop does not look at: its indirect block, and blocks beyond its size.
  ghost function Remains(g: Geometry, node: IndexNode, data: seq<Block>): (r: set<nat>)
    requires DataShape(g, data) && NodeShape(g, node) && node.size >= 0
  {
    set d: nat | 0 <= d < g.DataCount() && Remaining(g, node, data, d)
  }

  ghost predicate Remaining(g: Geometry, node: IndexNode, data: seq<Block>, d: nat)
    requires DataShape(g, data) && NodeShape(g, node) && node.size >= 0
  {
    && d != NOT_A_BLOCK
    && (d == node.indirect || exists b: nat :: Span(g, node.size) <= b < Slots(g) && Address(g, node, data, b) == d)
  }

  lemma NothingRemains(g: Geometry, node: IndexNode, data: seq<Block>)
    requires DataShape(g, data) && FileOK(g, node, data) && node.size >= 0
    ensures Remains(g, node, data) == {} <==> node.indirect == NOT_A_BLOCK && Covered(g, node, data)
  {
    if node.indirect != NOT_A_BLOCK {
      assert node.indirect in Remains(g, node, data);
    } else if !Covered(g, node, data) {
      var b: nat :| Span(g, node.size) <= b < Slots(g) && Address(g, node, data, b) != NOT_A_BLOCK;
      assert Address(g, node, data, b) in Remains(g, node, data);
    }
  }

  // After the loop a file owns just those.
  lemma WhatIsLeft(g: Geometry, node: IndexNode, data: seq<Block>, node': IndexNode, data': seq<Block>)
    requires g.Valid() && node.size >= 0 && SlotsCleared(g, node, data, node', data', 0, Span(g, node.size))
    requires FileOK(g, node, data) && node'.indirect == node.indirect
    ensures NodeShape(g, node') && DataShape(g, data') && NodeShape(g, node) && DataShape(g, data)
    ensures forall d: nat :: d in Remains(g, node, data) <==> Owns(g, node', data', d)
  {
  }

  // File n, so far `node`, has lost its last link, and no other file has changed. Its indirect block
  // and its blocks beyond the size stay allocated and are nobody's from now on.
  ghost predicate Removed(g: Geometry, used: set<nat>, inodes: seq<IndexNode>, data: seq<Block>,
                          inodes': seq<IndexNode>, data': seq<Block>, n: nat, node: IndexNode, lost: set<nat>)
  {
    && n < |inodes| == |inodes'| && inodes' == inodes[n := inodes'[n]]
    && inodes'[n] == node.(nlink := 0, size := 0, direct := inodes'[n].direct)
    && OthersSame(g, inodes, data, inodes', data', n)
    && NodeShape(g, node) && node.size >= 0 && Remains(g, node, data) !! lost
    && FsDescriptor.Owned(g, used, inodes', data', Nobody(lost + Remains(g, node, data)))
    && (FsDescriptor.Owned(g, used, inodes', data', Nobody(lost))
        <==> node.indirect == NOT_A_BLOCK && Covered(g, node, data))
  }

  lemma LostMore(g: Geometry, used: set<nat>, inodes: seq<IndexNode>, data: seq<Block>, lost: set<nat>, more: set<nat>)
    requires FsDescriptor.Owned(g, used, inodes, data, Nobody(lost + more)) && lost !! more
    ensures FsDescriptor.Owned(g, used, inodes, data, Nobody(lost)) <==> more == {}
  {
    hide Ownership;
    assert lost + {} == lost;
    if FsDescriptor.Owned(g, used, inodes, data, Nobody(lost)) {
      OwnershipIsUnique(g, used - lost, used - (lost + more), inodes, data);
      assert forall d :: d in more ==> d in used - lost;
    }
  }

  // The table says the links are gone, and the last blocks that can go have been freed.
  lemma DeadOwnership(g: Geometry, used: set<nat>, inodes: seq<IndexNode>, data: seq<Block>, n: nat, node: IndexNode,
                      lost: set<nat>, left: set<nat>)
    requires HeldBy(g, used, inodes, data, n, node, lost) && !Live(node)
    requires DataShape(g, data) && NodeShape(g, node) && forall d: nat :: d in left <==> Owns(g, node, data, d)
    ensures left !! lost && FsDescriptor.Owned(g, used, inodes[n := node.(size := 0)], data, Nobody(lost + left))
    ensures OthersSame(g, inodes[n := AsLive(node)], data, inodes[n := node.(size := 0)], data, n)
  {
    var inodes1, inodes2 := inodes[n := AsLive(node)], inodes[n := node.(size := 0)];
    HeldNode(g, used, inodes, data, n, node, lost);
    FsDescriptor.SameSlots(g, AsLive(node), node, data);
    DroppedKeepsOthers(g, used - lost, inodes1, inodes2, data, n);
    DroppedOwnership(g, used - lost, inodes1, inodes2, data, n, left);
    hide Ownership, Owns, OthersSame, FileOK;
    assert used - lost - left == used - (lost + left);
  }

  // The blocks of file n, which is in memory as node', have been freed; the table does not count.
  lemma RemovedInPlace(g: Geometry, used: set<nat>, inodes: seq<IndexNode>, inodes1: seq<IndexNode>, data0: seq<Block>,
                       data: seq<Block>, n: nat, node: IndexNode, node': IndexNode, lost: set<nat>)
    requires n < |inodes1| && inodes == inodes1[n := node] && Live(node) && node.size >= 0 && node.nlink == 1
    requires HeldBy(g, used, inodes1, data, n, node', lost)
    requires node' == node.(nlink := 0, direct := node'.direct)
    requires SlotsCleared(g, node.(nlink := 0), data0, node', data, 0, Span(g, node.size))
    requires OthersSame(g, inodes, data0, inodes1[n := AsLive(node')], data, n)
    requires DataShape(g, data0) && FileOK(g, node, data0)
    ensures node'.(size := 0).Storable() && node'.(size := 0).Shaped()
    ensures Removed(g, used, inodes, data0, inodes1[n := node'.(size := 0)], data, n, node, lost)
  {
    var node1, inodes2 := node.(nlink := 0), inodes1[n := node'.(size := 0)];
    assert inodes2 == inodes[n := inodes2[n]];
    FsDescriptor.SameSlots(g, node, node1, data0);
    WhatIsLeft(g, node1, data0, node', data);
    SameRemains(g, node, node1, data0);
    NothingRemains(g, node, data0);
    DeadOwnership(g, used, inodes1, data, n, node', lost, Remains(g, node, data0));
    hide OthersSame, FsDescriptor.Owned, Remains, SlotsCleared, HeldBy, Covered;
    OthersSameNext(g, inodes, data0, inodes1[n := AsLive(node')], data, inodes2, data, n);
    LostMore(g, used, inodes2, data, lost, Remains(g, node, data0));
  }

  lemma SameRemains(g: Geometry, node: IndexNode, node1: IndexNode, data: seq<Block>)
    requires DataShape(g, data) && FileOK(g, node, data) && node1 == node.(nlink := 0) && node.size >= 0
    ensures NodeShape(g, node1) && Remains(g, node1, data) == Remains(g, node, data)
  {
    FsDescriptor.SameSlots(g, node, node1, data);
    hide Address, Span;
    assert forall d: nat :: Remaining(g, node1, data, d) <==> Remaining(g, node, data, d);
  }

  // The end of unlink of a last link: the blocks are freed, the empty node goes to disk.
  method FreeUnlinked(fs: FileSystem, n: nat, node: IndexNode, ghost lost: set<nat>)
    requires fs.Valid() && node.nlink == 1 && node.size >= 0 && FsKernel.Fits(fs.g, node.size)
    requires n < |fs.inodes| == fs.g.NodeCount()
    requires FsDescriptor.Owned(fs.g, fs.used, fs.inodes, fs.data, Unlinking(lost, n, node))
    modifies fs, fs.freeListBitBlock, fs.indexBlockBytes
    ensures fs.Valid()
    ensures Removed(fs.g, fs.used, old(fs.inodes)[n := node], old(fs.data), fs.inodes, fs.data, n, node, lost)
  {
    hide *;
    ghost var g, inodes1, data0 := fs.g, fs.inodes, fs.data;
    UnlinkedInMemory(g, fs.used, inodes1, data0, n, node, lost);
    var node' := FreeBlocks(fs, n, node.(nlink := 0), lost);
    RemovedInPlace(g, fs.used, inodes1[n := node], inodes1, data0, fs.data, n, node, node', lost);
    fs.WriteIndexNode(node'.(size := 0), n);
  }

  lemma UnlinkedInMemory(g: Geometry, used: set<nat>, inodes1: seq<IndexNode>, data: seq<Block>, n: nat,
                         node: IndexNode, lost: set<nat>)
    requires n < |inodes1| && node.nlink == 1
    requires FsDescriptor.Owned(g, used, inodes1, data, Unlinking(lost, n, node))
    ensures HeldBy(g, used, inodes1, data, n, node.(nlink := 0), lost)
    ensures inodes1[n := AsLive(node.(nlink := 0))] == inodes1[n := node]
    ensures Live(node) && DataShape(g, data) && FileOK(g, node, data)
  {
    assert AsLive(node.(nlink := 0)) == node;
    assert inodes1[n := node][n] == node;
  }

  // Only the link count of a live file changes.
  lemma Relinked(g: Geometry, used: set<nat>, inodes: seq<IndexNode>, data: seq<Block>, n: nat, nlink: Short,
                 lost: set<nat>)
    requires FsDescriptor.Owned(g, used, inodes, data, Nobody(lost)) && n < |inodes| && Live(inodes[n]) && nlink != 0
    ensures inodes[n].(nlink := nlink).Storable()
    ensures FsDescriptor.Owned(g, used, inodes[n := inodes[n].(nlink := nlink)], data, Nobody(lost))
    ensures OthersSame(g, inodes, data, inodes[n := inodes[n].(nlink := nlink)], data, n)
  {
    var node' := inodes[n].(nlink := nlink);
    FsDescriptor.SameSlots(g, inodes[n], node', data);
    FsDescriptor.OwnershipGrown(g, used - lost, inodes, data, n, node', data, {});
    assert used - lost + {} == used - lost;
  }

  // ----- creat of a new file -----

  function NoBlocks(n: nat): (direct: seq<int>)
    ensures |direct| == n && forall i :: 0 <= i < n ==> direct[i] == NOT_A_BLOCK
  {
    if n == 0 then [] else NoBlocks(n - 1) + [NOT_A_BLOCK]
  }

  function NewNode(mode: Short): IndexNode {
    IndexNode(mode, 1, 0, 0, 0, NoBlocks(MAX_DIRECT_BLOCKS), NOT_A_BLOCK)
  }

  // The new node, field by field: the mode asked for, one link, owner and group nobody set, no bytes, no blocks.
  lemma NewNodeFields(mode: Short)
    ensures var node := NewNode(mode);
            && node.mode == mode && node.nlink == 1 && node.uid == 0 && node.gid == 0 && node.size == 0
            && |node.direct| == 10 && (forall i :: 0 <= i < 10 ==> node.direct[i] == 0x00FF_FFFF)
            && node.indirect == 0x00FF_FFFF
  {
  }

  lemma NewNodeIsEmpty(g: Geometry, mode: Short, data: seq<Block>)
    requires DataShape(g, data)
    ensures NewNode(mode).Storable() && NodeShape(g, NewNode(mode)) && FileOK(g, NewNode(mode), data)
    ensures forall d :: !Owns(g, NewNode(mode), data, d)
  {
  }

  lemma NewFileKeepsOwnership(g: Geometry, used: set<nat>, inodes: seq<IndexNode>, data: seq<Block>, n: nat,
                              mode: Short)
    requires Ownership(g, used, inodes, data) && n < |inodes| && !Live(inodes[n])
    ensures Ownership(g, used, inodes[n := NewNode(mode)], data)
    ensures OthersSame(g, inodes, data, inodes[n := NewNode(mode)], data, n)
  {
    var inodes' := inodes[n := NewNode(mode)];
    NewNodeIsEmpty(g, mode, data);
    hide FileOK, Owns, Contents;
    forall d | d in used
      ensures exists m :: 0 <= m < |inodes'| && Live(inodes'[m]) && Owns(g, inodes'[m], data, d)
    {
      var m :| 0 <= m < |inodes| && Live(inodes[m]) && Owns(g, inodes[m], data, d);
      assert inodes'[m] == inodes[m];
    }
  }

  lemma NewFileOwned(g: Geometry, used: set<nat>, inodes: seq<IndexNode>, data: seq<Block>, n: nat, mode: Short,
                     lost: set<nat>)
    requires FsDescriptor.Owned(g, used, inodes, data, Nobody(lost)) && n < |inodes| && !Live(inodes[n])
    ensures NewNode(mode).Storable() && FsDescriptor.Owned(g, used, inodes[n := NewNode(mode)], data, Nobody(lost))
    ensures OthersSame(g, inodes, data, inodes[n := NewNode(mode)], data, n)
  {
    NewFileKeepsOwnership(g, used - lost, inodes, data, n, mode);
    NewNodeIsEmpty(g, mode, data);
  }

  lemma LiveHasLinks(node: IndexNode)
    ensures Live(node) <==> node.nlink != 0
  {
  }

  // creat where the name is new: a free node becomes an empty file, no block changes hands, and no
  // other file changes; without a free node nothing happens.
  method CreateNode(fs: FileSystem, mode: Short, ghost lost: set<nat>) returns (n: int)
    requires fs.Valid() && FsDescriptor.Owned(fs.g, fs.used, fs.inodes, fs.data, Nobody(lost))
    requires |fs.inodes| == fs.g.NodeCount()
    modifies fs, fs.indexBlockBytes
    ensures fs.Valid() && fs.used == old(fs.used) && fs.data == old(fs.data)
    ensures FsDescriptor.Owned(fs.g, fs.used, fs.inodes, fs.data, Nobody(lost))
    ensures n == -1 <==> forall k :: 0 <= k < |old(fs.inodes)| ==> old(fs.inodes)[k].nlink != 0
    ensures n == -1 ==> fs.inodes == old(fs.inodes)
    ensures n != -1 ==>
              && 0 <= n < |old(fs.inodes)| && old(fs.inodes)[n].nlink == 0
              && fs.inodes == old(fs.inodes)[n := NewNode(mode)]
              && var node := fs.inodes[n];
              && node.mode == mode && node.nlink == 1 && node.uid == 0 && node.gid == 0 && node.size == 0
              && |node.direct| == 10 && (forall i :: 0 <= i < 10 ==> node.direct[i] == 0x00FF_FFFF)
              && node.indirect == 0x00FF_FFFF
              && OthersSame(fs.g, old(fs.inodes), old(fs.data), fs.inodes, fs.data, n)
  {
    hide *;
    n := fs.AllocateIndexNode();
    if n != -1 {
      LiveHasLinks(fs.inodes[n]);
      NewFileOwned(fs.g, fs.used, fs.inodes, fs.data, n, mode, lost);
      NewNodeFields(mode);
      fs.WriteIndexNode(NewNode(mode), n);
    }
  }

  lemma EmptyOwned(g: Geometry, data: seq<Block>, mode: Short)
    requires DataShape(g, data)
    ensures Ownership(g, {}, [NewNode(mode)], data) && NewNode(mode).indirect == NOT_A_BLOCK && Live(NewNode(mode))
    ensures NodeShape(g, NewNode(mode))
    ensures forall b: nat :: b < Slots(g) ==> Address(g, NewNode(mode), data, b) == NOT_A_BLOCK
  {
  }
}
