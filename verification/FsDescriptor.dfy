/** An open file: a copy of its index node, a one-block buffer and an offset, over the file system. */
module FsDescriptor {
  import opened Collections
  import opened FsCodec
  import opened FsGeometry
  import opened FsFile
  import opened FsVolume

  lemma SlotsFillBlock(g: Geometry)
    requires g.Valid()
    ensures 4 * Slots(g) == g.blockSize
  {
    FourDivides(g.blockSize);
  }

  // IndexNode::getBlockAddress
  method GetBlockAddress(fs: FileSystem, node: IndexNode, b: nat) returns (a: int)
    requires fs.Valid() && DataShape(fs.g, fs.data) && NodeShape(fs.g, node) && b < Slots(fs.g)
    ensures a == Address(fs.g, node, fs.data, b)
  {
    if b < MAX_DIRECT_BLOCKS {
      return node.direct[b];
    } else if node.indirect == NOT_A_BLOCK {
      return node.indirect;
    }
    var blocks := fs.ReadData(node.indirect);
    a := ReadPointer(blocks, b);
  }

  // IndexNode::setBlockAddress where the slot exists: a direct one, or one in an indirect block.
  method SetSlot(fs: FileSystem, node: IndexNode, b: nat, address: Int) returns (node': IndexNode)
    requires fs.Valid() && DataShape(fs.g, fs.data) && NodeShape(fs.g, node) && HasSlot(fs.g, node, b)
    requires SlotValue(fs.g, address)
    modifies fs`file, fs`data
    ensures fs.Valid()
    ensures node' == SlotNode(node, b, address)
    ensures fs.data == SlotData(fs.g, node, old(fs.data), b, address)
  {
    if b < MAX_DIRECT_BLOCKS {
      return node.(direct := node.direct[b := address]);
    }
    var blocks := fs.ReadData(node.indirect);
    fs.WriteData(WritePointer(blocks, b, address), node.indirect);
    node' := node;
  }

  // The same where the indirect block has to be allocated first. On a full disk the code goes on without one.
  method SetFirstIndirect(fs: FileSystem, node: IndexNode, b: nat, address: Int) returns (node': IndexNode)
    requires fs.Valid() && DataShape(fs.g, fs.data) && NodeShape(fs.g, node)
    requires MAX_DIRECT_BLOCKS <= b < Slots(fs.g) && node.indirect == NOT_A_BLOCK
    requires InData(fs.g, address)
    modifies fs, fs.freeListBitBlock
    ensures fs.Valid() && fs.inodes == old(fs.inodes)
    ensures node' == node.(indirect := node'.indirect)
    ensures DiskFull(fs.g, old(fs.used)) ==>
              node'.indirect == -1 && fs.used == old(fs.used) && fs.data == old(fs.data)
    ensures !DiskFull(fs.g, old(fs.used)) ==>
              && InData(fs.g, node'.indirect) && node'.indirect !in old(fs.used)
              && fs.used == old(fs.used) + {node'.indirect}
              && var p := node'.indirect;
                 fs.data == old(fs.data)[p := WritePointer(EmptyPointers(Slots(fs.g)), b, address)]
  {
    SlotsFillBlock(fs.g);
    hide FileSystem.Valid;
    var p := fs.AllocateBlock();
    if p < 0 {
      return node.(indirect := p);
    }
    var blocks := EmptyPointers(Slots(fs.g));
    fs.WriteData(WritePointer(blocks, b, address), p);
    node' := node.(indirect := p);
  }

  // A file that takes the free blocks in `added` and changes nothing it does not own.
  lemma OwnershipGrown(g: Geometry, used: set<nat>, inodes: seq<IndexNode>, data: seq<Block>, n: nat,
                       node': IndexNode, data': seq<Block>, added: set<nat>)
    requires Ownership(g, used, inodes, data) && n < |inodes| && Live(inodes[n]) && Live(node')
    requires DataShape(g, data') && FileOK(g, node', data') && added !! used
    requires forall d :: Owns(g, node', data', d) <==> Owns(g, inodes[n], data, d) || d in added
    requires forall k: nat :: k < |data| && !Owns(g, inodes[n], data, k) && k !in added ==> data'[k] == data[k]
    ensures Ownership(g, used + added, inodes[n := node'], data')
    ensures OthersKept(g, inodes, data, inodes[n := node'], data', n)
  {
    OwnershipAfter(g, used, inodes, data, n, used + added, node', data');
  }

  lemma FreeIsNotOwned(g: Geometry, used: set<nat>, inodes: seq<IndexNode>, data: seq<Block>, n: nat, r: nat)
    requires Ownership(g, used, inodes, data) && n < |inodes| && Live(inodes[n]) && r !in used
    ensures !Owns(g, inodes[n], data, r)
  {
  }

  // Block b of file n has been stored: ownership holds, the file differs in that block only, and
  // no other file differs.
  ghost predicate Stored(g: Geometry, inodes: seq<IndexNode>, data: seq<Block>,
                         inodes': seq<IndexNode>, data': seq<Block>, n: nat, b: nat, block: Block)
  {
    && n < |inodes| == |inodes'| && Live(inodes[n]) && Live(inodes'[n])
    && DataShape(g, data) && FilesOK(g, inodes, data) && DataShape(g, data') && FilesOK(g, inodes', data')
    && OthersKept(g, inodes, data, inodes', data', n)
    && b < Slots(g)
    && Contents(g, inodes'[n], data') == Contents(g, inodes[n], data)[b := block]
    && Fills(g, inodes[n], data, inodes'[n], data', b)
  }

  // The outcome of placing a new block r at a slot the file has.
  lemma Placed(g: Geometry, used: set<nat>, inodes: seq<IndexNode>, data: seq<Block>, n: nat, b: nat, r: nat,
               block: Block)
    requires Ownership(g, used, inodes, data) && n < |inodes| && Live(inodes[n]) && |block| == g.blockSize
    requires HasSlot(g, inodes[n], b) && Address(g, inodes[n], data, b) == NOT_A_BLOCK
    requires r !in used && InData(g, r)
    ensures var node' := SlotNode(inodes[n], b, r);
            var data' := SlotData(g, inodes[n], data, b, r)[r := block];
            && Ownership(g, used + {r}, inodes[n := node'], data')
            && Stored(g, inodes, data, inodes[n := node'], data', n, b, block)
  {
    FreeIsNotOwned(g, used, inodes, data, n, r);
    AssignBlock(g, inodes[n], data, b, r, block);
    var node', data' := SlotNode(inodes[n], b, r), SlotData(g, inodes[n], data, b, r)[r := block];
    OwnershipGrown(g, used, inodes, data, n, node', data', {r});
  }

  lemma IndirectSlot(g: Geometry, data: seq<Block>, node: IndexNode, b: nat, r: Int, p: nat, block: Block)
    requires DataShape(g, data) && InData(g, p) && InData(g, r) && p != r && node.Storable()
    requires MAX_DIRECT_BLOCKS <= b < Slots(g)
    ensures |EmptyPointers(Slots(g))| == g.blockSize && p != NOT_A_BLOCK
    ensures var data1 := data[p := EmptyPointers(Slots(g))];
            && DataShape(g, data1) && NodeShape(g, node.(indirect := p))
            && SlotNode(node.(indirect := p), b, r) == node.(indirect := p)
            && SlotData(g, node.(indirect := p), data1, b, r)[r := block]
               == data[p := WritePointer(EmptyPointers(Slots(g)), b, r)][r := block]
  {
    EmptyFits(g, data, p);
    NotABlockIsOutside(g, p);
  }

  // The outcome when the slot needed a new indirect block p as well.
  lemma PlacedWithIndirect(g: Geometry, used: set<nat>, inodes: seq<IndexNode>, data: seq<Block>, n: nat, b: nat,
                           r: nat, p: nat, block: Block)
    requires Ownership(g, used, inodes, data) && n < |inodes| && Live(inodes[n]) && |block| == g.blockSize
    requires MAX_DIRECT_BLOCKS <= b < Slots(g) && inodes[n].indirect == NOT_A_BLOCK
    requires r !in used && InData(g, r) && p !in used && InData(g, p) && p != r
    ensures |EmptyPointers(Slots(g))| == g.blockSize
    ensures var inodes', data' := inodes[n := inodes[n].(indirect := p)],
                                  data[p := WritePointer(EmptyPointers(Slots(g)), b, r)][r := block];
            && Ownership(g, used + {r, p}, inodes', data')
            && Stored(g, inodes, data, inodes', data', n, b, block)
  {
    FreeIsNotOwned(g, used, inodes, data, n, r);
    FreeIsNotOwned(g, used, inodes, data, n, p);
    var node1, data1 := inodes[n].(indirect := p), data[p := EmptyPointers(Slots(g))];
    var data' := data[p := WritePointer(EmptyPointers(Slots(g)), b, r)][r := block];
    AddIndirect(g, inodes[n], data, p);
    IndirectSlot(g, data, inodes[n], b, r, p, block);
    hide Slots, EmptyPointers;
    AssignBlock(g, node1, data1, b, r, block);
    OwnershipGrown(g, used, inodes, data, n, node1, data', {r, p});
  }

  // The outcome of writing over a block the file has.
  lemma Rewritten(g: Geometry, used: set<nat>, inodes: seq<IndexNode>, data: seq<Block>, n: nat, b: nat, block: Block)
    requires Ownership(g, used, inodes, data) && n < |inodes| && Live(inodes[n]) && |block| == g.blockSize
    requires b < Slots(g) && Address(g, inodes[n], data, b) != NOT_A_BLOCK
    ensures InData(g, Address(g, inodes[n], data, b))
    ensures var data' := data[Address(g, inodes[n], data, b) := block];
            && Ownership(g, used, inodes, data')
            && OthersKept(g, inodes, data, inodes, data', n)
            && Contents(g, inodes[n], data') == Contents(g, inodes[n], data)[b := block]
            && Fills(g, inodes[n], data, inodes[n], data', b)
  {
    RewriteBlock(g, inodes[n], data, b, block);
    var data' := data[Address(g, inodes[n], data, b) := block];
    OwnershipGrown(g, used, inodes, data, n, inodes[n], data', {});
    assert inodes[n := inodes[n]] == inodes;
    assert used + {} == used;
  }

  ghost predicate NotOneFree(g: Geometry, used: set<nat>) {
    DiskFull(g, used) ||
    exists d: nat, e: nat :: d < g.DataCount() && e < g.DataCount() && d !in used && e !in used && d != e
  }

  // When one of the free blocks is taken, there is another exactly when there was not just one.
  lemma AnotherIsFree(g: Geometry, used: set<nat>, r: nat)
    requires r < g.DataCount() && r !in used
    ensures NotOneFree(g, used) <==> !DiskFull(g, used + {r})
  {
  }

  // Where writing block b needs an indirect block, there are two free blocks or none.
  ghost predicate Enough(g: Geometry, node: IndexNode, used: set<nat>, b: nat) {
    NeedsIndirect(node, b) ==> NotOneFree(g, used)
  }

  // The blocks that filling a hole takes.
  function Cost(node: IndexNode, b: nat): nat {
    if NeedsIndirect(node, b) then 2 else 1
  }

  lemma CostIs(node: IndexNode, b: nat)
    ensures Cost(node, b) == if NeedsIndirect(node, b) then 2 else 1
  {
  }

  lemma EnoughIs(g: Geometry, node: IndexNode, used: set<nat>, b: nat)
    ensures Enough(g, node, used, b) <==> (NeedsIndirect(node, b) ==> NotOneFree(g, used))
    ensures DiskFull(g, used) ==> Enough(g, node, used, b)
  {
  }

  predicate NeedsIndirect(node: IndexNode, b: nat) {
    b >= MAX_DIRECT_BLOCKS && node.indirect == NOT_A_BLOCK
  }

  ghost predicate DiskFull(g: Geometry, used: set<nat>) {
    forall k: nat :: k < g.DataCount() ==> k in used
  }

  // A node may be written as long as its file is not the one being unlinked.
  ghost predicate Writable(inodes: seq<IndexNode>, held: Held, n: nat) {
    n < |inodes| && (held.Unlinking? ==> held.number < |inodes| && held.number != n)
  }

  lemma OwnersWritten(inodes: seq<IndexNode>, held: Held, n: nat, node: IndexNode)
    requires Writable(inodes, held, n)
    ensures Owners(inodes[n := node], held) == Owners(inodes, held)[n := node]
    ensures Owners(inodes, held)[n] == inodes[n]
  {
  }

  // Ownership, but for the blocks and the file that `held` speaks of.
  ghost predicate Owned(g: Geometry, used: set<nat>, inodes: seq<IndexNode>, data: seq<Block>, held: Held) {
    held.lost <= used && Ownership(g, used - held.lost, Owners(inodes, held), data)
  }

  // Node n, as kept by a table and data whose allocated blocks were `used`.
  ghost predicate Registered(g: Geometry, inodes: seq<IndexNode>, data: seq<Block>, n: nat, node: IndexNode,
                             used: set<nat>, held: Held) {
    && DataShape(g, data) && NodeShape(g, node)
    && n < |inodes| == g.NodeCount() && inodes[n] == node && Live(node)
    && Writable(inodes, held, n) && Owned(g, used, inodes, data, held)
  }

  ghost predicate Holds(fs: FileSystem, n: nat, node: IndexNode, used: set<nat>, held: Held)
    reads fs, fs.freeListBitBlock, fs.indexBlockBytes
  {
    && DataShape(fs.g, fs.data) && NodeShape(fs.g, node)
    && fs.Valid() && Registered(fs.g, fs.inodes, fs.data, n, node, used, held)
  }

  lemma RegisteredParts(g: Geometry, inodes: seq<IndexNode>, data: seq<Block>, n: nat, node: IndexNode,
                        used: set<nat>, held: Held)
    requires Registered(g, inodes, data, n, node, used, held)
    ensures DataShape(g, data) && NodeShape(g, node) && node.Shaped() && FileOK(g, node, data)
    ensures n < |inodes| == g.NodeCount() && g.Valid()
  {
  }

  lemma HoldsParts(fs: FileSystem, n: nat, node: IndexNode, used: set<nat>, held: Held)
    requires Holds(fs, n, node, used, held)
    ensures fs.Valid() && Registered(fs.g, fs.inodes, fs.data, n, node, used, held)
    ensures DataShape(fs.g, fs.data) && NodeShape(fs.g, node) && node.Shaped() && n < |fs.inodes| == fs.g.NodeCount()
    ensures fs.g.Valid()
  {
    hide FileSystem.Valid;
    RegisteredParts(fs.g, fs.inodes, fs.data, n, node, used, held);
  }

  lemma HoldsAgain(fs: FileSystem, n: nat, node: IndexNode, used: set<nat>, held: Held)
    requires fs.Valid() && Registered(fs.g, fs.inodes, fs.data, n, node, used, held)
    ensures Holds(fs, n, node, used, held)
  {
    hide FileSystem.Valid;
  }

  lemma SlotRegistered(g: Geometry, inodes: seq<IndexNode>, data: seq<Block>, n: nat, node: IndexNode, used: set<nat>,
                       held: Held, b: nat, r: nat, block: Block)
    requires Registered(g, inodes, data, n, node, used, held) && |block| == g.blockSize && DataShape(g, data)
    requires NodeShape(g, node)
    requires r !in used && InData(g, r) && HasSlot(g, node, b) && Address(g, node, data, b) == NOT_A_BLOCK
    ensures var node', data' := SlotNode(node, b, r), SlotData(g, node, data, b, r)[r := block];
            && node'.Storable() && Registered(g, inodes[n := node'], data', n, node', used + {r}, held)
            && Stored(g, Owners(inodes, held), data, Owners(inodes[n := node'], held), data', n, b, block)
  {
    OwnersWritten(inodes, held, n, node);
    OwnersWritten(inodes, held, n, SlotNode(node, b, r));
    Placed(g, used - held.lost, Owners(inodes, held), data, n, b, r, block);
    assert used - held.lost + {r} == used + {r} - held.lost;
  }

  lemma IndirectRegistered(g: Geometry, inodes: seq<IndexNode>, data: seq<Block>, n: nat, node: IndexNode,
                           used: set<nat>, held: Held, b: nat, r: nat, p: nat, block: Block)
    requires Registered(g, inodes, data, n, node, used, held) && |block| == g.blockSize
    requires NeedsIndirect(node, b) && b < Slots(g)
    requires r !in used && InData(g, r) && p !in used + {r} && InData(g, p)
    ensures |EmptyPointers(Slots(g))| == g.blockSize
    ensures var node', data' := node.(indirect := p),
                                data[p := WritePointer(EmptyPointers(Slots(g)), b, r)][r := block];
            && node'.Storable() && Registered(g, inodes[n := node'], data', n, node', used + {r} + {p}, held)
            && Stored(g, Owners(inodes, held), data, Owners(inodes[n := node'], held), data', n, b, block)
  {
    OwnersWritten(inodes, held, n, node);
    OwnersWritten(inodes, held, n, node.(indirect := p));
    PlacedWithIndirect(g, used - held.lost, Owners(inodes, held), data, n, b, r, p, block);
    assert used - held.lost + {r, p} == used + {r} + {p} - held.lost;
  }

  // Link the new block r into a slot the file has, write the node, then the block.
  method StoreInSlot(fs: FileSystem, n: nat, node: IndexNode, b: nat, r: nat, block: Block, ghost used0: set<nat>,
                     ghost held: Held)
    returns (node': IndexNode)
    requires Holds(fs, n, node, used0, held) && |block| == fs.g.blockSize
    requires r !in used0 && InData(fs.g, r) && fs.used == used0 + {r}
    requires HasSlot(fs.g, node, b) && Address(fs.g, node, fs.data, b) == NOT_A_BLOCK
    modifies fs, fs.indexBlockBytes
    ensures Holds(fs, n, node', fs.used, held)
    ensures Stored(fs.g, Owners(old(fs.inodes), held), old(fs.data), Owners(fs.inodes, held), fs.data, n, b, block)
    ensures node' == SlotNode(node, b, r) && fs.used == old(fs.used)
  {
    hide *;
    HoldsParts(fs, n, node, used0, held);
    SlotValueIs(fs.g, r);
    SlotRegistered(fs.g, fs.inodes, fs.data, n, node, used0, held, b, r, block);
    node' := SetSlot(fs, node, b, r);
    fs.WriteIndexNode(node', n);
    fs.WriteData(block, r);
    HoldsAgain(fs, n, node', fs.used, held);
  }

  lemma SlotValueIs(g: Geometry, r: int)
    requires g.Valid() && InData(g, r)
    ensures SlotValue(g, r) && 0 <= r < g.DataCount() && r < 0x8000_0000
  {
  }

  // The same when the slot needs an indirect block first. Where the disk is full there is none, the node goes to
  // disk as it was, and the new block is written though no pointer leads to it.
  method StoreWithIndirect(fs: FileSystem, n: nat, node: IndexNode, b: nat, r: nat, block: Block, ghost used0: set<nat>,
                           ghost held: Held)
    returns (node': IndexNode)
    requires Holds(fs, n, node, used0, held) && |block| == fs.g.blockSize
    requires r !in used0 && InData(fs.g, r) && fs.used == used0 + {r}
    requires NeedsIndirect(node, b) && b < Slots(fs.g)
    modifies fs, fs.indexBlockBytes, fs.freeListBitBlock
    ensures fs.Valid() && node' == node.(indirect := node'.indirect)
    ensures !DiskFull(fs.g, old(fs.used)) ==>
              && Holds(fs, n, node', fs.used, held) && node'.indirect != NOT_A_BLOCK
              && |fs.used| == |old(fs.used)| + 1
              && Stored(fs.g, Owners(old(fs.inodes), held), old(fs.data), Owners(fs.inodes, held), fs.data, n, b, block)
    ensures DiskFull(fs.g, old(fs.used)) ==>
              && node'.indirect == -1 && fs.used == old(fs.used) && fs.inodes == old(fs.inodes)
              && fs.data == old(fs.data)[r := block]
  {
    hide *;
    ghost var inodes0, data0, full := fs.inodes, fs.data, DiskFull(fs.g, fs.used);
    HoldsParts(fs, n, node, used0, held);
    HeldNodes(fs.g, fs.inodes, fs.data, n, node, used0, held);
    NeedsIndirectIs(node, b);
    SlotValueIs(fs.g, r);
    node' := SetFirstIndirect(fs, node, b, r);
    if full {
      CutBack(inodes0, n, node);
    } else {
      SlotValueIs(fs.g, node'.indirect);
      NotABlockIsOutside(fs.g, node'.indirect);
      IndirectRegistered(fs.g, inodes0, data0, n, node, used0, held, b, r, node'.indirect, block);
    }
    fs.WriteIndexNode(node', n);
    fs.WriteData(block, r);
    if !full {
      HoldsAgain(fs, n, node', fs.used, held);
    }
  }

  // Three bytes of -1 are those of NOT_A_BLOCK.
  lemma CutBack(inodes: seq<IndexNode>, n: nat, node: IndexNode)
    requires n < |inodes| && inodes[n] == node && node.Storable() && node.indirect == NOT_A_BLOCK
    ensures node.(indirect := -1).Shaped() && !node.(indirect := -1).Storable()
    ensures inodes[n := Cut(node.(indirect := -1))] == inodes
  {
    StorableIsUncut(node);
  }

  lemma NeedsIndirectIs(node: IndexNode, b: nat)
    ensures NeedsIndirect(node, b) <==> b >= MAX_DIRECT_BLOCKS && node.indirect == NOT_A_BLOCK
  {
  }

  // One direct pointer got a block, and nothing else of the node changed.
  predicate DirectFilled(node: IndexNode, node': IndexNode, b: nat) {
    && b < |node.direct| == |node'.direct| && node'.direct[b] != NOT_A_BLOCK
    && node' == node.(direct := node.direct[b := node'.direct[b]])
  }

  lemma SlotFilled(node: IndexNode, b: nat, r: int)
    requires node.Shaped() && r != NOT_A_BLOCK
    ensures var node' := SlotNode(node, b, r);
            && (b < MAX_DIRECT_BLOCKS ==> DirectFilled(node, node', b))
            && node' == node.(direct := node'.direct) && node'.indirect == node.indirect
  {
  }

  lemma AllocatedInData(g: Geometry, r: int)
    requires 0 <= r < g.DataCount()
    ensures InData(g, r)
  {
  }

  lemma DiskFullIs(g: Geometry, used: set<nat>)
    ensures DiskFull(g, used) <==> forall k: nat :: k < g.DataCount() ==> k in used
  {
  }

  // A hole has a slot, unless it needs an indirect block.
  lemma NewSlot(g: Geometry, node: IndexNode, data: seq<Block>, b: nat)
    requires DataShape(g, data) && NodeShape(g, node) && b < Slots(g)
    ensures HasSlot(g, node, b) || NeedsIndirect(node, b)
  {
  }

  // The new block r goes into the file, with an indirect block if it needs one.
  method LinkNew(fs: FileSystem, n: nat, node: IndexNode, b: nat, r: nat, block: Block, ghost used0: set<nat>,
                 ghost held: Held)
    returns (node': IndexNode)
    requires Holds(fs, n, node, used0, held) && |block| == fs.g.blockSize && b < Slots(fs.g)
    requires r !in used0 && InData(fs.g, r) && fs.used == used0 + {r}
    requires Address(fs.g, node, fs.data, b) == NOT_A_BLOCK
    modifies fs, fs.indexBlockBytes, fs.freeListBitBlock
    ensures fs.Valid() && node' == node.(direct := node'.direct, indirect := node'.indirect)
    ensures Enough(fs.g, node, used0, b) ==>
              && Holds(fs, n, node', fs.used, held)
              && Stored(fs.g, Owners(old(fs.inodes), held), old(fs.data), Owners(fs.inodes, held), fs.data, n, b, block)
              && |fs.used| == |used0| + Cost(node, b)
              && (b < MAX_DIRECT_BLOCKS ==> DirectFilled(node, node', b))
              && (b >= MAX_DIRECT_BLOCKS ==> node'.indirect != NOT_A_BLOCK)
    ensures !Enough(fs.g, node, used0, b) ==>
              && node' == node.(indirect := -1) && fs.used == old(fs.used) && fs.inodes == old(fs.inodes)
              && fs.data == old(fs.data)[r := block]
  {
    hide *;
    HoldsParts(fs, n, node, used0, held);
    SlotValueIs(fs.g, r);
    NotABlockIsOutside(fs.g, r);
    SlotFilled(node, b, r);
    NeedsIndirectIs(node, b);
    NewSlot(fs.g, node, fs.data, b);
    CostIs(node, b);
    EnoughIs(fs.g, node, used0, b);
    AnotherIsFree(fs.g, used0, r);
    if b >= MAX_DIRECT_BLOCKS && node.indirect == NOT_A_BLOCK {
      node' := StoreWithIndirect(fs, n, node, b, r, block, used0, held);
    } else {
      node' := StoreInSlot(fs, n, node, b, r, block, used0, held);
      HoldsParts(fs, n, node', fs.used, held);
    }
  }

  // The files, the allocated blocks, the data and the node of an open file at one moment.
  datatype Snapshot = Snapshot(files: seq<IndexNode>, used: set<nat>, data: seq<Block>, node: IndexNode)

  // What writing a block as block b of file n comes to. It fails for a hole on a full disk, and then
  // nothing has changed; else the file differs in that block only, and no other file differs.
  ghost predicate BlockWritten(g: Geometry, was: Snapshot, now: Snapshot, n: nat, b: nat, block: Block, status: int) {
    && DataShape(g, was.data) && DataShape(g, now.data) && NodeShape(g, was.node) && NodeShape(g, now.node)
    && b < Slots(g) && OthersSame(g, was.files, was.data, now.files, now.data, n)
    && now.node == was.node.(direct := now.node.direct, indirect := now.node.indirect)
    && var hole := Address(g, was.node, was.data, b) == NOT_A_BLOCK;
    && status == (if hole && DiskFull(g, was.used) then -1 else 0)
    && (status == -1 ==> now == was)
    && (status == 0 ==>
          && Contents(g, now.node, now.data) == Contents(g, was.node, was.data)[b := block]
          && Fills(g, was.node, was.data, now.node, now.data, b)
          && (!hole ==> now.used == was.used && now.node == was.node)
          && (hole ==> |now.used| == |was.used| + Cost(was.node, b))
          && (b < MAX_DIRECT_BLOCKS && hole ==> DirectFilled(was.node, now.node, b))
          && (b >= MAX_DIRECT_BLOCKS ==> now.node.indirect != NOT_A_BLOCK))
  }

  // The block went to disk, but the file did not get it: no table says whose it is, and the node in memory has a
  // pointer that is none.
  ghost predicate BlockLost(g: Geometry, was: Snapshot, now: Snapshot, block: Block) {
    && now.files == was.files && now.node == was.node.(indirect := -1)
    && exists r: nat :: LostAt(g, was, now, block, r)
  }

  ghost predicate LostAt(g: Geometry, was: Snapshot, now: Snapshot, block: Block, r: nat) {
    r < g.DataCount() == |was.data| && r !in was.used && now.used == was.used + {r} && now.data == was.data[r := block]
  }

  lemma BlockLostAt(g: Geometry, was: Snapshot, now: Snapshot, block: Block, r: nat)
    requires DataShape(g, was.data) && r < g.DataCount() && r !in was.used && now.used == was.used + {r}
    requires now.data == was.data[r := block] && now.files == was.files && now.node == was.node.(indirect := -1)
    ensures BlockLost(g, was, now, block)
  {
    assert LostAt(g, was, now, block, r);
  }

  // A full disk: nothing is written.
  lemma NothingWritten(g: Geometry, inodes: seq<IndexNode>, data: seq<Block>, n: nat, node: IndexNode, used: set<nat>,
                       held: Held, b: nat, block: Block)
    requires Registered(g, inodes, data, n, node, used, held) && DataShape(g, data) && NodeShape(g, node)
    requires b < Slots(g)
    requires Address(g, node, data, b) == NOT_A_BLOCK && DiskFull(g, used)
    ensures var was := Snapshot(Owners(inodes, held), used, data, node); BlockWritten(g, was, was, n, b, block, -1)
  {
  }

  lemma NewBlockWritten(g: Geometry, was: Snapshot, now: Snapshot, n: nat, b: nat, block: Block, r: nat)
    requires DataShape(g, was.data) && NodeShape(g, was.node) && b < Slots(g)
    requires Address(g, was.node, was.data, b) == NOT_A_BLOCK && n < |was.files| && n < |now.files|
    requires was.files[n] == was.node && now.files[n] == now.node
    requires Stored(g, was.files, was.data, now.files, now.data, n, b, block)
    requires now.node == was.node.(direct := now.node.direct, indirect := now.node.indirect)
    requires InData(g, r) && r !in was.used && |now.used| == |was.used| + Cost(was.node, b)
    requires b < MAX_DIRECT_BLOCKS ==> DirectFilled(was.node, now.node, b)
    requires b >= MAX_DIRECT_BLOCKS ==> now.node.indirect != NOT_A_BLOCK
    ensures BlockWritten(g, was, now, n, b, block, 0)
  {
  }

  lemma HeldNodes(g: Geometry, inodes: seq<IndexNode>, data: seq<Block>, n: nat, node: IndexNode, used: set<nat>,
                  held: Held)
    requires Registered(g, inodes, data, n, node, used, held)
    ensures n < |inodes| == |Owners(inodes, held)| && Owners(inodes, held)[n] == node && inodes[n] == node
    ensures node.Storable()
  {
  }

  lemma WrittenSize(g: Geometry, was: Snapshot, now: Snapshot, n: nat, b: nat, block: Block, status: int)
    requires BlockWritten(g, was, now, n, b, block, status)
    ensures now.node.size == was.node.size && DataShape(g, now.data) && NodeShape(g, now.node)
    ensures status == 0 || status == -1
  {
  }

  // Fill a hole: allocate a block, link it, write the node and the block.
  method StoreNew(fs: FileSystem, n: nat, node: IndexNode, b: nat, block: Block, ghost held: Held)
    returns (status: int, node': IndexNode)
    requires Holds(fs, n, node, fs.used, held) && |block| == fs.g.blockSize && b < Slots(fs.g)
    requires Address(fs.g, node, fs.data, b) == NOT_A_BLOCK
    modifies fs, fs.indexBlockBytes, fs.freeListBitBlock
    ensures fs.Valid()
    ensures var was := Snapshot(Owners(old(fs.inodes), held), old(fs.used), old(fs.data), node);
            var now := Snapshot(Owners(fs.inodes, held), fs.used, fs.data, node');
            if Enough(fs.g, node, was.used, b) then
              Holds(fs, n, node', fs.used, held) && BlockWritten(fs.g, was, now, n, b, block, status)
            else
              status == 0 && fs.inodes == old(fs.inodes) && BlockLost(fs.g, was, now, block)
  {
    hide *;
    ghost var used0 := fs.used;
    HoldsParts(fs, n, node, used0, held);
    HeldNodes(fs.g, fs.inodes, fs.data, n, node, used0, held);
    DiskFullIs(fs.g, used0);
    EnoughIs(fs.g, node, used0, b);
    var r := fs.AllocateBlock();
    if r < 0 {
      NothingWritten(fs.g, fs.inodes, fs.data, n, node, used0, held, b, block);
      HoldsAgain(fs, n, node, used0, held);
      return -1, node;
    }
    node' := LinkAllocated(fs, n, node, b, r, block, used0, held);
    status := 0;
  }

  // The part of it after the allocation.
  method LinkAllocated(fs: FileSystem, n: nat, node: IndexNode, b: nat, r: nat, block: Block, ghost used0: set<nat>,
                       ghost held: Held)
    returns (node': IndexNode)
    requires fs.Valid() && Registered(fs.g, fs.inodes, fs.data, n, node, used0, held)
    requires |block| == fs.g.blockSize && b < Slots(fs.g) && DataShape(fs.g, fs.data) && NodeShape(fs.g, node)
    requires r !in used0 && r < fs.g.DataCount() && fs.used == used0 + {r}
    requires Address(fs.g, node, fs.data, b) == NOT_A_BLOCK
    modifies fs, fs.indexBlockBytes, fs.freeListBitBlock
    ensures fs.Valid()
    ensures var was := Snapshot(Owners(old(fs.inodes), held), used0, old(fs.data), node);
            var now := Snapshot(Owners(fs.inodes, held), fs.used, fs.data, node');
            if Enough(fs.g, node, used0, b) then
              Holds(fs, n, node', fs.used, held) && BlockWritten(fs.g, was, now, n, b, block, 0)
            else
              fs.inodes == old(fs.inodes) && BlockLost(fs.g, was, now, block)
  {
    hide *;
    ghost var was := Snapshot(Owners(fs.inodes, held), used0, fs.data, node);
    HoldsAgain(fs, n, node, used0, held);
    HeldNodes(fs.g, fs.inodes, fs.data, n, node, used0, held);
    AllocatedInData(fs.g, r);
    node' := LinkNew(fs, n, node, b, r, block, used0, held);
    ghost var now := Snapshot(Owners(fs.inodes, held), fs.used, fs.data, node');
    if Enough(fs.g, node, used0, b) {
      HoldsParts(fs, n, node', fs.used, held);
      HeldNodes(fs.g, fs.inodes, fs.data, n, node', fs.used, held);
      NewBlockWritten(fs.g, was, now, n, b, block, r);
    } else {
      BlockLostAt(fs.g, was, now, block, r);
    }
  }

  lemma OthersKeptSelf(g: Geometry, inodes: seq<IndexNode>, data: seq<Block>, n: nat)
    requires DataShape(g, data) && FilesOK(g, inodes, data)
    ensures OthersKept(g, inodes, data, inodes, data, n)
  {
  }

  lemma TwoFree(g: Geometry, used: set<nat>)
    requires (forall d :: d in used ==> d < g.DataCount()) && |used| + 2 <= g.DataCount()
    ensures NotOneFree(g, used)
  {
    var all := UpTo(g.DataCount());
    UpToSize(g.DataCount());
    assert used <= all;
    assert all == used + (all - used);
    var d := SomeMember(all - used);
    assert all == (used + {d}) + (all - used - {d});
    var e := SomeMember(all - used - {d});
  }

  // Node n may be opened for writing.
  ghost predicate Opens(fs: FileSystem, n: nat, node: IndexNode, held: Held)
    reads fs
  {
    && n < fs.g.NodeCount() && Writable(fs.inodes, held, n) && fs.inodes[n] == node && Live(node) && node.size >= 0
    && Owned(fs.g, fs.used, fs.inodes, fs.data, held)
  }

  // Every pointer is empty or leads to a data block.
  ghost predicate Leads(g: Geometry, node: IndexNode, data: seq<Block>)
    requires DataShape(g, data)
  {
    NodeShape(g, node) && forall b: nat :: b < Slots(g) ==>
      var a := Address(g, node, data, b); a == NOT_A_BLOCK || InData(g, a)
  }

  class FileDescriptor {
    const fs: FileSystem
    const indexNodeNumber: nat
    var indexNode: IndexNode
    const bytes: array<Byte>
    var offset: nat
    ghost const held: Held // the file being unlinked while this one is open, if any

    // Enough to read by: the node leads to blocks of the disk, be it the node on disk or an old copy.
    ghost predicate Readable()
      reads this`indexNode, fs, fs.freeListBitBlock, fs.indexBlockBytes
    {
      && fs.Valid() && bytes != fs.freeListBitBlock && bytes != fs.indexBlockBytes && bytes.Length == fs.g.blockSize
      && DataShape(fs.g, fs.data) && Leads(fs.g, indexNode, fs.data)
    }

    ghost function Files(): seq<IndexNode>
      reads fs
    {
      Owners(fs.inodes, held)
    }

    // The descriptor's node is the one on disk, and block ownership holds.
    ghost predicate Valid()
      reads this`indexNode, fs, fs.freeListBitBlock, fs.indexBlockBytes
    {
      Readable() && Opens(fs, indexNodeNumber, indexNode, held)
    }

    // What the blocks of the file hold.
    ghost function File(): (c: seq<Block>)
      requires Readable()
      reads this`indexNode, fs, fs.freeListBitBlock, fs.indexBlockBytes
    {
      Contents(fs.g, indexNode, fs.data)
    }

    constructor (fs: FileSystem, n: nat, node: IndexNode, ghost held: Held)
      requires fs.Valid() && DataShape(fs.g, fs.data) && Leads(fs.g, node, fs.data)
      ensures Readable() && this.fs == fs && indexNodeNumber == n && indexNode == node && offset == 0
      ensures this.held == held
      ensures Opens(fs, n, node, held) ==> Valid()
      ensures fresh(bytes) && bytes[..] == Zeros(fs.g.blockSize)
    {
      this.fs := fs;
      indexNodeNumber := n;
      indexNode := node;
      offset := 0;
      bytes := new Byte[fs.g.blockSize](_ => 0);
      this.held := held;
      new;
      assert bytes[..] == Zeros(fs.g.blockSize);
    }

    predicate TooBig(b: nat)
    {
      b >= MAX_DIRECT_BLOCKS + Slots(fs.g)
    }

    // Load one block of the file into the buffer; holes read as zeros.
    method ReadBlock(b: nat) returns (status: int)
      requires Readable() && (b < Slots(fs.g) || TooBig(b))
      modifies bytes
      ensures status == if TooBig(b) then -1 else 0
      ensures status == 0 ==> bytes[..] == File()[b]
      ensures status == -1 ==> bytes[..] == old(bytes[..])
    {
      if b >= MAX_DIRECT_BLOCKS + Slots(fs.g) {
        return -1;
      }
      var blockOffset := GetBlockAddress(fs, indexNode, b);
      if blockOffset == NOT_A_BLOCK {
        FillBuffer(bytes, Zeros(fs.g.blockSize));
      } else {
        var block := fs.ReadData(blockOffset);
        FillBuffer(bytes, block);
      }
      status := 0;
    }

    ghost function Now(): Snapshot
      reads this`indexNode, fs
    {
      Snapshot(Files(), fs.used, fs.data, indexNode)
    }

    // Where writing block b needs an indirect block, there are two free blocks or none.
    ghost predicate Room(b: nat)
      reads this`indexNode, fs
    {
      Enough(fs.g, indexNode, fs.used, b)
    }

    // Write the buffer over a block the file already has.
    method RewriteInPlace(b: nat, a: int)
      requires Valid() && b < Slots(fs.g) && a == Address(fs.g, indexNode, fs.data, b) != NOT_A_BLOCK
      modifies fs
      ensures Valid() && BlockWritten(fs.g, old(Now()), Now(), indexNodeNumber, b, bytes[..], 0)
    {
      hide *;
      DescriptorParts(this);
      BlockRewritten(fs.g, fs.inodes, fs.data, indexNodeNumber, indexNode, fs.used, held, b, bytes[..]);
      fs.WriteData(bytes[..], a);
      ValidAgain(this);
    }

    // Write the buffer into a hole of the file.
    method FillHole(b: nat) returns (status: int)
      requires Valid() && b < Slots(fs.g) && Address(fs.g, indexNode, fs.data, b) == NOT_A_BLOCK
      modifies this`indexNode, fs, fs.indexBlockBytes, fs.freeListBitBlock
      ensures fs.Valid()
      ensures old(Room(b)) ==> Valid() && BlockWritten(fs.g, old(Now()), Now(), indexNodeNumber, b, bytes[..], status)
      ensures !old(Room(b)) ==>
                status == 0 && fs.inodes == old(fs.inodes) && BlockLost(fs.g, old(Now()), Now(), bytes[..])
    {
      hide *;
      DescriptorParts(this);
      RoomIs(this, b);
      ghost var was, room := Now(), Room(b);
      status, indexNode := StoreNew(fs, indexNodeNumber, indexNode, b, bytes[..], held);
      NowIs(this);
      if room {
        WrittenSize(fs.g, was, Now(), indexNodeNumber, b, bytes[..], status);
        HoldsParts(fs, indexNodeNumber, indexNode, fs.used, held);
        ValidAgain(this);
      }
    }

    // Write the buffer as block b of the file. Where an indirect block is needed and just one block is free, the
    // code reports success, though the block is lost.
    method WriteBlock(b: nat) returns (status: int)
      requires Valid() && (b < Slots(fs.g) || TooBig(b))
      modifies this`indexNode, fs, fs.indexBlockBytes, fs.freeListBitBlock
      ensures fs.Valid()
      ensures TooBig(b) ==> Valid() && status == -1 && Now() == old(Now())
      ensures !TooBig(b) && old(Room(b)) ==>
                Valid() && BlockWritten(fs.g, old(Now()), Now(), indexNodeNumber, b, bytes[..], status)
      ensures !TooBig(b) && !old(Room(b)) ==>
                status == 0 && fs.inodes == old(fs.inodes) && BlockLost(fs.g, old(Now()), Now(), bytes[..])
    {
      hide *;
      DescriptorParts(this);
      TooBigIs(this, b);
      if b >= MAX_DIRECT_BLOCKS + Slots(fs.g) {
        return -1;
      }
      RoomWhereFilled(this, b);
      var blockOffset := GetBlockAddress(fs, indexNode, b);
      if blockOffset == NOT_A_BLOCK {
        status := FillHole(b);
      } else {
        RewriteInPlace(b, blockOffset);
        DescriptorParts(this);
        status := 0;
      }
    }

    // Record a new size, in the descriptor and on disk.
    method SetSize(newSize: Int)
      requires Valid() && newSize >= 0
      modifies this`indexNode, fs, fs.indexBlockBytes
      ensures Valid() && File() == old(File())
      ensures indexNode == old(indexNode).(size := newSize)
      ensures fs.used == old(fs.used) && fs.data == old(fs.data)
      ensures fs.inodes == old(fs.inodes)[indexNodeNumber := indexNode]
      ensures OthersSame(fs.g, old(Files()), old(fs.data), Files(), fs.data, indexNodeNumber)
    {
      OwnersWritten(fs.inodes, held, indexNodeNumber, indexNode.(size := newSize));
      Resized(fs.g, fs.used - held.lost, Files(), fs.data, indexNodeNumber, newSize);
      indexNode := indexNode.(size := newSize);
      fs.WriteIndexNode(indexNode, indexNodeNumber);
    }
  }

  lemma TooBigIs(fd: FileDescriptor, b: nat)
    ensures fd.TooBig(b) <==> b >= MAX_DIRECT_BLOCKS + Slots(fd.fs.g)
  {
  }

  lemma RoomIs(fd: FileDescriptor, b: nat)
    ensures fd.Room(b) <==> Enough(fd.fs.g, fd.indexNode, fd.fs.used, b)
  {
  }

  lemma NowIs(fd: FileDescriptor)
    ensures fd.Now() == Snapshot(Owners(fd.fs.inodes, fd.held), fd.fs.used, fd.fs.data, fd.indexNode)
  {
  }

  // A block that is there needs no indirect block.
  lemma RoomWhereFilled(fd: FileDescriptor, b: nat)
    requires DataShape(fd.fs.g, fd.fs.data) && NodeShape(fd.fs.g, fd.indexNode) && b < Slots(fd.fs.g)
    ensures Address(fd.fs.g, fd.indexNode, fd.fs.data, b) != NOT_A_BLOCK ==> fd.Room(b)
  {
  }

  // What the loss means: the block is allocated and no file's, and every file on disk, the one written to
  // included, is as it was.
  lemma LossShows(g: Geometry, was: Snapshot, now: Snapshot, block: Block, lost: set<nat>) returns (r: nat)
    requires BlockLost(g, was, now, block) && Owned(g, was.used, was.files, was.data, Nobody(lost))
    requires |block| == g.blockSize
    ensures r !in was.used && now.used == was.used + {r}
    ensures Owned(g, now.used, now.files, now.data, Nobody(lost + {r}))
    ensures forall n: nat :: n < |was.files| && Live(was.files[n]) ==> Untouched(g, was.files[n], was.data, now.data)
  {
    r :| LostAt(g, was, now, block, r);
    assert now.used - (lost + {r}) == was.used - lost;
    assert Owners(was.files, Nobody(lost)) == was.files == Owners(now.files, Nobody(lost + {r}));
    assert DataShape(g, now.data);
    forall n: nat | n < |was.files| && Live(was.files[n])
      ensures FileOK(g, was.files[n], was.data) && Untouched(g, was.files[n], was.data, now.data)
      ensures FileOK(g, was.files[n], now.data)
      ensures forall d :: Owns(g, was.files[n], now.data, d) <==> Owns(g, was.files[n], was.data, d)
    {
      SameOwnedSameFile(g, was.files[n], was.data, now.data);
    }
    hide FileOK, Owns, Untouched;
  }

  // What a descriptor knows of its file system.
  lemma DescriptorParts(fd: FileDescriptor)
    requires fd.Valid()
    ensures fd.fs.Valid() && Holds(fd.fs, fd.indexNodeNumber, fd.indexNode, fd.fs.used, fd.held)
    ensures Registered(fd.fs.g, fd.fs.inodes, fd.fs.data, fd.indexNodeNumber, fd.indexNode, fd.fs.used, fd.held)
    ensures DataShape(fd.fs.g, fd.fs.data) && NodeShape(fd.fs.g, fd.indexNode) && fd.indexNode.size >= 0
    ensures fd.bytes.Length == fd.fs.g.blockSize
    ensures fd.bytes != fd.fs.freeListBitBlock && fd.bytes != fd.fs.indexBlockBytes
    ensures fd.Now() == Snapshot(Owners(fd.fs.inodes, fd.held), fd.fs.used, fd.fs.data, fd.indexNode)
  {
  }

  lemma ValidAgain(fd: FileDescriptor)
    requires fd.fs.Valid() && fd.bytes.Length == fd.fs.g.blockSize && fd.indexNode.size >= 0
    requires fd.bytes != fd.fs.freeListBitBlock && fd.bytes != fd.fs.indexBlockBytes
    requires Registered(fd.fs.g, fd.fs.inodes, fd.fs.data, fd.indexNodeNumber, fd.indexNode, fd.fs.used, fd.held)
    ensures fd.Valid()
    ensures fd.Now() == Snapshot(Owners(fd.fs.inodes, fd.held), fd.fs.used, fd.fs.data, fd.indexNode)
  {
    OwnersWritten(fd.fs.inodes, fd.held, fd.indexNodeNumber, fd.indexNode);
    FileLeads(fd.fs.g, fd.indexNode, fd.fs.data);
  }

  lemma FileLeads(g: Geometry, node: IndexNode, data: seq<Block>)
    requires DataShape(g, data) && FileOK(g, node, data)
    ensures Leads(g, node, data)
  {
  }

  lemma BlockRewritten(g: Geometry, inodes: seq<IndexNode>, data: seq<Block>, n: nat, node: IndexNode, used: set<nat>,
                       held: Held, b: nat, block: Block)
    requires Registered(g, inodes, data, n, node, used, held) && DataShape(g, data) && NodeShape(g, node)
    requires b < Slots(g)
    requires |block| == g.blockSize && Address(g, node, data, b) != NOT_A_BLOCK
    ensures InData(g, Address(g, node, data, b)) && 0 <= Address(g, node, data, b) < g.DataCount()
    ensures var data' := data[Address(g, node, data, b) := block];
            && Registered(g, inodes, data', n, node, used, held)
            && BlockWritten(g, Snapshot(Owners(inodes, held), used, data, node),
                            Snapshot(Owners(inodes, held), used, data', node), n, b, block, 0)
  {
    OwnersWritten(inodes, held, n, node);
    Rewritten(g, used - held.lost, Owners(inodes, held), data, n, b, block);
    hide Address, Contents, Fills, Owns;
  }

  lemma Resized(g: Geometry, used: set<nat>, inodes: seq<IndexNode>, data: seq<Block>, n: nat, size: Int)
    requires Ownership(g, used, inodes, data) && n < |inodes| && Live(inodes[n])
    ensures var node' := inodes[n].(size := size);
            && FileOK(g, node', data)
            && Ownership(g, used, inodes[n := node'], data)
            && OthersKept(g, inodes, data, inodes[n := node'], data, n)
            && Contents(g, node', data) == Contents(g, inodes[n], data)
  {
    var node' := inodes[n].(size := size);
    SameSlots(g, inodes[n], node', data);
    OwnershipGrown(g, used, inodes, data, n, node', data, {});
    assert used + {} == used;
  }

  // A file is its pointers; the other fields of the node do not matter to it.
  lemma SameSlots(g: Geometry, node: IndexNode, node': IndexNode, data: seq<Block>)
    requires DataShape(g, data) && FileOK(g, node, data) && node'.direct == node.direct
    requires node'.indirect == node.indirect
    ensures FileOK(g, node', data) && Contents(g, node', data) == Contents(g, node, data)
    ensures forall b: nat :: b < Slots(g) ==> Address(g, node', data, b) == Address(g, node, data, b)
    ensures forall d :: Owns(g, node', data, d) <==> Owns(g, node, data, d)
  {
    assert forall b: nat :: b < Slots(g) ==> Address(g, node', data, b) == Address(g, node, data, b);
    assert Contents(g, node', data) == Contents(g, node, data);
  }
}
