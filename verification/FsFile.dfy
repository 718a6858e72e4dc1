/** A file as its block pointers describe it, and who owns which block. */
module FsFile {
  import opened FsCodec
  import opened FsGeometry

  // ----- pointers in an indirect block: native little-endian ints -----

  function ReadPointer(block: Block, k: nat): int
    requires 4 * k + 4 <= |block|
  {
    Int4(block[4 * k + 3], block[4 * k + 2], block[4 * k + 1], block[4 * k])
  }

  function WritePointer(block: Block, k: nat, v: Int): (r: Block)
    requires 4 * k + 4 <= |block|
    ensures |r| == |block|
  {
    var f := Field4(v);
    block[4 * k := f[3]][4 * k + 1 := f[2]][4 * k + 2 := f[1]][4 * k + 3 := f[0]]
  }

  lemma PointerWritten(block: Block, k: nat, v: Int, j: nat)
    requires 4 * k + 4 <= |block| && 4 * j + 4 <= |block|
    ensures ReadPointer(WritePointer(block, k, v), j) == if j == k then v else ReadPointer(block, j)
  {
    IntRoundTrip(v);
  }

  // An indirect block fresh from setBlockAddress: every slot NOT_A_BLOCK.
  function EmptyPointers(n: nat): (r: Block)
    ensures |r| == 4 * n
    ensures forall j :: 0 <= j < n ==> r[4 * j..4 * j + 4] == [0xFF, 0xFF, 0xFF, 0]
  {
    if n == 0 then []
    else
      var before := EmptyPointers(n - 1);
      var r := before + [0xFF, 0xFF, 0xFF, 0];
      assert forall j :: 0 <= j < n - 1 ==> r[4 * j..4 * j + 4] == before[4 * j..4 * j + 4];
      r
  }

  lemma EmptyPointersRead(n: nat, j: nat)
    requires j < n
    ensures ReadPointer(EmptyPointers(n), j) == NOT_A_BLOCK
  {
  }

  // ----- one file -----

  // File blocks with a slot: getBlockAddress indexes the indirect block by the file block number.
  function Slots(g: Geometry): nat {
    g.blockSize / 4
  }

  predicate InData(g: Geometry, p: int) {
    0 <= p < g.DataCount()
  }

  predicate DataShape(g: Geometry, data: seq<Block>) {
    g.Valid() && |data| == g.DataCount() && forall k :: 0 <= k < |data| ==> |data[k]| == g.blockSize
  }

  predicate NodeShape(g: Geometry, node: IndexNode) {
    node.Storable() && (node.indirect == NOT_A_BLOCK || InData(g, node.indirect))
  }

  function Address(g: Geometry, node: IndexNode, data: seq<Block>, b: nat): int
    requires DataShape(g, data) && NodeShape(g, node) && b < Slots(g)
  {
    if b < MAX_DIRECT_BLOCKS then node.direct[b]
    else if node.indirect == NOT_A_BLOCK then NOT_A_BLOCK
    else ReadPointer(data[node.indirect], b)
  }

  // The file has block b.
  ghost predicate InUse(g: Geometry, node: IndexNode, data: seq<Block>, b: nat)
    requires DataShape(g, data) && NodeShape(g, node)
  {
    b < Slots(g) && Address(g, node, data, b) != NOT_A_BLOCK
  }

  // Every pointer is empty or leads to a data block, and no block is pointed to twice.
  ghost predicate FileOK(g: Geometry, node: IndexNode, data: seq<Block>)
    requires DataShape(g, data)
  {
    && NodeShape(g, node)
    && (forall b: nat :: b < Slots(g) ==>
          var a := Address(g, node, data, b);
          (a == NOT_A_BLOCK || InData(g, a)) && (a == NOT_A_BLOCK || a != node.indirect))
    && (forall b: nat, c: nat :: b < Slots(g) && c < Slots(g) && b != c ==>
          var a := Address(g, node, data, b);
          a == NOT_A_BLOCK || a != Address(g, node, data, c))
  }

  // The data blocks a file owns: those its slots name and its indirect block.
  ghost predicate Owns(g: Geometry, node: IndexNode, data: seq<Block>, d: int)
    requires DataShape(g, data) && NodeShape(g, node)
  {
    && d != NOT_A_BLOCK
    && (d == node.indirect || exists b: nat :: b < Slots(g) && Address(g, node, data, b) == d)
  }

  function Zeros(n: nat): Block {
    seq(n, _ => 0)
  }

  function FileBlock(g: Geometry, node: IndexNode, data: seq<Block>, b: nat): Block
    requires DataShape(g, data) && NodeShape(g, node) && b < Slots(g)
  {
    var a := Address(g, node, data, b);
    if InData(g, a) then data[a] else Zeros(g.blockSize)
  }

  // The whole file, holes as zeros, up to the last slot.
  ghost function Contents(g: Geometry, node: IndexNode, data: seq<Block>): (c: seq<Block>)
    requires DataShape(g, data) && NodeShape(g, node)
    ensures |c| == Slots(g)
    ensures forall b :: 0 <= b < |c| ==> c[b] == FileBlock(g, node, data, b) && |c[b]| == g.blockSize
  {
    seq(Slots(g), b requires 0 <= b < Slots(g) => FileBlock(g, node, data, b))
  }

  // A file looks the same in any data that agrees on the blocks it owns.
  lemma SameOwnedSameFile(g: Geometry, node: IndexNode, data: seq<Block>, data': seq<Block>)
    requires DataShape(g, data) && DataShape(g, data') && FileOK(g, node, data)
    requires forall d :: InData(g, d) && Owns(g, node, data, d) ==> data'[d] == data[d]
    ensures FileOK(g, node, data')
    ensures forall b: nat :: b < Slots(g) ==> Address(g, node, data', b) == Address(g, node, data, b)
    ensures forall d :: Owns(g, node, data', d) <==> Owns(g, node, data, d)
    ensures Contents(g, node, data') == Contents(g, node, data)
  {
    assert node.indirect != NOT_A_BLOCK ==> Owns(g, node, data, node.indirect);
    assert forall b: nat :: b < Slots(g) ==> Address(g, node, data', b) == Address(g, node, data, b);
    forall b: nat | b < Slots(g)
      ensures FileBlock(g, node, data', b) == FileBlock(g, node, data, b)
    {
      var a := Address(g, node, data, b);
      if InData(g, a) {
        NotABlockIsOutside(g, a);
        assert Owns(g, node, data, a);
      }
    }
    assert Contents(g, node, data') == Contents(g, node, data);
  }

  lemma NotABlockIsOutside(g: Geometry, a: int)
    requires g.Valid() && InData(g, a)
    ensures a != NOT_A_BLOCK
  {
  }

  // ----- setBlockAddress -----

  predicate HasSlot(g: Geometry, node: IndexNode, b: nat) {
    b < Slots(g) && (b < MAX_DIRECT_BLOCKS || node.indirect != NOT_A_BLOCK)
  }

  function SlotNode(node: IndexNode, b: nat, v: int): IndexNode
    requires node.Shaped()
  {
    if b < MAX_DIRECT_BLOCKS then node.(direct := node.direct[b := v]) else node
  }

  function SlotData(g: Geometry, node: IndexNode, data: seq<Block>, b: nat, v: Int): seq<Block>
    requires DataShape(g, data) && NodeShape(g, node) && HasSlot(g, node, b)
  {
    if b < MAX_DIRECT_BLOCKS then data
    else data[node.indirect := WritePointer(data[node.indirect], b, v)]
  }

  predicate SlotValue(g: Geometry, v: int) {
    v == NOT_A_BLOCK || InData(g, v)
  }

  lemma SlotSet(g: Geometry, node: IndexNode, data: seq<Block>, b: nat, v: Int)
    requires DataShape(g, data) && NodeShape(g, node) && HasSlot(g, node, b) && SlotValue(g, v)
    ensures var node', data' := SlotNode(node, b, v), SlotData(g, node, data, b, v);
            && DataShape(g, data') && NodeShape(g, node')
            && forall c: nat :: c < Slots(g) ==>
                 Address(g, node', data', c) == if c == b then v else Address(g, node, data, c)
  {
    if b >= MAX_DIRECT_BLOCKS {
      forall c: nat | c < Slots(g)
        ensures ReadPointer(WritePointer(data[node.indirect], b, v), c)
                == if c == b then v else ReadPointer(data[node.indirect], c)
      {
        PointerWritten(data[node.indirect], b, v, c);
      }
    }
  }

  // Slot b is in use now; blocks the file had stay where they are, and so do its holes.
  ghost predicate Fills(g: Geometry, node: IndexNode, data: seq<Block>, node': IndexNode, data': seq<Block>, b: nat) {
    && DataShape(g, data) && DataShape(g, data') && NodeShape(g, node) && NodeShape(g, node')
    && (node.indirect != NOT_A_BLOCK ==> node'.indirect == node.indirect)
    && forall c: nat :: c < Slots(g) ==>
         && (c != b || Address(g, node, data, c) != NOT_A_BLOCK ==>
               Address(g, node', data', c) == Address(g, node, data, c))
         && (c == b ==> Address(g, node', data', c) != NOT_A_BLOCK)
  }

  // Blocks the file had stay where they are.
  ghost predicate BlocksStay(g: Geometry, node: IndexNode, data: seq<Block>, node': IndexNode, data': seq<Block>) {
    && DataShape(g, data) && DataShape(g, data') && NodeShape(g, node) && NodeShape(g, node')
    && (node.indirect != NOT_A_BLOCK ==> node'.indirect == node.indirect)
    && forall c: nat :: c < Slots(g) && Address(g, node, data, c) != NOT_A_BLOCK ==>
         Address(g, node', data', c) == Address(g, node, data, c)
  }

  lemma FillsStay(g: Geometry, node: IndexNode, data: seq<Block>, node': IndexNode, data': seq<Block>, b: nat)
    requires Fills(g, node, data, node', data', b)
    ensures BlocksStay(g, node, data, node', data')
  {
  }

  // Give file block b, so far a hole, the free data block r, and fill it.
  lemma AssignBlock(g: Geometry, node: IndexNode, data: seq<Block>, b: nat, r: Int, block: Block)
    requires DataShape(g, data) && FileOK(g, node, data) && HasSlot(g, node, b) && |block| == g.blockSize
    requires Address(g, node, data, b) == NOT_A_BLOCK && InData(g, r) && !Owns(g, node, data, r)
    ensures var node', data' := SlotNode(node, b, r), SlotData(g, node, data, b, r)[r := block];
            && DataShape(g, data') && FileOK(g, node', data')
            && (forall d :: Owns(g, node', data', d) <==> Owns(g, node, data, d) || d == r)
            && Contents(g, node', data') == Contents(g, node, data)[b := block]
            && Fills(g, node, data, node', data', b)
  {
    SlotSet(g, node, data, b, r);
    var node', data1 := SlotNode(node, b, r), SlotData(g, node, data, b, r);
    var data' := data1[r := block];
    NotABlockIsOutside(g, r);
    assert forall c: nat :: c < Slots(g) ==> Address(g, node', data', c) == Address(g, node', data1, c);
    AssignedOwns(g, node, data, b, r, node', data');
    forall c | 0 <= c < Slots(g)
      ensures FileBlock(g, node', data', c) == Contents(g, node, data)[b := block][c]
    {
      var a := Address(g, node, data, c);
      if c != b && InData(g, a) {
        NotABlockIsOutside(g, a);
        assert Owns(g, node, data, a);
      }
    }
  }

  lemma AssignedOwns(g: Geometry, node: IndexNode, data: seq<Block>, b: nat, r: int, node': IndexNode,
                     data': seq<Block>)
    requires DataShape(g, data) && NodeShape(g, node) && DataShape(g, data') && NodeShape(g, node')
    requires b < Slots(g) && r != NOT_A_BLOCK && Address(g, node, data, b) == NOT_A_BLOCK
    requires node'.indirect == node.indirect
    requires forall c: nat :: c < Slots(g) ==>
               Address(g, node', data', c) == if c == b then r else Address(g, node, data, c)
    ensures forall d :: Owns(g, node', data', d) <==> Owns(g, node, data, d) || d == r
  {
  }

  // Fill a block the file already has.
  lemma RewriteBlock(g: Geometry, node: IndexNode, data: seq<Block>, b: nat, block: Block)
    requires DataShape(g, data) && FileOK(g, node, data) && b < Slots(g) && |block| == g.blockSize
    requires Address(g, node, data, b) != NOT_A_BLOCK
    ensures InData(g, Address(g, node, data, b)) && Owns(g, node, data, Address(g, node, data, b))
    ensures var data' := data[Address(g, node, data, b) := block];
            && DataShape(g, data') && FileOK(g, node, data')
            && (forall d :: Owns(g, node, data', d) <==> Owns(g, node, data, d))
            && Contents(g, node, data') == Contents(g, node, data)[b := block]
            && Fills(g, node, data, node, data', b)
  {
    var a := Address(g, node, data, b);
    var data' := data[a := block];
    assert forall c: nat :: c < Slots(g) ==> Address(g, node, data', c) == Address(g, node, data, c);
    assert Contents(g, node, data') == Contents(g, node, data)[b := block];
  }

  // A new indirect block with every slot empty changes nothing in the file.
  lemma AddIndirect(g: Geometry, node: IndexNode, data: seq<Block>, p: int)
    requires DataShape(g, data) && FileOK(g, node, data) && node.indirect == NOT_A_BLOCK
    requires InData(g, p) && !Owns(g, node, data, p)
    ensures |EmptyPointers(Slots(g))| == g.blockSize
    ensures var node', data' := node.(indirect := p), data[p := EmptyPointers(Slots(g))];
            && DataShape(g, data') && FileOK(g, node', data')
            && (forall d :: Owns(g, node', data', d) <==> Owns(g, node, data, d) || d == p)
            && (forall b: nat :: b < Slots(g) ==> Address(g, node', data', b) == Address(g, node, data, b))
            && Contents(g, node', data') == Contents(g, node, data)
  {
    var data' := data[p := EmptyPointers(Slots(g))];
    NotABlockIsOutside(g, p);
    EmptyFits(g, data, p);
    NotOwned(g, node, data, p);
    hide Address, Owns, Contents, Slots, EmptyPointers, DataShape;
    IndirectAddresses(g, node, data, p);
    IndirectOwns(g, node, data, p, data');
    IndirectContents(g, node, data, p, data');
  }

  lemma FourDivides(n: nat)
    requires n % INDEX_NODE_SIZE == 0
    ensures 4 * (n / 4) == n
  {
    assert n == 4 * (16 * (n / INDEX_NODE_SIZE));
  }

  lemma EmptyFits(g: Geometry, data: seq<Block>, p: int)
    requires DataShape(g, data) && InData(g, p)
    ensures |EmptyPointers(Slots(g))| == g.blockSize
    ensures DataShape(g, data[p := EmptyPointers(Slots(g))])
  {
    FourDivides(g.blockSize);
  }

  lemma IndirectAddresses(g: Geometry, node: IndexNode, data: seq<Block>, p: int)
    requires DataShape(g, data) && NodeShape(g, node) && node.indirect == NOT_A_BLOCK && InData(g, p)
    ensures var node', data' := node.(indirect := p), data[p := EmptyPointers(Slots(g))];
            && DataShape(g, data') && NodeShape(g, node')
            && forall b: nat :: b < Slots(g) ==> Address(g, node', data', b) == Address(g, node, data, b)
  {
    var node', data' := node.(indirect := p), data[p := EmptyPointers(Slots(g))];
    NotABlockIsOutside(g, p);
    EmptyFits(g, data, p);
    hide EmptyPointers, ReadPointer, Slots, DataShape;
    forall b: nat | b < Slots(g)
      ensures Address(g, node', data', b) == Address(g, node, data, b)
    {
      EmptyPointersRead(Slots(g), b);
    }
  }

  lemma NotOwned(g: Geometry, node: IndexNode, data: seq<Block>, p: int)
    requires DataShape(g, data) && NodeShape(g, node) && !Owns(g, node, data, p) && p != NOT_A_BLOCK
    ensures p != node.indirect && forall b: nat :: b < Slots(g) ==> Address(g, node, data, b) != p
  {
  }

  lemma IndirectOwns(g: Geometry, node: IndexNode, data: seq<Block>, p: int, data': seq<Block>)
    requires DataShape(g, data) && NodeShape(g, node) && DataShape(g, data')
    requires node.indirect == NOT_A_BLOCK && InData(g, p) && NodeShape(g, node.(indirect := p))
    requires forall b: nat :: b < Slots(g) ==> Address(g, node.(indirect := p), data', b) == Address(g, node, data, b)
    ensures forall d :: Owns(g, node.(indirect := p), data', d) <==> Owns(g, node, data, d) || d == p
  {
  }

  lemma IndirectContents(g: Geometry, node: IndexNode, data: seq<Block>, p: int, data': seq<Block>)
    requires DataShape(g, data) && FileOK(g, node, data) && DataShape(g, data')
    requires node.indirect == NOT_A_BLOCK && NodeShape(g, node.(indirect := p)) && !Owns(g, node, data, p)
    requires forall k :: 0 <= k < |data| && k != p ==> data'[k] == data[k]
    requires forall b: nat :: b < Slots(g) ==> Address(g, node.(indirect := p), data', b) == Address(g, node, data, b)
    ensures Contents(g, node.(indirect := p), data') == Contents(g, node, data)
  {
  }

  // Empty one slot: the file gives up that block and no other, and reads zeros there.
  lemma ClearSlot(g: Geometry, node: IndexNode, data: seq<Block>, b: nat)
    requires DataShape(g, data) && FileOK(g, node, data) && b < Slots(g)
    requires Address(g, node, data, b) != NOT_A_BLOCK
    ensures HasSlot(g, node, b)
    ensures var node', data' := SlotNode(node, b, NOT_A_BLOCK), SlotData(g, node, data, b, NOT_A_BLOCK);
            && DataShape(g, data') && FileOK(g, node', data')
            && (forall c: nat :: c < Slots(g) ==>
                  Address(g, node', data', c) == if c == b then NOT_A_BLOCK else Address(g, node, data, c))
            && (forall d :: Owns(g, node', data', d) <==> Owns(g, node, data, d) && d != Address(g, node, data, b))
  {
    var a := Address(g, node, data, b);
    SlotSet(g, node, data, b, NOT_A_BLOCK);
    var node', data' := SlotNode(node, b, NOT_A_BLOCK), SlotData(g, node, data, b, NOT_A_BLOCK);
    forall d
      ensures Owns(g, node', data', d) <==> Owns(g, node, data, d) && d != a
    {
      if Owns(g, node, data, d) && d != a && d != node.indirect {
        var c: nat :| c < Slots(g) && Address(g, node, data, c) == d;
        assert Address(g, node', data', c) == d;
      }
    }
  }

  // ----- what the table on disk does not say of ownership -----

  // The blocks that are allocated and no file's, and, while unlink is under way, the file whose link
  // count is gone from the disk, with the node that still says what it owns.
  datatype Held =
    | Nobody(lost: set<nat>)
    | Unlinking(lost: set<nat>, number: nat, node: IndexNode)

  // The nodes as far as ownership goes.
  function Owners(inodes: seq<IndexNode>, held: Held): (r: seq<IndexNode>)
    ensures |r| == |inodes|
  {
    if held.Unlinking? && held.number < |inodes| then inodes[held.number := held.node] else inodes
  }

  // ----- every file -----

  // A file, for ownership, is a node with links.
  predicate Live(node: IndexNode) {
    node.nlink != 0
  }

  ghost predicate FilesOK(g: Geometry, inodes: seq<IndexNode>, data: seq<Block>)
    requires DataShape(g, data)
  {
    forall n :: 0 <= n < |inodes| && Live(inodes[n]) ==> FileOK(g, inodes[n], data)
  }

  // The allocated data blocks are the disjoint union of what the live files own.
  ghost predicate Ownership(g: Geometry, used: set<nat>, inodes: seq<IndexNode>, data: seq<Block>) {
    && DataShape(g, data) && FilesOK(g, inodes, data)
    && (forall m, n, d :: 0 <= m < |inodes| && 0 <= n < |inodes| && m != n && Live(inodes[m]) && Live(inodes[n]) ==>
          !(Owns(g, inodes[m], data, d) && Owns(g, inodes[n], data, d)))
    && (forall n, d: nat :: 0 <= n < |inodes| && Live(inodes[n]) && Owns(g, inodes[n], data, d) ==> d in used)
    && (forall d :: d in used ==> exists n :: 0 <= n < |inodes| && Live(inodes[n]) && Owns(g, inodes[n], data, d))
  }

  // A file holds the same in the same places.
  ghost predicate Untouched(g: Geometry, node: IndexNode, data: seq<Block>, data': seq<Block>) {
    && DataShape(g, data) && DataShape(g, data') && NodeShape(g, node)
    && Contents(g, node, data') == Contents(g, node, data)
    && forall b: nat :: b < Slots(g) ==> Address(g, node, data', b) == Address(g, node, data, b)
  }

  // What is true of every other file when file n changes only blocks it owned or that were free.
  ghost predicate OthersKept(g: Geometry, inodes: seq<IndexNode>, data: seq<Block>, inodes': seq<IndexNode>,
                             data': seq<Block>, n: nat)
    requires DataShape(g, data) && DataShape(g, data') && FilesOK(g, inodes, data) && FilesOK(g, inodes', data')
  {
    && |inodes'| == |inodes|
    && forall m :: 0 <= m < |inodes| && m != n ==>
         && inodes'[m] == inodes[m]
         && (Live(inodes[m]) ==> Untouched(g, inodes[m], data, data'))
  }

  // No file but n differs.
  ghost predicate OthersSame(g: Geometry, inodes: seq<IndexNode>, data: seq<Block>, inodes': seq<IndexNode>,
                             data': seq<Block>, n: nat) {
    && DataShape(g, data) && DataShape(g, data') && FilesOK(g, inodes, data) && FilesOK(g, inodes', data')
    && OthersKept(g, inodes, data, inodes', data', n)
  }

  lemma OthersSameNext(g: Geometry, inodes0: seq<IndexNode>, data0: seq<Block>, inodes1: seq<IndexNode>,
                       data1: seq<Block>, inodes2: seq<IndexNode>, data2: seq<Block>, n: nat)
    requires OthersSame(g, inodes0, data0, inodes1, data1, n) && OthersSame(g, inodes1, data1, inodes2, data2, n)
    ensures OthersSame(g, inodes0, data0, inodes2, data2, n)
  {
  }

  // No file but those with a number in `changed` differs.
  ghost predicate OnlyChanged(g: Geometry, inodes: seq<IndexNode>, data: seq<Block>, inodes': seq<IndexNode>,
                              data': seq<Block>, changed: set<nat>)
  {
    && DataShape(g, data) && DataShape(g, data') && |inodes'| == |inodes|
    && forall m: nat :: m < |inodes| && m !in changed ==>
         && inodes'[m] == inodes[m]
         && (Live(inodes[m]) ==> Untouched(g, inodes[m], data, data'))
  }

  lemma OnlyOneChanged(g: Geometry, inodes: seq<IndexNode>, data: seq<Block>, inodes': seq<IndexNode>,
                       data': seq<Block>, n: nat)
    requires OthersSame(g, inodes, data, inodes', data', n)
    ensures OnlyChanged(g, inodes, data, inodes', data', {n})
  {
  }

  lemma OnlyChangedNext(g: Geometry, inodes0: seq<IndexNode>, data0: seq<Block>, inodes1: seq<IndexNode>,
                        data1: seq<Block>,
                        inodes2: seq<IndexNode>, data2: seq<Block>, changed1: set<nat>, changed2: set<nat>)
    requires OnlyChanged(g, inodes0, data0, inodes1, data1, changed1)
    requires OnlyChanged(g, inodes1, data1, inodes2, data2, changed2)
    ensures OnlyChanged(g, inodes0, data0, inodes2, data2, changed1 + changed2)
  {
  }

  // Every file but those with a number in `changed` holds what it held where it held it, and nothing of its node but
  // the link count differs.
  ghost predicate FilesKept(g: Geometry, inodes: seq<IndexNode>, data: seq<Block>, inodes': seq<IndexNode>,
                            data': seq<Block>, changed: set<nat>)
  {
    && DataShape(g, data) && DataShape(g, data') && |inodes'| == |inodes|
    && forall m: nat :: m < |inodes| && m !in changed ==>
         && inodes'[m] == inodes[m].(nlink := inodes'[m].nlink) && (Live(inodes'[m]) <==> Live(inodes[m]))
         && (Live(inodes[m]) ==> Untouched(g, inodes[m], data, data'))
  }

  lemma UnchangedIsKept(g: Geometry, inodes: seq<IndexNode>, data: seq<Block>, inodes': seq<IndexNode>,
                        data': seq<Block>, changed: set<nat>)
    requires OnlyChanged(g, inodes, data, inodes', data', changed)
    ensures FilesKept(g, inodes, data, inodes', data', changed)
  {
  }

  lemma UntouchedRelinked(g: Geometry, node: IndexNode, nlink: Short, data: seq<Block>, data': seq<Block>)
    requires Untouched(g, node.(nlink := nlink), data, data') && node.Storable()
    ensures Untouched(g, node, data, data')
  {
    var node' := node.(nlink := nlink);
    assert forall b: nat :: b < Slots(g) ==>
        Address(g, node', data, b) == Address(g, node, data, b) &&
        Address(g, node', data', b) == Address(g, node, data', b);
    assert Contents(g, node', data) == Contents(g, node, data);
    assert Contents(g, node', data') == Contents(g, node, data');
  }

  lemma FilesKeptNext(g: Geometry, inodes0: seq<IndexNode>, data0: seq<Block>, inodes1: seq<IndexNode>,
                      data1: seq<Block>, inodes2: seq<IndexNode>, data2: seq<Block>, changed1: set<nat>,
                      changed2: set<nat>)
    requires FilesKept(g, inodes0, data0, inodes1, data1, changed1)
    requires FilesKept(g, inodes1, data1, inodes2, data2, changed2)
    ensures FilesKept(g, inodes0, data0, inodes2, data2, changed1 + changed2)
  {
    forall m: nat | m < |inodes0| && m !in changed1 + changed2
      ensures inodes2[m] == inodes0[m].(nlink := inodes2[m].nlink) && (Live(inodes2[m]) <==> Live(inodes0[m]))
      ensures Live(inodes0[m]) ==> Untouched(g, inodes0[m], data0, data2)
    {
      if Live(inodes0[m]) {
        UntouchedRelinked(g, inodes0[m], inodes1[m].nlink, data1, data2);
      }
    }
  }

  // File n took the free blocks in `added`, perhaps gave up some of its own, and changed only
  // blocks that are or were its own: ownership holds again, and no other file changed.
  lemma OwnershipAfter(g: Geometry, used: set<nat>, inodes: seq<IndexNode>, data: seq<Block>, n: nat,
                       used': set<nat>, node': IndexNode, data': seq<Block>)
    requires Ownership(g, used, inodes, data) && n < |inodes| && Live(inodes[n])
    requires DataShape(g, data') && Live(node') && FileOK(g, node', data')
    requires forall k: nat :: k < |data| && k in used && !Owns(g, inodes[n], data, k) ==> data'[k] == data[k]
    requires forall d: nat :: d in used' <==> (d in used && !Owns(g, inodes[n], data, d)) || Owns(g, node', data', d)
    requires forall d: nat :: Owns(g, node', data', d) ==> Owns(g, inodes[n], data, d) || d !in used
    ensures Ownership(g, used', inodes[n := node'], data')
    ensures OthersKept(g, inodes, data, inodes[n := node'], data', n)
  {
    var inodes' := inodes[n := node'];
    forall m | 0 <= m < |inodes| && m != n && Live(inodes[m])
      ensures FileOK(g, inodes[m], data')
      ensures forall d :: Owns(g, inodes[m], data', d) <==> Owns(g, inodes[m], data, d)
      ensures Untouched(g, inodes[m], data, data')
    {
      SameOwnedSameFile(g, inodes[m], data, data');
    }
    assert FilesOK(g, inodes', data');
    OwnedIsUsed(g, used, inodes, data, n, used', node', data');
  }

  lemma OwnedIsUsed(g: Geometry, used: set<nat>, inodes: seq<IndexNode>, data: seq<Block>, n: nat,
                    used': set<nat>, node': IndexNode, data': seq<Block>)
    requires Ownership(g, used, inodes, data) && n < |inodes| && Live(inodes[n])
    requires DataShape(g, data') && Live(node') && FileOK(g, node', data')
    requires forall m :: 0 <= m < |inodes| && m != n && Live(inodes[m]) ==>
               FileOK(g, inodes[m], data') && forall d :: Owns(g, inodes[m], data', d) <==> Owns(g, inodes[m], data, d)
    requires forall d: nat :: d in used' <==> (d in used && !Owns(g, inodes[n], data, d)) || Owns(g, node', data', d)
    requires forall d: nat :: Owns(g, node', data', d) ==> Owns(g, inodes[n], data, d) || d !in used
    ensures Ownership(g, used', inodes[n := node'], data')
  {
    var inodes' := inodes[n := node'];
    forall d | d in used'
      ensures exists m :: 0 <= m < |inodes'| && Live(inodes'[m]) && Owns(g, inodes'[m], data', d)
    {
      if Owns(g, node', data', d) {
        assert Owns(g, inodes'[n], data', d);
      } else {
        var m :| 0 <= m < |inodes| && Live(inodes[m]) && Owns(g, inodes[m], data, d);
        assert Owns(g, inodes'[m], data', d);
      }
    }
    forall m, d: nat | 0 <= m < |inodes| && m != n && Live(inodes[m]) && Owns(g, inodes[m], data, d)
      ensures d in used && d in used' && !Owns(g, node', data', d)
    {
      assert !Owns(g, inodes[n], data, d);
    }
    forall m, d | 0 <= m < |inodes| && m != n && Live(inodes[m]) && Owns(g, inodes[m], data, d)
      ensures d >= 0
    {
      OwnedInData(g, inodes[m], data, d);
    }
  }

  lemma OwnedInData(g: Geometry, node: IndexNode, data: seq<Block>, d: int)
    requires DataShape(g, data) && FileOK(g, node, data) && Owns(g, node, data, d)
    ensures InData(g, d)
  {
  }
}
