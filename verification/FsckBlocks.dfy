/** The blocks fsck finds in a file: getBlocks goes by the size, so a pointer beyond it is not seen. */
module FsckBlocks {
  import opened FsCodec
  import opened FsGeometry
  import opened FsFile
  import opened FsVolume
  import opened FsTruncate
  import FsDescriptor
  import FsKernel

  // The pointers in use among the first k slots.
  function Pointers(g: Geometry, node: IndexNode, data: seq<Block>, k: nat): seq<int>
    requires DataShape(g, data) && NodeShape(g, node) && k <= Slots(g)
  {
    if k == 0 then []
    else
      Pointers(g, node, data, k - 1)
      + if Address(g, node, data, k - 1) != NOT_A_BLOCK then [Address(g, node, data, k - 1)] else []
  }

  function Indirect(node: IndexNode): seq<int> {
    if node.indirect != NOT_A_BLOCK then [node.indirect] else []
  }

  function BlockList(g: Geometry, node: IndexNode, data: seq<Block>): seq<int>
    requires DataShape(g, data) && NodeShape(g, node) && node.size >= 0 && FsKernel.Fits(g, node.size)
  {
    SpanFits(g, node.size);
    Pointers(g, node, data, Span(g, node.size)) + Indirect(node)
  }

  // IndexNode::getBlocks
  method GetBlocks(fs: FileSystem, node: IndexNode) returns (s: seq<int>)
    requires fs.Valid() && DataShape(fs.g, fs.data) && NodeShape(fs.g, node) && node.size >= 0
    requires FsKernel.Fits(fs.g, node.size)
    ensures s == BlockList(fs.g, node, fs.data)
  {
    SpanFits(fs.g, node.size);
    var blocks := Span(fs.g, node.size);
    hide FileSystem.Valid, Span, Address, DataShape, NodeShape, FsKernel.Fits;
    s := [];
    var i := 0;
    while i < blocks
      invariant 0 <= i <= blocks && s == Pointers(fs.g, node, fs.data, i)
    {
      var addr := FsDescriptor.GetBlockAddress(fs, node, i);
      if addr != NOT_A_BLOCK {
        s := s + [addr];
      }
      i := i + 1;
    }
    if node.indirect != NOT_A_BLOCK {
      s := s + [node.indirect];
    }
  }

  lemma {:induction false} PointersAre(g: Geometry, node: IndexNode, data: seq<Block>, k: nat, d: int)
    requires DataShape(g, data) && NodeShape(g, node) && k <= Slots(g)
    ensures d in Pointers(g, node, data, k) <==>
            d != NOT_A_BLOCK && exists b: nat :: b < k && Address(g, node, data, b) == d
  {
    if k > 0 {
      PointersAre(g, node, data, k - 1, d);
    }
  }

  // Every block in the list is the file's, and one of the file's is not in the list exactly when it
  // is in a slot beyond the size.
  lemma ListedIsOwned(g: Geometry, node: IndexNode, data: seq<Block>, d: int)
    requires DataShape(g, data) && FileOK(g, node, data) && node.size >= 0 && FsKernel.Fits(g, node.size)
    ensures d in BlockList(g, node, data) ==> Owns(g, node, data, d)
    ensures Owns(g, node, data, d) && d !in BlockList(g, node, data) <==>
            d != NOT_A_BLOCK && exists b: nat :: Span(g, node.size) <= b < Slots(g) && Address(g, node, data, b) == d
  {
    SpanFits(g, node.size);
    PointersAre(g, node, data, Span(g, node.size), d);
    hide Span, Address, Pointers;
  }

  // Every listed block is a data block.
  lemma ListedInData(g: Geometry, node: IndexNode, data: seq<Block>, d: int)
    requires DataShape(g, data) && NodeShape(g, node) && node.size >= 0 && FsKernel.Fits(g, node.size)
    requires FsDescriptor.Leads(g, node, data) && d in BlockList(g, node, data)
    ensures InData(g, d)
  {
    SpanFits(g, node.size);
    PointersAre(g, node, data, Span(g, node.size), d);
    hide Span, Address, Pointers;
  }

  // No file has a pointer beyond its size.
  ghost predicate AllCovered(g: Geometry, inodes: seq<IndexNode>, data: seq<Block>) {
    && DataShape(g, data)
    && forall n: nat :: n < |inodes| && Live(inodes[n]) ==>
         NodeShape(g, inodes[n]) && inodes[n].size >= 0 && Covered(g, inodes[n], data)
  }
}
