/** A directory written as a file: Kernel::write of sixteen bytes at the end of the listing. */
module FsCells {
  import opened FsCodec
  import opened FsGeometry
  import opened FsFile
  import opened FsDescriptor
  import opened DirectoryEntries
  import opened FsDirectory
  import K = FsKernel

  // mkdir's buffer: sixteen zero bytes with the entry in them.
  function CellBytes(e: Entry): (r: seq<Byte>)
    requires e.Fits()
    ensures |r| == DIRECTORY_ENTRY_SIZE
  {
    Patch(Zeros(DIRECTORY_ENTRY_SIZE), 0, EncodeEntry(e))
  }

  lemma PatchNothing(block: Block, at: nat)
    requires at <= |block|
    ensures Patch(block, at, []) == block
  {
  }

  lemma PatchOneMore(block: Block, at: nat, bytes: seq<Byte>, v: Byte)
    requires at + |bytes| < |block|
    ensures Patch(block, at, bytes + [v]) == Patch(block, at, bytes)[at + |bytes| := v]
  {
  }

  lemma SameBlock(at: nat, n: nat, k: nat)
    requires n >= 1 && Rem(at, n) + k < n
    ensures Quot(at + k, n) == Quot(at, n) && Rem(at + k, n) == Rem(at, n) + k
  {
    DivMod(at, n);
    QuotRemOf(at + k, n, Quot(at, n), Rem(at, n) + k);
  }

  lemma InBlock(at: nat, n: nat, len: nat, count: nat)
    requires n >= 1 && Quot(at, n) < count && Rem(at, n) + len <= n
    ensures at + len <= count * n
  {
    DivMod(at, n);
    hide Quot, Rem;
    TimesAtLeast(count, Quot(at, n) + 1, n);
  }

  // A splice within one block is a patch of that block.
  lemma {:induction false} SpliceInBlock(c: seq<Block>, n: nat, at: nat, buf: seq<Byte>)
    requires K.Cells(c, n) && Quot(at, n) < |c| && Rem(at, n) + |buf| <= n
    ensures at + |buf| <= |c| * n && |c[Quot(at, n)]| == n
    ensures K.Splice(c, n, at, buf) == c[Quot(at, n) := Patch(c[Quot(at, n)], Rem(at, n), buf)]
    decreases |buf|
  {
    InBlock(at, n, |buf|, |c|);
    var q := Quot(at, n);
    if buf == [] {
      PatchNothing(c[q], Rem(at, n));
    } else {
      var k := |buf| - 1;
      SameBlock(at, n, k);
      SpliceInBlock(c, n, at, buf[..k]);
      assert buf == buf[..k] + [buf[k]];
      PatchOneMore(c[q], Rem(at, n), buf[..k], buf[k]);
      hide Patch, Quot, Rem;
    }
  }

  // The cell decodes to the entry, and other cells are as they were.
  lemma CellRoundTrip(block: Block, at: nat, e: Entry)
    requires at + DIRECTORY_ENTRY_SIZE <= |block| && e.Fits()
    ensures DecodeEntry(Patch(block, at, CellBytes(e)), at) == e
    ensures e.name != [] ==> Patch(block, at, CellBytes(e))[at + 2] != 0
  {
    var zeroed := Patch(block, at, Zeros(DIRECTORY_ENTRY_SIZE));
    assert Patch(block, at, CellBytes(e)) == Patch(zeroed, at, EncodeEntry(e));
    EntryRoundTrip(zeroed, at, e);
    if e.name != [] {
      assert Patch(zeroed, at, EncodeEntry(e))[at + 2] == e.name[0];
    }
  }

  lemma OtherCell(block: Block, at: nat, e: Entry, other: nat)
    requires at + DIRECTORY_ENTRY_SIZE <= |block| && other + DIRECTORY_ENTRY_SIZE <= |block| && e.Fits()
    requires other + DIRECTORY_ENTRY_SIZE <= at || at + DIRECTORY_ENTRY_SIZE <= other
    ensures DecodeEntry(Patch(block, at, CellBytes(e)), other) == DecodeEntry(block, other)
  {
    PatchElsewhere(block, at, CellBytes(e), other);
  }

  lemma CellStored(c: seq<Block>, n: nat, k: nat, e: Entry, j: nat)
    requires K.Cells(c, n) && n % DIRECTORY_ENTRY_SIZE == 0 && n >= DIRECTORY_ENTRY_SIZE && e.Fits()
    requires Quot(DIRECTORY_ENTRY_SIZE * k, n) < |c|
    ensures Rem(DIRECTORY_ENTRY_SIZE * k, n) + DIRECTORY_ENTRY_SIZE <= n
    ensures var q, at := Quot(DIRECTORY_ENTRY_SIZE * k, n), Rem(DIRECTORY_ENTRY_SIZE * k, n);
            EntryOf(c[q := Patch(c[q], at, CellBytes(e))], n, j) == if j == k then e else EntryOf(c, n, j)
  {
    CellFits(n, k);
    CellFits(n, j);
    var q, at := Quot(DIRECTORY_ENTRY_SIZE * k, n), Rem(DIRECTORY_ENTRY_SIZE * k, n);
    hide Patch, DecodeEntry, CellBytes;
    if j == k {
      CellRoundTrip(c[q], at, e);
    } else if Quot(DIRECTORY_ENTRY_SIZE * j, n) == q {
      CellsApart(n, j, k);
      OtherCell(c[q], at, e, Rem(DIRECTORY_ENTRY_SIZE * j, n));
    }
  }

  // The listing after Kernel::write of a cell at its end.
  lemma ListingAppended(c: seq<Block>, n: nat, s: seq<Entry>, e: Entry)
    requires K.Cells(c, n) && n % DIRECTORY_ENTRY_SIZE == 0 && n >= DIRECTORY_ENTRY_SIZE && e.Fits()
    requires Quot(DIRECTORY_ENTRY_SIZE * |s|, n) < |c| && s == Listing(c, n, |s|)
    ensures DIRECTORY_ENTRY_SIZE * |s| + |CellBytes(e)| <= |c| * n
    ensures var c' := K.Splice(c, n, DIRECTORY_ENTRY_SIZE * |s|, CellBytes(e));
            && s + [e] == Listing(c', n, |s| + 1)
            && (e.name != [] ==> c'[Quot(DIRECTORY_ENTRY_SIZE * |s|, n)] != Zeros(n))
  {
    hide *;
    EntrySize();
    var k := |s|;
    CellFits(n, k);
    CellsAre(c, n, Quot(DIRECTORY_ENTRY_SIZE * k, n));
    SpliceInBlock(c, n, DIRECTORY_ENTRY_SIZE * k, CellBytes(e));
    var q, at := Quot(DIRECTORY_ENTRY_SIZE * k, n), Rem(DIRECTORY_ENTRY_SIZE * k, n);
    CellRoundTrip(c[q], at, e);
    ListingStored(c, n, s, e);
    if e.name != [] {
      NotZeros(Patch(c[q], at, CellBytes(e)), at + 2);
    }
  }

  lemma CellsAre(c: seq<Block>, n: nat, q: nat)
    requires K.Cells(c, n) && q < |c|
    ensures n >= 1 && |c[q]| == n
  {
  }

  lemma NotZeros(block: Block, i: nat)
    requires i < |block| && block[i] != 0
    ensures block != Zeros(|block|)
  {
  }

  lemma ListingStored(c: seq<Block>, n: nat, s: seq<Entry>, e: Entry)
    requires K.Cells(c, n) && n % DIRECTORY_ENTRY_SIZE == 0 && n >= DIRECTORY_ENTRY_SIZE && e.Fits()
    requires Quot(DIRECTORY_ENTRY_SIZE * |s|, n) < |c| && s == Listing(c, n, |s|)
    ensures Rem(DIRECTORY_ENTRY_SIZE * |s|, n) + DIRECTORY_ENTRY_SIZE <= n
    ensures var q, at := Quot(DIRECTORY_ENTRY_SIZE * |s|, n), Rem(DIRECTORY_ENTRY_SIZE * |s|, n);
            s + [e] == Listing(c[q := Patch(c[q], at, CellBytes(e))], n, |s| + 1)
  {
    CellFits(n, |s|);
    var q, at := Quot(DIRECTORY_ENTRY_SIZE * |s|, n), Rem(DIRECTORY_ENTRY_SIZE * |s|, n);
    hide Patch, DecodeEntry, CellBytes, Quot, Rem, EntryOf;
    forall j | 0 <= j < |s| + 1
      ensures EntryOf(c[q := Patch(c[q], at, CellBytes(e))], n, j) == (s + [e])[j]
    {
      CellStored(c, n, |s|, e, j);
    }
  }

  // A block that does not read as zeros is there.
  lemma NotZeroInUse(g: Geometry, node: IndexNode, data: seq<Block>, b: nat)
    requires DataShape(g, data) && NodeShape(g, node) && b < Slots(g)
    requires Contents(g, node, data)[b] != Zeros(g.blockSize)
    ensures InUse(g, node, data, b)
  {
  }

  lemma StillNoHoles(g: Geometry, node: IndexNode, data: seq<Block>, node': IndexNode, data': seq<Block>, count: nat)
    requires NoHoles(g, node, data, count) && BlocksStay(g, node, data, node', data')
    requires g.Valid() && InUse(g, node', data', BlockOf(g, count))
    ensures NoHoles(g, node', data', count + 1)
  {
  }

  // The directory after Kernel::write of a cell at its end.
  lemma CellAppended(g: Geometry, node: IndexNode, data: seq<Block>, node': IndexNode, data': seq<Block>,
                     s: seq<Entry>, e: Entry)
    requires Holding(g, node, data, s) && BlocksStay(g, node, data, node', data') && e.Fits() && e.name != []
    requires g.Valid() && K.Fits(g, DIRECTORY_ENTRY_SIZE * (|s| + 1))
    requires var c := Contents(g, node, data);
             && K.Cells(c, g.blockSize) && DIRECTORY_ENTRY_SIZE * |s| + |CellBytes(e)| <= |c| * g.blockSize
             && Contents(g, node', data') == K.Splice(c, g.blockSize, DIRECTORY_ENTRY_SIZE * |s|, CellBytes(e))
    ensures Holding(g, node', data', s + [e]) && InUse(g, node', data', BlockOf(g, |s|))
  {
    CellOf(g, |s|);
    FileIsCells(g, node, data);
    ListingAppended(Contents(g, node, data), g.blockSize, s, e);
    hide Contents, Listing, K.Fits, Address, AllFit, K.Cells, Slots, Quot, Rem, K.Splice, CellBytes, BlocksStay;
    NotZeroInUse(g, node', data', BlockOf(g, |s|));
    StillNoHoles(g, node, data, node', data', |s|);
    hide NoHoles, InUse;
    AllFitAfter(s, |s|, e);
    PutIsUpdate(s, |s|, e);
  }
}
