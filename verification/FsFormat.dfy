/** What the bytes on the disk are, in plain numbers: where each thing lies, and which byte holds what. */
module FsFormat {
  import opened FsCodec
  import opened FsGeometry
  import opened FsFile
  import opened DirectoryEntries

  // A directory entry: the number, high byte first, then the name and a zero.
  lemma EntryBytes(e: Entry)
    ensures var b, x := EncodeEntry(e), Unsigned(e.ino, 65536);
            && |b| == |e.name| + 3 && b[0] == x / 256 && b[1] == x % 256 && b[|e.name| + 2] == 0
            && forall i :: 0 <= i < |e.name| ==> b[2 + i] == e.name[i]
  {
  }

  // An index node: mode, links, owner, group and size, high bytes first, then eleven pointers of three bytes.
  lemma NodeBytes(node: IndexNode)
    requires node.Storable()
    ensures var b := EncodeNode(node);
            && |b| == 45
            && Word(b[0], b[1]) == Unsigned(node.mode, 65536) && Word(b[2], b[3]) == Unsigned(node.nlink, 65536)
            && Word(b[4], b[5]) == Unsigned(node.uid, 65536) && Word(b[6], b[7]) == Unsigned(node.gid, 65536)
            && Word(b[8], b[9]) * 65536 + Word(b[10], b[11]) == Unsigned(node.size, 0x1_0000_0000)
            && (forall i :: 0 <= i < 10 ==>
                  Word(b[12 + 3 * i], b[13 + 3 * i]) * 256 + b[14 + 3 * i] == node.direct[i])
            && Word(b[42], b[43]) * 256 + b[44] == node.indirect
  {
    var b := EncodeNode(node);
    HeaderBytes(node, b);
    forall i | 0 <= i < 10
      ensures Word(b[12 + 3 * i], b[13 + 3 * i]) * 256 + b[14 + 3 * i] == node.direct[i]
    {
      var p := EncodePointers(node.direct);
      EncodedPointer(node.direct, i);
      var f := p[3 * i..3 * i + 3];
      assert b[12 + 3 * i] == f[0] && b[13 + 3 * i] == f[1] && b[14 + 3 * i] == f[2];
      ThreeBytes(node.direct[i]);
    }
    ThreeBytes(node.indirect);
    assert b[42..45] == Field3(node.indirect);
    assert b[42..45][0] == b[42] && b[42..45][1] == b[43] && b[42..45][2] == b[44];
  }

  lemma ThreeBytes(x: int)
    requires 0 <= x < 0x100_0000
    ensures Word(Field3(x)[0], Field3(x)[1]) * 256 + Field3(x)[2] == x
  {
    Digits(x);
  }

  // Three digits to the base 256.
  lemma Digits(x: int)
    requires 0 <= x < 0x100_0000
    ensures x / 256 / 256 == x / 65536 < 256
    ensures x == 65536 * (x / 65536) + 256 * (x / 256 % 256) + x % 256
    ensures Low(Shift(Shift(x))) == x / 65536 && Low(Shift(x)) == x / 256 % 256 && Low(x) == x % 256
    ensures Low(Shift(Shift(Shift(x)))) == 0
  {
    var h := x / 256;
    var t := h / 256;
    assert x == 256 * h + x % 256 && h == 256 * t + h % 256;
    assert 0 <= t < 256;
    assert x == 65536 * t + (256 * (h % 256) + x % 256);
  }

  lemma HeaderBytes(node: IndexNode, b: seq<Byte>)
    requires |b| >= 12 && b[..12] == Header(node)
    ensures Word(b[0], b[1]) == Unsigned(node.mode, 65536) && Word(b[2], b[3]) == Unsigned(node.nlink, 65536)
    ensures Word(b[4], b[5]) == Unsigned(node.uid, 65536) && Word(b[6], b[7]) == Unsigned(node.gid, 65536)
    ensures Word(b[8], b[9]) * 65536 + Word(b[10], b[11]) == Unsigned(node.size, 0x1_0000_0000)
  {
    TwoBytes(node.mode);
    TwoBytes(node.nlink);
    TwoBytes(node.uid);
    TwoBytes(node.gid);
    FourBytes(node.size);
    hide Low, Shift, Word;
    var h := b[..12];
    assert h[0] == b[0] && h[1] == b[1] && h[2] == b[2] && h[3] == b[3] && h[4] == b[4] && h[5] == b[5];
    assert h[6] == b[6] && h[7] == b[7] && h[8] == b[8] && h[9] == b[9] && h[10] == b[10] && h[11] == b[11];
  }

  lemma TwoBytes(x: Short)
    ensures Word(Field2(x)[0], Field2(x)[1]) == Unsigned(x, 65536)
  {
    ShortRoundTrip(x);
    hide Low, Shift;
  }

  lemma FourBytes(x: Int)
    ensures Word(Field4(x)[0], Field4(x)[1]) * 65536 + Word(Field4(x)[2], Field4(x)[3])
            == Unsigned(x, 0x1_0000_0000)
  {
    IntRoundTrip(x);
    hide Low, Shift;
  }

  // Two's complement.
  function Unsigned(x: int, limit: int): int {
    if x < 0 then x + limit else x
  }

  function Word(high: Byte, low: Byte): nat {
    256 * high + low
  }

  // A pointer in an indirect block: four bytes at four times the file block number, low byte first.
  lemma PointerBytes(g: Geometry, node: IndexNode, data: seq<Block>, b: nat, a: nat)
    requires DataShape(g, data) && NodeShape(g, node) && HasSlot(g, node, b) && a < 0x100_0000
    ensures 4 * b + 4 <= g.blockSize
    ensures var node', data' := SlotNode(node, b, a), SlotData(g, node, data, b, a);
            if b < 10 then node'.direct[b] == a && data' == data
            else
              && node' == node && 0 <= node.indirect < |data'| == |data|
              && var block := data'[node.indirect];
                 && |block| == g.blockSize
                 && block[4 * b] == a % 256 && block[4 * b + 1] == a / 256 % 256 && block[4 * b + 2] == a / 65536
                 && block[4 * b + 3] == 0
  {
    FourDivides(g.blockSize);
    Digits(a);
    hide Low, Shift;
  }

  // The bit of data block d in the free list: bit d of the list, counted in each byte from the low end.
  lemma BitOfBlock(g: Geometry, disk: Disk, d: nat)
    requires g.Valid() && DiskShape(g, disk) && d < g.ListBits()
    ensures g.freeListBlockOffset + Quot(d, 8 * g.blockSize) < |disk|
    ensures var block, k := disk[g.freeListBlockOffset + Quot(d, 8 * g.blockSize)], Rem(d, 8 * g.blockSize);
            k / 8 < |block| && (Allocated(g, disk, d) <==> block[k / 8] / Power(k % 8) % 2 == 1)
  {
    ListBlockInRange(g, d);
    var block, k := disk[g.freeListBlockOffset + Quot(d, 8 * g.blockSize)], Rem(d, 8 * g.blockSize);
    BitIs(block[k / 8], k % 8);
  }

  function Power(i: nat): (r: nat)
    ensures r >= 1
  {
    if i == 0 then 1 else 2 * Power(i - 1)
  }

  lemma {:induction false} BitIs(b: nat, i: nat)
    ensures Bit(b, i) <==> b / Power(i) % 2 == 1
  {
    if i > 0 {
      BitIs(b / 2, i - 1);
      HalfTwice(b, Power(i - 1));
    }
  }

  lemma HalfTwice(b: nat, p: nat)
    requires p >= 1
    ensures b / 2 / p == b / (2 * p)
  {
    var q := b / 2 / p;
    var r := b / 2 - q * p;
    assert b / 2 == q * p + r;
    var t := b - 2 * (q * p);
    assert b == q * (2 * p) + t;
    assert 0 <= t < 2 * p;
    QuotRemOf(b, 2 * p, q, t);
  }

  // Index node n: 64 bytes at 64 * n from the first block of the nodes.
  lemma PlaceOfNode(g: Geometry, disk: Disk, n: nat)
    requires g.Valid() && DiskShape(g, disk) && n < g.NodeCount()
    ensures g.inodeBlockOffset + Quot(64 * n, g.blockSize) < |disk| && Rem(64 * n, g.blockSize) + 64 <= g.blockSize
    ensures NodeAt(g, disk, n)
            == DecodeNode(disk[g.inodeBlockOffset + Quot(64 * n, g.blockSize)][Rem(64 * n, g.blockSize)..])
  {
    NodeBlockInRange(g, n);
    NodeOffsetIs(g, n);
    BlockOfNode(g, n);
    hide Quot, Rem, DecodeNode;
  }

  lemma BlockOfNode(g: Geometry, n: nat)
    requires g.Valid()
    ensures Quot(64 * n, g.blockSize) == NodeBlock(g, n)
  {
    var k := g.NodesPerBlock();
    var q, r := Quot(n, k), Rem(n, k);
    DivMod(n, k);
    assert g.blockSize == k * 64;
    hide Quot, Rem;
    assert 64 * n == q * g.blockSize + r * 64 by {
      assert (q * k) * 64 == q * (k * 64);
    }
    QuotRemOf(64 * n, g.blockSize, q, r * 64);
  }

  // strcmp: the first byte that differs decides, and a name goes before those it is the front of.
  lemma {:induction false} LessIs(a: Name, b: Name)
    ensures Less(a, b) <==> exists k: nat :: FirstDifference(a, b, k)
  {
    if a == [] || b == [] || a[0] != b[0] {
      forall k: nat
        ensures FirstDifference(a, b, k) ==> k == 0
      {
        DifferenceLater(a, b, k);
      }
      assert FirstDifference(a, b, 0) <==> b != [] && (a == [] || a[0] < b[0]);
    } else {
      LessIs(a[1..], b[1..]);
      forall k: nat
        ensures FirstDifference(a, b, k) <==> k > 0 && FirstDifference(a[1..], b[1..], k - 1)
      {
        DifferenceLater(a, b, k);
      }
      if k: nat :| FirstDifference(a[1..], b[1..], k) {
        assert FirstDifference(a, b, k + 1);
      }
    }
  }

  lemma DifferenceLater(a: Name, b: Name, k: nat)
    ensures k > 0 && FirstDifference(a, b, k) ==>
              a != [] && b != [] && a[0] == b[0] && FirstDifference(a[1..], b[1..], k - 1)
    ensures k > 0 && a != [] && b != [] && a[0] == b[0] && FirstDifference(a[1..], b[1..], k - 1) ==>
              FirstDifference(a, b, k)
  {
    if k > 0 && k <= |a| && k <= |b| {
      assert a[..k] == [a[0]] + a[1..][..k - 1] && b[..k] == [b[0]] + b[1..][..k - 1];
      assert a[..k][1..] == a[1..][..k - 1] && b[..k][1..] == b[1..][..k - 1];
      assert a[..k][0] == a[0] && b[..k][0] == b[0];
    }
  }

  predicate FirstDifference(a: Name, b: Name, k: nat) {
    k <= |a| && k < |b| && a[..k] == b[..k] && (k == |a| || a[k] < b[k])
  }
}
