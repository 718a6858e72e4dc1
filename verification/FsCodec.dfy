/** Bytes on the simulated disk: bitmap blocks and 64-byte index nodes. */
module FsCodec {

  type Byte = b: int | 0 <= b < 256
  type Block = seq<Byte>

  // ----- BitBlock -----

  // Binary digit i: b & (1 << i) is not zero.
  predicate Bit(b: nat, i: nat) {
    if i == 0 then b % 2 == 1 else Bit(b / 2, i - 1)
  }

  // b | (1 << i), or b & ~(1 << i).
  function WithBit(b: nat, i: nat, on: bool): nat {
    if i == 0 then b - b % 2 + (if on then 1 else 0)
    else 2 * WithBit(b / 2, i - 1, on) + b % 2
  }

  lemma {:induction false} WithBitAt(b: nat, i: nat, on: bool, j: nat)
    ensures Bit(WithBit(b, i, on), j) == if j == i then on else Bit(b, j)
    decreases i
  {
    if i > 0 && j > 0 {
      WithBitAt(b / 2, i - 1, on, j - 1);
    }
  }

  function Pow2(i: nat): nat {
    if i == 0 then 1 else 2 * Pow2(i - 1)
  }

  lemma HalfFits(b: nat, w: nat, m: nat)
    requires b < 2 * m
    ensures b / 2 < m
    ensures w < m ==> 2 * w + b % 2 < 2 * m
    ensures b - b % 2 + 1 < 2 * m
  {
  }

  lemma {:induction false} WithBitFits(b: nat, i: nat, on: bool, n: nat)
    requires i < n && b < Pow2(n)
    ensures WithBit(b, i, on) < Pow2(n)
    decreases i
  {
    assert Pow2(n) == 2 * Pow2(n - 1);
    if i > 0 {
      HalfFits(b, WithBit(b / 2, i - 1, on), Pow2(n - 1));
      WithBitFits(b / 2, i - 1, on, n - 1);
    } else {
      HalfFits(b, 0, Pow2(n - 1));
    }
  }

  function ByteWithBit(b: Byte, i: nat, on: bool): (r: Byte)
    requires i < 8
    ensures r == WithBit(b, i, on)
  {
    assert Pow2(8) == 256 by {
      assert Pow2(4) == 16;
    }
    WithBitFits(b, i, on, 8);
    WithBit(b, i, on)
  }

  predicate BlockBit(block: Block, k: nat)
    requires k < 8 * |block|
  {
    Bit(block[k / 8], k % 8)
  }

  function SetBlockBit(block: Block, k: nat, on: bool): (r: Block)
    requires k < 8 * |block|
    ensures |r| == |block|
  {
    block[k / 8 := ByteWithBit(block[k / 8], k % 8, on)]
  }

  lemma BlockBitAt(block: Block, k: nat, on: bool, j: nat)
    requires k < 8 * |block| && j < 8 * |block|
    ensures BlockBit(SetBlockBit(block, k, on), j) == if j == k then on else BlockBit(block, j)
  {
    if k / 8 == j / 8 {
      WithBitAt(block[k / 8], k % 8, on, j % 8);
    }
  }

  // ----- big-endian fields -----

  const NOT_A_BLOCK: int := 0x00FF_FFFF
  const INDEX_NODE_SIZE: nat := 64
  const MAX_DIRECT_BLOCKS: nat := 10

  type Short = x: int | -0x8000 <= x < 0x8000
  type Int = x: int | -0x8000_0000 <= x < 0x8000_0000

  // (unsigned char) x, and x >> 8 in two's complement
  function Low(x: int): Byte { x % 256 }
  function Shift(x: int): int { x / 256 }

  function Field2(x: int): seq<Byte> { [Low(Shift(x)), Low(x)] }
  function Field3(x: int): seq<Byte> { [Low(Shift(Shift(x))), Low(Shift(x)), Low(x)] }
  function Field4(x: int): seq<Byte> { [Low(Shift(Shift(Shift(x)))), Low(Shift(Shift(x))), Low(Shift(x)), Low(x)] }

  // (short)(b1 << 8 | b0)
  function Short2(b1: Byte, b0: Byte): Short {
    var v := b1 * 256 + b0;
    if v >= 0x8000 then v - 0x1_0000 else v
  }

  // b2 << 16 | b1 << 8 | b0: always a number of 24 bits
  function Pointer3(b2: Byte, b1: Byte, b0: Byte): nat {
    (b2 * 256 + b1) * 256 + b0
  }

  // b3 << 24 | b2 << 16 | b1 << 8 | b0
  function Int4(b3: Byte, b2: Byte, b1: Byte, b0: Byte): Int {
    var v := ((b3 * 256 + b2) * 256 + b1) * 256 + b0;
    if v >= 0x8000_0000 then v - 0x1_0000_0000 else v
  }

  lemma ShortRoundTrip(x: Short)
    ensures Short2(Field2(x)[0], Field2(x)[1]) == x
  {
  }

  lemma PointerRoundTrip(x: int)
    ensures Pointer3(Field3(x)[0], Field3(x)[1], Field3(x)[2]) == x % 0x100_0000
  {
  }

  lemma IntRoundTrip(x: Int)
    ensures Int4(Field4(x)[0], Field4(x)[1], Field4(x)[2], Field4(x)[3]) == x
  {
  }

  // ----- IndexNode -----

  datatype IndexNode = IndexNode(mode: Short, nlink: Short, uid: Short, gid: Short, size: Int,
                                 direct: seq<int>, indirect: int)
  {
    predicate Shaped() {
      |direct| == MAX_DIRECT_BLOCKS
    }

    // The block pointers fit the 24 bits the disk gives them.
    predicate Storable() {
      && Shaped()
      && (forall i :: 0 <= i < |direct| ==> 0 <= direct[i] <= NOT_A_BLOCK)
      && 0 <= indirect <= NOT_A_BLOCK
    }
  }

  function EncodePointers(direct: seq<int>): (r: seq<Byte>)
    ensures |r| == 3 * |direct|
  {
    if direct == [] then []
    else EncodePointers(direct[..|direct| - 1]) + Field3(direct[|direct| - 1])
  }

  lemma {:induction false} EncodedPointer(direct: seq<int>, i: nat)
    requires i < |direct|
    ensures EncodePointers(direct)[3 * i..3 * i + 3] == Field3(direct[i])
    decreases |direct|
  {
    var n := |direct| - 1;
    var before := EncodePointers(direct[..n]);
    if i < n {
      EncodedPointer(direct[..n], i);
      assert EncodePointers(direct)[3 * i..3 * i + 3] == before[3 * i..3 * i + 3];
    } else {
      assert EncodePointers(direct)[3 * i..3 * i + 3] == Field3(direct[n]);
    }
  }

  function Header(node: IndexNode): (r: seq<Byte>)
    ensures |r| == 12
  {
    Field2(node.mode) + Field2(node.nlink) + Field2(node.uid) + Field2(node.gid) + Field4(node.size)
  }

  // The 45 bytes IndexNode::write stores; the rest of the 64 are left alone.
  function EncodeNode(node: IndexNode): (r: seq<Byte>)
    requires node.Shaped()
    ensures |r| == 45
  {
    Header(node) + EncodePointers(node.direct) + Field3(node.indirect)
  }

  function DecodePointers(b: seq<Byte>): (direct: seq<int>)
    requires |b| >= 30
    ensures |direct| == MAX_DIRECT_BLOCKS
    ensures forall i :: 0 <= i < MAX_DIRECT_BLOCKS ==>
              direct[i] == Pointer3(b[3 * i], b[3 * i + 1], b[3 * i + 2])
  {
    seq(MAX_DIRECT_BLOCKS, i requires 0 <= i < MAX_DIRECT_BLOCKS => Pointer3(b[3 * i], b[3 * i + 1], b[3 * i + 2]))
  }

  function DecodeNode(b: seq<Byte>): (node: IndexNode)
    requires |b| >= 45
    ensures node.Storable()
  {
    IndexNode(Short2(b[0], b[1]), Short2(b[2], b[3]), Short2(b[4], b[5]), Short2(b[6], b[7]),
              Int4(b[8], b[9], b[10], b[11]), DecodePointers(b[12..42]), Pointer3(b[42], b[43], b[44]))
  }

  // Block pointers as the disk keeps them.
  function CutPointers(direct: seq<int>): (r: seq<int>)
    ensures |r| == |direct|
    ensures forall i :: 0 <= i < |direct| ==> r[i] == direct[i] % 0x100_0000
  {
    seq(|direct|, i requires 0 <= i < |direct| => direct[i] % 0x100_0000)
  }

  lemma PointersRoundTrip(direct: seq<int>)
    requires |direct| == MAX_DIRECT_BLOCKS
    ensures DecodePointers(EncodePointers(direct)) == CutPointers(direct)
  {
    var b := EncodePointers(direct);
    forall i | 0 <= i < MAX_DIRECT_BLOCKS
      ensures DecodePointers(b)[i] == direct[i] % 0x100_0000
    {
      EncodedPointer(direct, i);
      PointerRoundTrip(direct[i]);
      var f := b[3 * i..3 * i + 3];
      assert f[0] == b[3 * i] && f[1] == b[3 * i + 1] && f[2] == b[3 * i + 2];
    }
  }

  lemma HeaderRoundTrip(node: IndexNode, b: seq<Byte>)
    requires |b| >= 12 && b[..12] == Header(node)
    ensures Short2(b[0], b[1]) == node.mode && Short2(b[2], b[3]) == node.nlink
    ensures Short2(b[4], b[5]) == node.uid && Short2(b[6], b[7]) == node.gid
    ensures Int4(b[8], b[9], b[10], b[11]) == node.size
  {
    ShortRoundTrip(node.mode);
    ShortRoundTrip(node.nlink);
    ShortRoundTrip(node.uid);
    ShortRoundTrip(node.gid);
    IntRoundTrip(node.size);
    hide Low, Shift, Short2, Int4;
    var h := b[..12];
    assert h[0] == b[0] && h[1] == b[1] && h[2] == b[2] && h[3] == b[3] && h[4] == b[4] && h[5] == b[5];
    assert h[6] == b[6] && h[7] == b[7] && h[8] == b[8] && h[9] == b[9] && h[10] == b[10] && h[11] == b[11];
  }

  // A node as the disk keeps it.
  function Cut(node: IndexNode): (r: IndexNode)
    requires node.Shaped()
    ensures r.Storable()
  {
    node.(direct := CutPointers(node.direct), indirect := node.indirect % 0x100_0000)
  }

  // What comes back is what was written with each block pointer cut to 24 bits, so exactly the
  // nodes whose pointers fit survive.
  lemma NodeRoundTrip(node: IndexNode, rest: seq<Byte>)
    requires node.Shaped()
    ensures DecodeNode(EncodeNode(node) + rest) == Cut(node)
    ensures DecodeNode(EncodeNode(node) + rest) == node <==> node.Storable()
  {
    var e := EncodeNode(node);
    var b := e + rest;
    assert b[..12] == Header(node);
    HeaderRoundTrip(node, b);
    assert b[12..42] == EncodePointers(node.direct);
    PointersRoundTrip(node.direct);
    PointerRoundTrip(node.indirect);
    hide Low, Shift, Short2, Int4, Pointer3, Header, EncodePointers, DecodePointers;
    assert b[42] == Field3(node.indirect)[0] && b[43] == Field3(node.indirect)[1] && b[44] == Field3(node.indirect)[2];
    StorableIsUncut(node);
  }

  lemma StorableIsUncut(node: IndexNode)
    requires node.Shaped()
    ensures node.Storable() <==>
            CutPointers(node.direct) == node.direct && node.indirect % 0x100_0000 == node.indirect
  {
  }

  // One field or name into a buffer, byte by byte.
  method Store(field: seq<Byte>, buffer: array<Byte>, offset: nat)
    requires offset + |field| <= buffer.Length
    modifies buffer
    ensures buffer[..offset + |field|] == old(buffer[..offset]) + field
    ensures buffer[offset + |field|..] == old(buffer[offset + |field|..])
  {
    var i := 0;
    while i < |field|
      invariant 0 <= i <= |field|
      invariant buffer[..offset + i] == old(buffer[..offset]) + field[..i]
      invariant buffer[offset + i..] == old(buffer[offset + i..])
    {
      buffer[offset + i] := field[i];
      i := i + 1;
    }
  }
}
