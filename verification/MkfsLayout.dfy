/** The layout mkfs chooses: one superblock, then the free list, the inodes and the data. */
module MkfsLayout {

  const INODE_SIZE: nat := 64

  function CeilDiv(d: nat, n: nat): nat
    requires n >= 1
  {
    (d + n - 1) / n
  }

  // The blocks a file system with d data blocks needs.
  function Total(d: nat, blockSize: nat): nat
    requires blockSize >= INODE_SIZE
  {
    1 + CeilDiv(d, 8 * blockSize) + CeilDiv(d, blockSize / INODE_SIZE) + d
  }

  // CeilDiv is the least number of groups of n that hold d things.
  lemma CeilDivHolds(d: nat, n: nat)
    requires n >= 1
    ensures CeilDiv(d, n) * n >= d
    ensures forall c: nat :: c * n >= d ==> c >= CeilDiv(d, n)
  {
    var q, r := (d + n - 1) / n, (d + n - 1) % n;
    assert d + n - 1 == q * n + r;
    forall c: nat
      ensures c < q ==> c * n < d
    {
      if c < q {
        assert c * n <= (q - 1) * n;
      }
    }
  }

  lemma CeilDivZero(n: nat)
    requires n >= 1
    ensures CeilDiv(0, n) == 0
  {
  }

  lemma CeilDivMonotone(d: nat, d': nat, n: nat)
    requires n >= 1 && d <= d'
    ensures CeilDiv(d, n) <= CeilDiv(d', n)
  {
    CeilDivHolds(d, n);
    CeilDivHolds(d', n);
  }

  lemma TotalGrows(d: nat, d': nat, blockSize: nat)
    requires blockSize >= INODE_SIZE && d < d'
    ensures Total(d, blockSize) < Total(d', blockSize)
  {
    CeilDivMonotone(d, d', 8 * blockSize);
    CeilDivMonotone(d, d', blockSize / INODE_SIZE);
  }

  lemma NoDataFits(blockSize: nat)
    requires blockSize >= INODE_SIZE
    ensures Total(0, blockSize) == 1
  {
    CeilDivZero(8 * blockSize);
    CeilDivZero(blockSize / INODE_SIZE);
    hide CeilDiv;
  }

  // The greatest number of data blocks that fits.
  ghost predicate Optimal(d: nat, blockSize: nat, blocks: nat)
    requires blockSize >= INODE_SIZE
  {
    && Total(d, blockSize) <= blocks
    && forall d': nat :: d < d' ==> Total(d', blockSize) > blocks
  }

  lemma OptimalIfNextTooBig(d: nat, blockSize: nat, blocks: nat)
    requires blockSize >= INODE_SIZE
    requires Total(d, blockSize) <= blocks < Total(d + 1, blockSize)
    ensures Optimal(d, blockSize, blocks)
  {
    forall d': nat | d < d'
      ensures Total(d', blockSize) > blocks
    {
      if d + 1 < d' {
        TotalGrows(d + 1, d', blockSize);
      }
    }
  }

  method ChooseLayout(blockSize: nat, blocks: nat)
    returns (freeListBlocks: nat, inodeBlocks: nat, dataBlocks: nat)
    requires blocks >= 1 && blockSize >= INODE_SIZE
    ensures Optimal(dataBlocks, blockSize, blocks)
    ensures 1 + freeListBlocks + inodeBlocks + dataBlocks == blocks
    ensures freeListBlocks == CeilDiv(dataBlocks, 8 * blockSize)
    ensures freeListBlocks * (8 * blockSize) >= dataBlocks
    ensures inodeBlocks >= CeilDiv(dataBlocks, blockSize / INODE_SIZE)
    ensures inodeBlocks * (blockSize / INODE_SIZE) >= dataBlocks
  {
    hide CeilDiv;
    var lo, hi: int := 0, blocks;
    var blockTotal := 0;
    dataBlocks := 0;
    NoDataFits(blockSize);
    while lo <= hi
      invariant 0 <= lo <= hi + 1 && hi <= blocks
      invariant lo > 0 ==> Total(lo - 1, blockSize) < blocks
      invariant hi < blocks ==> Total(hi + 1, blockSize) > blocks
      invariant hi == blocks ==> lo <= hi
      invariant lo > hi ==> blockTotal == Total(dataBlocks, blockSize)
      invariant lo > hi ==>
                  (dataBlocks == lo - 1 && blockTotal < blocks) || (dataBlocks == hi + 1 && blockTotal > blocks)
      decreases hi - lo + 1
    {
      dataBlocks := (lo + hi + 1) / 2;
      freeListBlocks := CeilDiv(dataBlocks, 8 * blockSize);
      inodeBlocks := CeilDiv(dataBlocks, blockSize / INODE_SIZE);
      blockTotal := 1 + freeListBlocks + inodeBlocks + dataBlocks;
      if blockTotal < blocks {
        lo := dataBlocks + 1;
      } else if blockTotal > blocks {
        hi := dataBlocks - 1;
      } else {
        break;
      }
    }
    if blockTotal == blocks {
      TotalGrows(dataBlocks, dataBlocks + 1, blockSize);
    }
    // The last block may not pay for the free list or inode block it needs.
    if blockTotal > blocks {
      dataBlocks := dataBlocks - 1;
    }
    OptimalIfNextTooBig(dataBlocks, blockSize, blocks);
    CeilDivHolds(dataBlocks, 8 * blockSize);
    CeilDivHolds(dataBlocks, blockSize / INODE_SIZE);
    freeListBlocks := CeilDiv(dataBlocks, 8 * blockSize);
    inodeBlocks := blocks - 1 - freeListBlocks - dataBlocks;
    EnoughInodes(dataBlocks, inodeBlocks, blockSize / INODE_SIZE);
  }

  lemma EnoughInodes(d: nat, groups: nat, n: nat)
    requires n >= 1 && groups >= CeilDiv(d, n)
    ensures groups * n >= d
  {
  }
}
