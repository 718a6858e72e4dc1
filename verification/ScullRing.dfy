/** The item ring inside the scullBuffer device: what one write stores and one read takes. */
module ScullRing {

  const ITEM_SIZE: nat := 512

  type Byte = b: int | 0 <= b < 256
  type Slot = s: seq<Byte> | |s| == ITEM_SIZE witness seq(ITEM_SIZE, _ => 0)
  type Item = s: seq<Byte> | |s| <= ITEM_SIZE

  datatype Ring = Ring(slots: seq<Slot>, sizes: seq<nat>, nextItem: nat, numItems: nat) {
    function Size(): nat { |slots| }

    predicate Valid() {
      && 1 <= |slots| == |sizes|
      && nextItem < |slots| && numItems <= |slots|
      && forall k :: 0 <= k < |sizes| ==> sizes[k] <= ITEM_SIZE
    }
  }

  // The slot i places after nextItem.
  function At(nextItem: nat, i: nat, size: nat): (k: nat)
    requires nextItem < size && i <= size
    ensures k == if nextItem + i < size then nextItem + i else nextItem + i - size
  {
    (nextItem + i) % size
  }

  function ItemIn(r: Ring, k: nat): Item
    requires r.Valid() && k < r.Size()
  {
    r.slots[k][..r.sizes[k]]
  }

  // The messages waiting in the ring, oldest first.
  function Contents(r: Ring): (items: seq<Item>)
    requires r.Valid()
    ensures |items| == r.numItems
    ensures forall i :: 0 <= i < r.numItems ==> items[i] == ItemIn(r, At(r.nextItem, i, r.Size()))
  {
    seq(r.numItems, i requires 0 <= i < r.numItems => ItemIn(r, At(r.nextItem, i, r.Size())))
  }

  function Overwrite(slot: Slot, data: Item): Slot {
    data + slot[|data|..]
  }

  // A user copy that stopped part way: the free slot is scribbled on, nothing is counted.
  function Scribble(r: Ring, junk: Item): Ring
    requires r.Valid()
  {
    var k := At(r.nextItem, r.numItems, r.Size());
    r.(slots := r.slots[k := Overwrite(r.slots[k], junk)])
  }

  function Put(r: Ring, data: Item): Ring
    requires r.Valid()
  {
    var k := At(r.nextItem, r.numItems, r.Size());
    Scribble(r, data).(sizes := r.sizes[k := |data|], numItems := r.numItems + 1)
  }

  function Take(r: Ring): Ring
    requires r.Valid() && r.numItems > 0
  {
    r.(nextItem := At(r.nextItem, 1, r.Size()), numItems := r.numItems - 1)
  }

  // What a read of `count` bytes copies out of an item.
  function Delivered(item: Item, count: nat): Item {
    if |item| < count then item else item[..count]
  }

  // A free slot can be scribbled on without touching any waiting message.
  lemma ScribbleKeepsContents(r: Ring, junk: Item)
    requires r.Valid() && r.numItems < r.Size()
    ensures Scribble(r, junk).Valid() && Contents(Scribble(r, junk)) == Contents(r)
  {
  }

  lemma PutAppends(r: Ring, data: Item)
    requires r.Valid() && r.numItems < r.Size()
    ensures Put(r, data).Valid() && Contents(Put(r, data)) == Contents(r) + [data]
  {
  }

  lemma TakeDropsFirst(r: Ring)
    requires r.Valid() && r.numItems > 0
    ensures Take(r).Valid()
    ensures Contents(r) == [ItemIn(r, r.nextItem)] + Contents(Take(r))
  {
  }

  // A flat buffer cut into n slots.
  function Blocks(buf: seq<Byte>, n: nat): (slots: seq<Slot>)
    requires |buf| == n * ITEM_SIZE
    ensures |slots| == n
    ensures forall k :: 0 <= k < n ==> slots[k] == buf[k * ITEM_SIZE..(k + 1) * ITEM_SIZE]
  {
    seq(n, k requires 0 <= k < n => buf[k * ITEM_SIZE..(k + 1) * ITEM_SIZE])
  }

  lemma BlocksAfterCopy(buf: seq<Byte>, buf': seq<Byte>, n: nat, k: nat, data: Item)
    requires |buf| == |buf'| == n * ITEM_SIZE && k < n
    requires forall j :: 0 <= j < |data| ==> buf'[k * ITEM_SIZE + j] == data[j]
    requires forall b :: 0 <= b < |buf| && !(k * ITEM_SIZE <= b < k * ITEM_SIZE + |data|) ==> buf'[b] == buf[b]
    ensures Blocks(buf', n) == Blocks(buf, n)[k := Overwrite(Blocks(buf, n)[k], data)]
  {
    var before, after := Blocks(buf, n), Blocks(buf', n);
    forall m | 0 <= m < n
      ensures after[m] == before[k := Overwrite(before[k], data)][m]
    {
      forall j | 0 <= j < ITEM_SIZE
        ensures after[m][j] == before[k := Overwrite(before[k], data)][m][j]
      {
        assert after[m][j] == buf'[m * ITEM_SIZE + j];
        assert before[m][j] == buf[m * ITEM_SIZE + j];
      }
    }
  }

  // The device memory: one flat buffer, item k at bytes k * ITEM_SIZE and up.
  class Device {
    const scullSize: nat
    const bufferPtr: array<Byte>
    const itemSizePtr: array<nat>
    var nextItem: nat
    var numItems: nat

    ghost predicate Valid()
      reads this, itemSizePtr
    {
      && bufferPtr.Length == scullSize * ITEM_SIZE
      && itemSizePtr.Length == scullSize
      && 1 <= scullSize && nextItem < scullSize && numItems <= scullSize
      && (forall k :: 0 <= k < scullSize ==> itemSizePtr[k] <= ITEM_SIZE)
      && bufferPtr as object != itemSizePtr
    }

    ghost function View(): (r: Ring)
      requires Valid()
      reads this, itemSizePtr, bufferPtr
      ensures r.Valid()
    {
      Ring(Blocks(bufferPtr[..], scullSize), itemSizePtr[..], nextItem, numItems)
    }

    constructor (size: nat)
      requires 1 <= size
      ensures Valid() && scullSize == size && View().numItems == 0
    {
      scullSize := size;
      bufferPtr := new Byte[size * ITEM_SIZE](_ => 0);
      itemSizePtr := new nat[size](_ => 0);
      nextItem, numItems := 0, 0;
    }

    // copy_from_user into slot k: all of data, or as much of it as went through before a fault.
    method CopyIn(k: nat, data: Item)
      requires Valid() && k < scullSize
      modifies bufferPtr
      ensures Valid()
      ensures View() == old(View()).(slots := old(View()).slots[k := Overwrite(old(View()).slots[k], data)])
    {
      var j := 0;
      while j < |data|
        invariant 0 <= j <= |data|
        invariant Valid()
        invariant forall i :: 0 <= i < j ==> bufferPtr[k * ITEM_SIZE + i] == data[i]
        invariant forall b :: 0 <= b < bufferPtr.Length && !(k * ITEM_SIZE <= b < k * ITEM_SIZE + j) ==>
                    bufferPtr[b] == old(bufferPtr[b])
      {
        bufferPtr[k * ITEM_SIZE + j] := data[j];
        j := j + 1;
      }
      BlocksAfterCopy(old(bufferPtr[..]), bufferPtr[..], scullSize, k, data);
    }

    // The critical section of scullBuffer_write once the buffer is known not to be full.
    method StoreItem(data: Item, copied: bool) returns (countWritten: int)
      requires Valid() && numItems < scullSize
      modifies this, bufferPtr, itemSizePtr
      ensures Valid()
      ensures copied ==> View() == Put(old(View()), data) && countWritten == |data|
      ensures !copied ==> View() == Scribble(old(View()), data) && countWritten == EFAULT
    {
      var nextSlot := At(nextItem, numItems, scullSize);
      CopyIn(nextSlot, data);
      if !copied {
        return EFAULT;
      }
      numItems := numItems + 1;
      itemSizePtr[nextSlot] := |data|;
      countWritten := |data|;
      assert itemSizePtr[..] == old(itemSizePtr[..])[nextSlot := |data|];
    }

    // The critical section of scullBuffer_read once the buffer is known not to be empty.
    method FetchItem(count: nat, copied: bool) returns (bytes: Item, countRead: int)
      requires Valid() && numItems > 0
      modifies this
      ensures Valid()
      ensures var item := ItemIn(old(View()), old(nextItem));
              && (copied ==> View() == Take(old(View())) && bytes == Delivered(item, count) && countRead == |item|)
              && (!copied ==> View() == old(View()) && countRead == EFAULT)
    {
      var nextItemSize := itemSizePtr[nextItem];
      var wanted := if nextItemSize < count then nextItemSize else count;
      var start := nextItem * ITEM_SIZE;
      bytes := bufferPtr[start..start + wanted];
      assert bytes == View().slots[nextItem][..wanted];
      if !copied {
        return bytes, EFAULT;
      }
      nextItem := At(nextItem, 1, scullSize);
      numItems := numItems - 1;
      countRead := nextItemSize;
    }
  }

  const EFAULT: int := -14
}
