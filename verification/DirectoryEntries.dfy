/** Directory entries: their 16 bytes on disk, their strcmp order, and what creat and unlink should
    do to a sorted list of them. */
module DirectoryEntries {
  import opened FsCodec

  const MAX_FILENAME_LENGTH: nat := 14
  const DIRECTORY_ENTRY_SIZE: nat := 16

  type Name = seq<Byte>

  datatype Entry = Entry(ino: Short, name: Name)
  {
    // A C string that fits its cell with its terminator.
    predicate Fits() {
      |name| < MAX_FILENAME_LENGTH && 0 !in name
    }
  }

  // ----- the codec -----

  // DirectoryEntry::write stores the number, the name and one zero, and leaves the rest of the cell.
  function EncodeEntry(e: Entry): (r: seq<Byte>)
    ensures |r| == |e.name| + 3
  {
    Field2(e.ino) + e.name + [0]
  }

  function Patch(block: Block, at: nat, bytes: seq<Byte>): (r: Block)
    requires at + |bytes| <= |block|
    ensures |r| == |block|
  {
    block[..at] + bytes + block[at + |bytes|..]
  }

  // The part of a string before its terminator.
  function CString(s: seq<Byte>): (r: Name)
    ensures 0 !in r && |r| <= |s|
  {
    if s == [] || s[0] == 0 then [] else [s[0]] + CString(s[1..])
  }

  lemma {:induction false} CStringIs(s: seq<Byte>, k: nat)
    requires k <= |s| && 0 !in s[..k] && (k == |s| || s[k] == 0)
    ensures CString(s) == s[..k]
  {
    if k > 0 {
      assert s[0] == s[..k][0];
      assert s[..k] == [s[0]] + s[1..][..k - 1];
      CStringIs(s[1..], k - 1);
    }
  }

  // DirectoryEntry::read
  function DecodeEntry(block: Block, at: nat): Entry
    requires at + DIRECTORY_ENTRY_SIZE <= |block|
  {
    Entry(Short2(block[at], block[at + 1]), CString(block[at + 2..at + DIRECTORY_ENTRY_SIZE]))
  }

  // Any entry that fits comes back from its cell, whatever was in the cell before.
  lemma EntryRoundTrip(block: Block, at: nat, e: Entry)
    requires at + DIRECTORY_ENTRY_SIZE <= |block| && e.Fits()
    ensures DecodeEntry(Patch(block, at, EncodeEntry(e)), at) == e
  {
    var r := Patch(block, at, EncodeEntry(e));
    ShortRoundTrip(e.ino);
    assert r[at] == Field2(e.ino)[0] && r[at + 1] == Field2(e.ino)[1];
    var cell, k := r[at + 2..at + DIRECTORY_ENTRY_SIZE], |e.name|;
    assert cell[..k] == e.name && cell[k] == 0;
    CStringIs(cell, k);
  }

  // Writing an entry leaves every byte outside its cell alone exactly when its name is shorter than fourteen
  // characters, or what runs over is there already; for fourteen characters that is a zero byte.
  lemma StaysInCell(block: Block, at: nat, e: Entry)
    requires at + |EncodeEntry(e)| <= |block| && at + DIRECTORY_ENTRY_SIZE <= |block|
    ensures (forall i :: 0 <= i < |block| && !(at <= i < at + DIRECTORY_ENTRY_SIZE) ==>
               Patch(block, at, EncodeEntry(e))[i] == block[i])
            <==> |e.name| < MAX_FILENAME_LENGTH
                 || block[at + DIRECTORY_ENTRY_SIZE..at + 3 + |e.name|] == e.name[MAX_FILENAME_LENGTH..] + [0]
  {
  }

  // The terminator of a fourteen-character name in the next cell: that entry keeps its name, and its number
  // loses the high byte.
  lemma NextNumberCut(block: Block, at: nat, e: Entry)
    requires at + 2 * DIRECTORY_ENTRY_SIZE <= |block| && |e.name| == MAX_FILENAME_LENGTH && 0 !in e.name
    ensures var r, next := Patch(block, at, EncodeEntry(e)), at + DIRECTORY_ENTRY_SIZE;
            && DecodeEntry(r, at) == e
            && DecodeEntry(r, next) == Entry(Short2(0, block[next + 1]), DecodeEntry(block, next).name)
            && (DecodeEntry(r, next) == DecodeEntry(block, next) <==> block[next] == 0)
  {
    var r, next := Patch(block, at, EncodeEntry(e)), at + DIRECTORY_ENTRY_SIZE;
    ShortRoundTrip(e.ino);
    assert r[at] == Field2(e.ino)[0] && r[at + 1] == Field2(e.ino)[1];
    assert r[at + 2..at + DIRECTORY_ENTRY_SIZE] == e.name;
    CStringIs(e.name, MAX_FILENAME_LENGTH);
    assert e.name[..MAX_FILENAME_LENGTH] == e.name;
    assert r[next] == 0 && r[next + 1] == block[next + 1];
    assert r[next + 2..next + DIRECTORY_ENTRY_SIZE] == block[next + 2..next + DIRECTORY_ENTRY_SIZE];
  }

  // In the last cell of a block a name of fourteen characters or more runs over the end of the buffer.
  lemma LastCellOverrun(n: nat, at: nat, e: Entry)
    requires at + DIRECTORY_ENTRY_SIZE == n
    ensures at + |EncodeEntry(e)| <= n <==> |e.name| < MAX_FILENAME_LENGTH
  {
  }

  // A patch of at most one cell leaves the other cells alone.
  lemma PatchElsewhere(block: Block, at: nat, bytes: seq<Byte>, other: nat)
    requires at + DIRECTORY_ENTRY_SIZE <= |block| && other + DIRECTORY_ENTRY_SIZE <= |block|
    requires |bytes| <= DIRECTORY_ENTRY_SIZE
    requires other + DIRECTORY_ENTRY_SIZE <= at || at + DIRECTORY_ENTRY_SIZE <= other
    ensures DecodeEntry(Patch(block, at, bytes), other) == DecodeEntry(block, other)
  {
    var r := Patch(block, at, bytes);
    assert r[other..other + DIRECTORY_ENTRY_SIZE] == block[other..other + DIRECTORY_ENTRY_SIZE];
    assert r[other + 2..other + DIRECTORY_ENTRY_SIZE] == r[other..other + DIRECTORY_ENTRY_SIZE][2..];
    assert block[other + 2..other + DIRECTORY_ENTRY_SIZE] == block[other..other + DIRECTORY_ENTRY_SIZE][2..];
    assert r[other] == r[other..other + DIRECTORY_ENTRY_SIZE][0]
           && r[other + 1] == r[other..other + DIRECTORY_ENTRY_SIZE][1];
    assert block[other] == block[other..other + DIRECTORY_ENTRY_SIZE][0];
    assert block[other + 1] == block[other..other + DIRECTORY_ENTRY_SIZE][1];
  }

  // Another cell reads as before.
  lemma OtherCellKept(block: Block, at: nat, e: Entry, other: nat)
    requires at + DIRECTORY_ENTRY_SIZE <= |block| && other + DIRECTORY_ENTRY_SIZE <= |block| && e.Fits()
    requires other + DIRECTORY_ENTRY_SIZE <= at || at + DIRECTORY_ENTRY_SIZE <= other
    ensures DecodeEntry(Patch(block, at, EncodeEntry(e)), other) == DecodeEntry(block, other)
  {
    PatchElsewhere(block, at, EncodeEntry(e), other);
  }

  // ----- strcmp -----

  // strcmp(a, b) < 0
  predicate Less(a: Name, b: Name) {
    b != [] && (a == [] || a[0] < b[0] || (a[0] == b[0] && Less(a[1..], b[1..])))
  }

  lemma {:induction false} LessIsTotal(a: Name, b: Name)
    ensures Less(a, b) || a == b || Less(b, a)
    ensures !(Less(a, b) && Less(b, a)) && !Less(a, a)
  {
    if a != [] && b != [] {
      LessIsTotal(a[1..], b[1..]);
      LessIsTotal(a[1..], a[1..]);
      assert a == [a[0]] + a[1..] && b == [b[0]] + b[1..];
    } else if a != [] {
      LessIsTotal(a[1..], a[1..]);
    }
  }

  lemma {:induction false} LessIsTransitive(a: Name, b: Name, c: Name)
    requires Less(a, b) && Less(b, c)
    ensures Less(a, c)
  {
    if a != [] && a[0] == b[0] == c[0] {
      LessIsTransitive(a[1..], b[1..], c[1..]);
    }
  }

  // ----- sorted lists -----

  ghost predicate Sorted(s: seq<Entry>) {
    forall i, j :: 0 <= i < j < |s| ==> Less(s[i].name, s[j].name)
  }

  predicate Named(s: seq<Entry>, name: Name) {
    exists i :: 0 <= i < |s| && s[i].name == name
  }

  // Where creat's scan stops: the first entry greater than the name, or the end.
  function Place(s: seq<Entry>, name: Name): (p: nat)
    ensures p <= |s|
    ensures forall i :: 0 <= i < p ==> !Less(name, s[i].name)
    ensures p < |s| ==> Less(name, s[p].name)
  {
    if s == [] || Less(name, s[0].name) then 0 else 1 + Place(s[1..], name)
  }

  // Where unlink's scan stops: the first entry of that name, or the end.
  function Find(s: seq<Entry>, name: Name): (p: nat)
    ensures p <= |s|
    ensures forall i :: 0 <= i < p ==> s[i].name != name
    ensures p < |s| ==> s[p].name == name
  {
    if s == [] || s[0].name == name then 0 else 1 + Find(s[1..], name)
  }

  lemma PlaceIs(s: seq<Entry>, name: Name, p: nat)
    requires p <= |s| && (forall i :: 0 <= i < p ==> !Less(name, s[i].name)) && (p < |s| ==> Less(name, s[p].name))
    ensures Place(s, name) == p
  {
  }

  lemma FindIs(s: seq<Entry>, name: Name, p: nat)
    requires p <= |s| && (forall i :: 0 <= i < p ==> s[i].name != name) && (p < |s| ==> s[p].name == name)
    ensures Find(s, name) == p
  {
  }

  function Inserted(s: seq<Entry>, e: Entry): seq<Entry> {
    var p := Place(s, e.name);
    s[..p] + [e] + s[p..]
  }

  function Removed(s: seq<Entry>, name: Name): seq<Entry>
    requires Named(s, name)
  {
    var p := Find(s, name);
    s[..p] + s[p + 1..]
  }

  lemma InsertedAt(s: seq<Entry>, e: Entry, i: nat)
    requires i <= |s|
    ensures |Inserted(s, e)| == |s| + 1
    ensures var p := Place(s, e.name); Inserted(s, e)[i] == if i < p then s[i] else if i == p then e else s[i - 1]
  {
  }

  lemma RemovedAt(s: seq<Entry>, name: Name, i: nat)
    requires Named(s, name) && i + 1 < |s|
    ensures |Removed(s, name)| == |s| - 1
    ensures Removed(s, name)[i] == if i < Find(s, name) then s[i] else s[i + 1]
  {
  }

  // Around the place of a new name in a sorted directory.
  lemma AroundPlace(s: seq<Entry>, name: Name, i: nat)
    requires Sorted(s) && !Named(s, name) && i < |s|
    ensures if i < Place(s, name) then Less(s[i].name, name) else Less(name, s[i].name)
  {
    var p := Place(s, name);
    LessIsTotal(name, s[i].name);
    if i > p {
      LessIsTransitive(name, s[p].name, s[i].name);
    }
  }

  // A new name goes into a sorted directory so that it stays sorted.
  lemma InsertKeepsSorted(s: seq<Entry>, e: Entry)
    requires Sorted(s) && !Named(s, e.name)
    ensures Sorted(Inserted(s, e))
  {
    var p, r := Place(s, e.name), Inserted(s, e);
    forall i, j | 0 <= i < j < |r|
      ensures Less(r[i].name, r[j].name)
    {
      InsertedAt(s, e, i);
      InsertedAt(s, e, j);
      if i < p {
        AroundPlace(s, e.name, i);
      }
      if j > p {
        AroundPlace(s, e.name, j - 1);
      }
    }
  }

  // It gains exactly that entry.
  lemma InsertAddsOne(s: seq<Entry>, e: Entry)
    ensures multiset(Inserted(s, e)) == multiset(s) + multiset{e}
  {
    var p := Place(s, e.name);
    assert s == s[..p] + s[p..];
  }

  lemma InsertAddsTheName(s: seq<Entry>, e: Entry, other: Name)
    ensures Named(Inserted(s, e), other) <==> other == e.name || Named(s, other)
  {
    var p, r := Place(s, e.name), Inserted(s, e);
    InsertedAt(s, e, p);
    if Named(s, other) {
      var i :| 0 <= i < |s| && s[i].name == other;
      assert r[if i < p then i else i + 1] == s[i];
    }
    if Named(r, other) && other != e.name {
      var i :| 0 <= i < |r| && r[i].name == other;
      assert r[i] == s[if i < p then i else i - 1];
    }
  }

  lemma RemoveKeepsSorted(s: seq<Entry>, name: Name)
    requires Sorted(s) && Named(s, name)
    ensures Sorted(Removed(s, name))
  {
  }

  lemma TakeOut<T>(s: seq<T>, p: nat)
    requires p < |s|
    ensures multiset(s) == multiset(s[..p] + s[p + 1..]) + multiset{s[p]}
  {
    var before, after := s[..p], s[p + 1..];
    assert s == before + ([s[p]] + after);
    assert multiset(s) == multiset(before) + (multiset{s[p]} + multiset(after));
  }

  lemma RemoveTakesOne(s: seq<Entry>, name: Name)
    requires Named(s, name)
    ensures multiset(s) == multiset(Removed(s, name)) + multiset{s[Find(s, name)]}
  {
    TakeOut(s, Find(s, name));
  }

  // A sorted directory holds a name once, so removing it removes that name and no other.
  lemma RemoveTakesTheName(s: seq<Entry>, name: Name, other: Name)
    requires Sorted(s) && Named(s, name)
    ensures Named(Removed(s, name), other) <==> other != name && Named(s, other)
  {
    var p, r := Find(s, name), Removed(s, name);
    if Named(r, other) {
      var i :| 0 <= i < |r| && r[i].name == other;
      RemovedAt(s, name, i);
      LessIsTotal(name, name);
    }
    if other != name && Named(s, other) {
      var i :| 0 <= i < |s| && s[i].name == other;
      RemovedAt(s, name, if i < p then i else i - 1);
    }
  }

  // creat of a new name and then unlink of it gives back the very listing there was.
  lemma UnlinkUndoesCreat(s: seq<Entry>, e: Entry)
    requires !Named(s, e.name)
    ensures Named(Inserted(s, e), e.name) && Removed(Inserted(s, e), e.name) == s
  {
    var p, r := Place(s, e.name), Inserted(s, e);
    assert r[p] == e;
    assert forall i :: 0 <= i < p ==> r[i] == s[i];
    assert Find(r, e.name) == p;
    assert s == s[..p] + s[p..];
  }

  // ----- DirectoryEntry::read and DirectoryEntry::write on a buffer -----

  method ReadEntry(buffer: array<Byte>, offset: nat) returns (e: Entry)
    requires offset + DIRECTORY_ENTRY_SIZE <= buffer.Length
    ensures e == DecodeEntry(buffer[..], offset)
  {
    var ino := Short2(buffer[offset], buffer[offset + 1]);
    var cell: seq<Byte> := [];
    var i := 0;
    while i < MAX_FILENAME_LENGTH
      invariant 0 <= i <= MAX_FILENAME_LENGTH && cell == buffer[offset + 2..offset + 2 + i]
    {
      cell := cell + [buffer[offset + 2 + i]];
      i := i + 1;
    }
    e := Entry(ino, CString(cell));
  }

  method WriteEntry(e: Entry, buffer: array<Byte>, offset: nat)
    requires offset + |EncodeEntry(e)| <= buffer.Length
    modifies buffer
    ensures buffer[..] == Patch(old(buffer[..]), offset, EncodeEntry(e))
  {
    ghost var before := buffer[..];
    Store(Field2(e.ino), buffer, offset);
    ghost var middle := buffer[..];
    Store(e.name, buffer, offset + 2);
    ghost var last := buffer[..];
    Store([0], buffer, offset + 2 + |e.name|);
    StoredInParts(before, middle, last, buffer[..], offset, Field2(e.ino), e.name);
  }

  lemma StoredInParts(b0: seq<Byte>, b1: seq<Byte>, b2: seq<Byte>, b3: seq<Byte>, at: nat, ino: seq<Byte>,
                      name: seq<Byte>)
    requires |b0| == |b1| == |b2| == |b3| && |ino| == 2 && at + 3 + |name| <= |b0|
    requires b1[..at + 2] == b0[..at] + ino && b1[at + 2..] == b0[at + 2..]
    requires b2[..at + 2 + |name|] == b1[..at + 2] + name && b2[at + 2 + |name|..] == b1[at + 2 + |name|..]
    requires b3[..at + 3 + |name|] == b2[..at + 2 + |name|] + [0] && b3[at + 3 + |name|..] == b2[at + 3 + |name|..]
    ensures b3 == Patch(b0, at, ino + name + [0])
  {
    assert b2[at + 3 + |name|..] == b2[at + 2 + |name|..][1..];
    assert b1[at + 2 + |name|..] == b1[at + 2..][|name|..];
    assert b0[at + 3 + |name|..] == b0[at + 2..][|name|..][1..];
    assert b3 == b3[..at + 3 + |name|] + b3[at + 3 + |name|..];
    assert b0[..at] + ino + name + [0] == b0[..at] + (ino + name + [0]);
  }

  // ----- the two shifts -----

  // While creat shifts up: the new entry is in at p, and the entries before j are one place on, but
  // for the last of them, which is in memory.
  function ShiftedUp(s: seq<Entry>, p: nat, e: Entry, j: nat): (r: seq<Entry>)
    requires p < j <= |s|
    ensures |r| == |s|
  {
    s[..p] + [e] + s[p..j - 1] + s[j..]
  }

  lemma ShiftUpStart(s: seq<Entry>, p: nat, e: Entry)
    requires p < |s|
    ensures s[p := e] == ShiftedUp(s, p, e, p + 1)
  {
  }

  lemma ShiftUpStep(s: seq<Entry>, p: nat, e: Entry, j: nat)
    requires p < j < |s|
    ensures ShiftedUp(s, p, e, j)[j] == s[j]
    ensures ShiftedUp(s, p, e, j)[j := s[j - 1]] == ShiftedUp(s, p, e, j + 1)
  {
  }

  lemma ShiftUpEnd(s: seq<Entry>, p: nat, e: Entry)
    requires p < |s|
    ensures ShiftedUp(s, p, e, |s|) + [s[|s| - 1]] == s[..p] + [e] + s[p..]
  {
  }

  // While unlink shifts down: the entries after p and before j are one place back.
  function ShiftedDown(s: seq<Entry>, p: nat, j: nat): (r: seq<Entry>)
    requires p < j <= |s|
    ensures |r| == |s|
  {
    s[..p] + s[p + 1..j] + s[j - 1..]
  }

  lemma ShiftDownStart(s: seq<Entry>, p: nat)
    requires p < |s|
    ensures s == ShiftedDown(s, p, p + 1)
  {
  }

  lemma ShiftDownStep(s: seq<Entry>, p: nat, j: nat)
    requires p < j < |s|
    ensures ShiftedDown(s, p, j)[j] == s[j]
    ensures ShiftedDown(s, p, j)[j - 1 := s[j]] == ShiftedDown(s, p, j + 1)
  {
  }

  lemma ShiftDownEnd(s: seq<Entry>, p: nat)
    requires p < |s|
    ensures ShiftedDown(s, p, |s|)[..|s| - 1] == s[..p] + s[p + 1..]
  {
  }
}
