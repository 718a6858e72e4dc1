/** What the tables of a disk mean to the link law: index nodes with links, kinds and listings. Each
    change of the tables that creat and unlink make is the change of the volume the law is about. */
module FsView {
  import opened FsCodec
  import opened FsGeometry
  import opened FsFile
  import opened FsVolume
  import opened FsDescriptor
  import opened DirectoryEntries
  import opened FsDirectory
  import opened FsUnlink
  import opened LinkLaw
  import K = FsKernel
  import T = FsTruncate

  const S_IFDIR: Short := 0x4000

  // (mode & S_IFMT) == S_IFDIR
  predicate IsDir(node: IndexNode) {
    0x4000 <= node.mode < 0x5000
  }

  ghost function NodeView(g: Geometry, node: IndexNode, data: seq<Block>): Inode {
    Inode(node.nlink, IsDir(node),
          if IsDir(node) && DataShape(g, data) && NodeShape(g, node) && node.size >= 0
          then Listing(Contents(g, node, data), g.blockSize, node.size / DIRECTORY_ENTRY_SIZE)
          else [])
  }

  // The volume a disk holds.
  ghost function VolumeOf(g: Geometry, t: Tables): (v: Volume)
    ensures |v| == |t.inodes|
    ensures forall x :: 0 <= x < |v| ==> v[x] == NodeView(g, t.inodes[x], t.data)
  {
    seq(|t.inodes|, x requires 0 <= x < |t.inodes| => NodeView(g, t.inodes[x], t.data))
  }

  // A file is within what its pointers can reach, and a directory can be listed.
  ghost predicate NodeSound(g: Geometry, node: IndexNode, data: seq<Block>) {
    && node.size >= 0 && K.Fits(g, node.size)
    && (IsDir(node) ==> Lists(g, node, data, NodeView(g, node, data).entries))
  }

  ghost predicate AllSound(g: Geometry, t: Tables) {
    forall n: nat :: n < |t.inodes| && Live(t.inodes[n]) ==> NodeSound(g, t.inodes[n], t.data)
  }

  // Every block but the lost ones is the business of one file, and every file is sound.
  ghost predicate Sound(g: Geometry, t: Tables, lost: set<nat>) {
    |t.inodes| == g.NodeCount() && Owned(g, t.used, t.inodes, t.data, Nobody(lost)) && AllSound(g, t)
  }

  // ----- what a change of the tables means -----

  lemma EntriesCount(count: nat, size: int)
    requires size == DIRECTORY_ENTRY_SIZE * count
    ensures size / DIRECTORY_ENTRY_SIZE == count
  {
  }

  lemma ListsIsView(g: Geometry, node: IndexNode, data: seq<Block>, s: seq<Entry>)
    requires IsDir(node) && Lists(g, node, data, s)
    ensures NodeView(g, node, data) == Inode(node.nlink, true, s) && NodeSound(g, node, data)
  {
  }

  lemma FileView(g: Geometry, node: IndexNode, data: seq<Block>)
    requires !IsDir(node)
    ensures NodeView(g, node, data) == Inode(node.nlink, false, [])
    ensures node.size >= 0 && K.Fits(g, node.size) ==> NodeSound(g, node, data)
  {
  }

  predicate DirsLinked(inodes: seq<IndexNode>) {
    forall x :: 0 <= x < |inodes| && IsDir(inodes[x]) ==> Live(inodes[x])
  }

  lemma ShapeLinksDirs(g: Geometry, t: Tables)
    requires Shape(VolumeOf(g, t))
    ensures DirsLinked(t.inodes)
  {
  }

  // Where a file has not changed, neither has what it means.
  lemma ViewKept(g: Geometry, was: Tables, now: Tables, changed: set<nat>, m: nat)
    requires OnlyChanged(g, was.inodes, was.data, now.inodes, now.data, changed) && DirsLinked(was.inodes)
    requires m < |was.inodes| && m !in changed
    ensures VolumeOf(g, now)[m] == VolumeOf(g, was)[m]
    ensures Live(now.inodes[m]) ==> Live(was.inodes[m])
    ensures Live(was.inodes[m]) && NodeSound(g, was.inodes[m], was.data) ==> NodeSound(g, now.inodes[m], now.data)
  {
  }

  // Two nodes changed, and what they mean now is known.
  lemma VolumeChanged(g: Geometry, was: Tables, now: Tables, d: nat, x: nat, vd: Inode, vx: Inode)
    requires OnlyChanged(g, was.inodes, was.data, now.inodes, now.data, {d, x}) && DirsLinked(was.inodes)
    requires d < |was.inodes| && x < |was.inodes| && d != x && AllSound(g, was)
    requires NodeView(g, now.inodes[d], now.data) == vd && NodeSound(g, now.inodes[d], now.data)
    requires NodeView(g, now.inodes[x], now.data) == vx
    requires (Live(now.inodes[x]) ==> NodeSound(g, now.inodes[x], now.data))
    ensures |now.inodes| == |was.inodes| && VolumeOf(g, now) == VolumeOf(g, was)[x := vx][d := vd]
    ensures AllSound(g, now)
  {
    hide Untouched, NodeSound, NodeView;
    forall m: nat | m < |was.inodes|
      ensures VolumeOf(g, now)[m] == VolumeOf(g, was)[x := vx][d := vd][m]
      ensures Live(now.inodes[m]) ==> NodeSound(g, now.inodes[m], now.data)
    {
      if m != d && m != x {
        ViewKept(g, was, now, {d, x}, m);
      }
    }
  }

  // ----- the tables after each command -----

  // unlink
  lemma UnlinkedView(g: Geometry, was: Tables, now: Tables, d: nat, t: nat, s: seq<Entry>, lost: set<nat>)
    requires Unlinked(g, was, now, d, t, s, lost) && Sound(g, was, lost) && Shape(VolumeOf(g, was))
    requires IsDir(was.inodes[d]) && !IsDir(was.inodes[t]) && was.inodes[t].nlink >= 1
    ensures var v := VolumeOf(g, was);
            VolumeOf(g, now) == v[t := v[t].(nlink := v[t].nlink - 1)][d := v[d].(entries := s)]
    ensures NodeShape(g, was.inodes[t]) && DataShape(g, was.data)
    ensures Sound(g, now, if was.inodes[t].nlink > 1 then lost else lost + T.Remains(g, was.inodes[t], was.data))
  {
    ShapeLinksDirs(g, was);
    FileView(g, was.inodes[t], was.data);
    FileView(g, now.inodes[t], now.data);
    ListsIsView(g, now.inodes[d], now.data, s);
    ListsIsView(g, was.inodes[d], was.data, VolumeOf(g, was)[d].entries) by {
      assert NodeOK(VolumeOf(g, was)[d], |was.inodes|);
    }
    hide Untouched, NodeView, Lists, Owned, OnlyChanged, T.Covered, T.Remains, Shape;
    VolumeChanged(g, was, now, d, t, VolumeOf(g, was)[d].(entries := s),
                  VolumeOf(g, was)[t].(nlink := was.inodes[t].nlink - 1));
  }

  // creat over an existing file, which does not show
  lemma EmptiedView(g: Geometry, was: Tables, now: Tables, n: nat, lost: set<nat>)
    requires Sound(g, was, lost) && Shape(VolumeOf(g, was)) && n < |was.inodes| && !IsDir(was.inodes[n])
    requires T.Emptied(g, now.used, was.inodes, was.data, now.inodes, now.data, n, was.inodes[n], lost)
    ensures VolumeOf(g, now) == VolumeOf(g, was) && Sound(g, now, lost)
  {
    ShapeLinksDirs(g, was);
    FileView(g, was.inodes[n], was.data);
    FileView(g, now.inodes[n], now.data);
    OnlyOneChanged(g, was.inodes, was.data, now.inodes, now.data, n);
    hide Untouched, NodeView, NodeSound, Owned, OnlyChanged, T.Covered, Shape, OthersSame;
    OneViewChanged(g, was, now, n);
  }

  // One node changed, and what it means has not.
  lemma OneViewChanged(g: Geometry, was: Tables, now: Tables, n: nat)
    requires OnlyChanged(g, was.inodes, was.data, now.inodes, now.data, {n}) && DirsLinked(was.inodes)
    requires n < |was.inodes| && AllSound(g, was) && |now.inodes| == |was.inodes|
    requires Live(now.inodes[n]) ==> NodeSound(g, now.inodes[n], now.data)
    ensures |now.inodes| == |was.inodes| && AllSound(g, now)
    ensures VolumeOf(g, now) == VolumeOf(g, was)[n := NodeView(g, now.inodes[n], now.data)]
  {
  }

  lemma NoEntriesYet(g: Geometry, mode: Short, data: seq<Block>)
    requires DataShape(g, data)
    ensures Lists(g, T.NewNode(mode), data, []) && NodeSound(g, T.NewNode(mode), data)
    ensures NodeView(g, T.NewNode(mode), data) == Inode(1, IsDir(T.NewNode(mode)), [])
    ensures IsDir(T.NewNode(mode)) <==> 0x4000 <= mode < 0x5000
  {
  }

  // creat of a new file or directory, before its entry is made
  lemma NewNodeView(g: Geometry, was: Tables, now: Tables, x: nat, mode: Short, lost: set<nat>)
    requires Sound(g, was, lost) && Shape(VolumeOf(g, was)) && x < |was.inodes| && !Live(was.inodes[x])
    requires now == was.(inodes := was.inodes[x := T.NewNode(mode)])
    requires OthersSame(g, was.inodes, was.data, now.inodes, now.data, x)
    requires Owned(g, now.used, now.inodes, now.data, Nobody(lost))
    ensures VolumeOf(g, now) == VolumeOf(g, was)[x := Inode(1, 0x4000 <= mode < 0x5000, [])] && Sound(g, now, lost)
    ensures DirsLinked(now.inodes)
  {
    ShapeLinksDirs(g, was);
    NoEntriesYet(g, mode, was.data);
    OnlyOneChanged(g, was.inodes, was.data, now.inodes, now.data, x);
    hide Untouched, NodeView, NodeSound, Owned, OnlyChanged, Shape, OthersSame, IsDir;
    OneViewChanged(g, was, now, x);
    assert Live(now.inodes[x]);
  }

  // an edit of one directory
  lemma ListingChanged(g: Geometry, was: Tables, now: Tables, d: nat, s: seq<Entry>, lost: set<nat>)
    requires Sound(g, was, lost) && DirsLinked(was.inodes) && d < |was.inodes| && IsDir(was.inodes[d])
    requires OthersSame(g, was.inodes, was.data, now.inodes, now.data, d)
    requires Owned(g, now.used, now.inodes, now.data, Nobody(lost))
    requires d < |now.inodes| && K.SameFile(was.inodes[d], now.inodes[d]) && Lists(g, now.inodes[d], now.data, s)
    ensures VolumeOf(g, now) == VolumeOf(g, was)[d := VolumeOf(g, was)[d].(entries := s)] && Sound(g, now, lost)
    ensures DirsLinked(now.inodes)
  {
    ListsIsView(g, now.inodes[d], now.data, s);
    OnlyOneChanged(g, was.inodes, was.data, now.inodes, now.data, d);
    assert VolumeOf(g, was)[d].nlink == now.inodes[d].nlink && VolumeOf(g, was)[d].isDir;
    OnlyChangedParts(g, was, now, d);
    hide Untouched, NodeView, NodeSound, Owned, OnlyChanged, OthersSame, Lists;
    OneViewChanged(g, was, now, d);
  }

  lemma OnlyChangedParts(g: Geometry, was: Tables, now: Tables, d: nat)
    requires OnlyChanged(g, was.inodes, was.data, now.inodes, now.data, {d})
    ensures |now.inodes| == |was.inodes|
    ensures forall m: nat :: m < |was.inodes| && m != d ==> now.inodes[m] == was.inodes[m]
  {
  }

  // ----- the room there is on a disk -----

  // The entry of a new name goes in.
  ghost predicate HasRoomFor(g: Geometry, t: Tables, path: Path) {
    var v := VolumeOf(g, t);
    && Missing(v, path)
    && HasRoom(g, t.inodes[Parent(v, path)], t.data, t.used, |v[Parent(v, path)].entries|)
  }

  // The blocks it takes.
  ghost function TakenFor(g: Geometry, t: Tables, path: Path): nat {
    var v := VolumeOf(g, t);
    if HasRoomFor(g, t, path) then Taken(g, t.inodes[Parent(v, path)], t.data, |v[Parent(v, path)].entries|) else 0
  }

  // A file that has been emptied has a first block or can get one: it had one it keeps, or one to give back, or
  // some block was free.
  ghost predicate HasRoomOnceEmpty(g: Geometry, t: Tables, x: nat) {
    && x < |t.inodes| && DataShape(g, t.data) && NodeShape(g, t.inodes[x]) && t.inodes[x].size >= 0
    && (InUse(g, t.inodes[x], t.data, 0) || !DiskFull(g, t.used)
        || T.SomeInUse(g, t.inodes[x], t.data, T.Span(g, t.inodes[x].size)))
  }

  lemma RoomForIs(g: Geometry, t: Tables, path: Path)
    requires Missing(VolumeOf(g, t), path)
    ensures var v := VolumeOf(g, t);
            && 0 <= Parent(v, path) < |t.inodes| == |v|
            && var d, k := Parent(v, path), |v[Parent(v, path)].entries|;
            && (HasRoomFor(g, t, path) <==> HasRoom(g, t.inodes[d], t.data, t.used, k))
            && TakenFor(g, t, path)
               == if HasRoomFor(g, t, path) then Taken(g, t.inodes[d], t.data, k) else 0
  {
    hide HasRoom, Taken, VolumeOf;
  }

  lemma FirstBlock(g: Geometry)
    requires g.Valid()
    ensures BlockOf(g, 0) == 0
  {
    QuotRemOf(0, g.blockSize, 0, 0);
  }

  // Emptying a file: its first block afterwards.
  lemma RoomOnceEmptied(g: Geometry, t: Tables, x: nat, node': IndexNode, used': set<nat>, data': seq<Block>)
    requires g.Valid() && x < |t.inodes| && t.inodes[x].size >= 0
    requires T.SlotsCleared(g, t.inodes[x], t.data, node', data', 0, T.Span(g, t.inodes[x].size))
    requires T.FreedFirst(g, t.used, t.inodes[x], t.data, used', T.Span(g, t.inodes[x].size))
    ensures HasRoom(g, node', data', used', 0) <==> HasRoomOnceEmpty(g, t, x)
    ensures used' <= t.used
  {
    FirstBlock(g);
    var n := T.Span(g, t.inodes[x].size);
    hide DiskFull, Address, T.Span;
    if InUse(g, t.inodes[x], t.data, 0) {
      assert n > 0 ==> T.SomeInUse(g, t.inodes[x], t.data, n);
    }
  }
}
