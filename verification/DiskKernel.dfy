/** The commands as the kernel carries them out on the disk, one command to a boot: path lookup, creat,
    unlink, and the body of mkdir. Each does to the volume the disk holds what LinkLaw says of it. */
module DiskKernel {
  import opened FsCodec
  import opened FsGeometry
  import opened FsFile
  import opened FsVolume
  import opened FsDescriptor
  import opened DirectoryEntries
  import opened FsDirectory
  import opened FsView
  import opened FsPaths
  import opened LinkLaw
  import opened LinkPaths
  import FsUnlink
  import K = FsKernel
  import T = FsTruncate

  // ----- walks over a volume -----

  // A walk that is stuck stays stuck.
  lemma {:induction false} NoWayOn(v: Volume, path: Path, i: nat)
    requires i < |path| && !IsDirectory(v, Walk(v, 0, path[..i]))
    ensures !IsDirectory(v, Parent(v, path))
    decreases |path| - i
  {
    if i + 1 < |path| {
      assert path[..i + 1] == path[..i] + [path[i]];
      WalkFurther(v, 0, path[..i], path[i]);
      NoWayOn(v, path, i + 1);
    }
  }

  // On the way along a path: node number r, after i names.
  ghost predicate OnPath(v: Volume, cached: seq<Entry>, path: Path, i: nat, r: int) {
    i <= |path| && if i == 0 then r == 0 else 0 <= r < |v| && Walk(v, r, path[i..]) == Resolve(v, cached, path)
  }

  // Where the next name is looked for.
  function EntriesAt(v: Volume, cached: seq<Entry>, i: nat, r: int): seq<Entry> {
    if i == 0 then cached else if 0 <= r < |v| then v[r].entries else []
  }

  lemma Onward(v: Volume, cached: seq<Entry>, path: Path, i: nat, r: int)
    requires OnPath(v, cached, path, i, r) && i < |path|
    ensures i > 0 && !IsDirectory(v, r) ==> Resolve(v, cached, path) == -1
    ensures i == 0 || IsDirectory(v, r) ==>
              var next := Lookup(EntriesAt(v, cached, i, r), path[i]);
              && (0 <= next < |v| ==> OnPath(v, cached, path, i + 1, next))
              && (next == -1 ==> Resolve(v, cached, path) == -1)
  {
    assert path[i..][1..] == path[i + 1..];
    assert Walk(v, -1, path[i + 1..]) == -1;
  }

  lemma AtEnd(v: Volume, cached: seq<Entry>, path: Path, r: int)
    requires OnPath(v, cached, path, |path|, r)
    ensures r == Resolve(v, cached, path)
  {
  }

  lemma AtRoot(v: Volume, cached: seq<Entry>, path: Path)
    ensures OnPath(v, cached, path, 0, 0)
  {
  }

  lemma ResolveFresh(v: Volume, path: Path)
    requires |v| > 0 && v[0].isDir
    ensures Resolve(v, v[0].entries, path) == Walk(v, 0, path)
  {
  }

  // The walk of creat after i names: where the last of them was looked for, and what was found.
  ghost predicate Descent(v: Volume, path: Path, i: nat, parent: int, number: int) {
    && i <= |path| && number == Walk(v, 0, path[..i])
    && (i == 0 ==> number == 0)
    && (i > 0 ==>
          && parent == Walk(v, 0, path[..i - 1]) && IsDirectory(v, parent)
          && number == Lookup(v[parent].entries, path[i - 1]))
  }

  lemma DescentStart(v: Volume, path: Path)
    ensures Descent(v, path, 0, 0, 0)
  {
  }

  lemma DescentStep(v: Volume, path: Path, i: nat, parent: int, number: int)
    requires Descent(v, path, i, parent, number) && i < |path|
    ensures IsDirectory(v, number) ==> Descent(v, path, i + 1, number, Lookup(v[number].entries, path[i]))
    ensures !IsDirectory(v, number) ==> !IsDirectory(v, Parent(v, path))
  {
    assert path[..i + 1] == path[..i] + [path[i]];
    WalkFurther(v, 0, path[..i], path[i]);
    if !IsDirectory(v, number) {
      NoWayOn(v, path, i);
    }
  }

  lemma DescentEnd(v: Volume, path: Path, parent: int, number: int)
    requires Descent(v, path, |path|, parent, number)
    ensures path == [] ==> number == 0
    ensures path != [] ==>
              && IsDirectory(v, Parent(v, path)) && parent == Parent(v, path)
              && number == Lookup(v[parent].entries, Last(path))
  {
  }

  // The first entries of the root.
  function First(v: Volume, count: int): seq<Entry> {
    if |v| > 0 && 0 <= count <= |v[0].entries| then v[0].entries[..count] else []
  }

  // A walk does not notice a node that no directory names.
  lemma {:induction false} WalkAround(v: Volume, x: nat, node: Inode, d: int, path: Path)
    requires x < |v| && d != x
    requires forall m :: 0 <= m < |v| && v[m].isDir ==> x !in Inos(v[m].entries)
    ensures Walk(v[x := node], d, path) == Walk(v, d, path)
    decreases |path|
  {
    if path != [] && IsDirectory(v, d) {
      LookupNot(v[d].entries, path[0], x);
      WalkAround(v, x, node, Lookup(v[d].entries, path[0]), path[1..]);
    }
  }

  lemma LookupNot(s: seq<Entry>, name: Name, x: nat)
    requires x !in Inos(s)
    ensures Lookup(s, name) != x
  {
  }

  // A node without links is not named.
  lemma UnlinkedIsUnnamed(v: Volume, x: nat)
    requires Shape(v) && CountsLinks(v) && x < |v| && v[x].nlink == 0
    ensures x != 0 && forall m :: 0 <= m < |v| && v[m].isDir ==> x !in Inos(v[m].entries)
  {
    assert NodeOK(v[0], |v|);
    forall m | 0 <= m < |v| && v[m].isDir
      ensures x !in Inos(v[m].entries)
    {
      CountAtLeast(v, m, x, |v|);
    }
  }

  lemma VolumeSize(g: Geometry, t: Tables)
    ensures |VolumeOf(g, t)| == |t.inodes|
  {
  }

  // What the disk says of a directory.
  lemma DirectoryIs(g: Geometry, t: Tables, lost: set<nat>, d: nat)
    requires Sound(g, t, lost) && Shape(VolumeOf(g, t)) && d < |t.inodes|
    ensures IsDir(t.inodes[d]) <==> VolumeOf(g, t)[d].isDir
    ensures InRange(VolumeOf(g, t)[d].entries, |t.inodes|)
    ensures IsDir(t.inodes[d]) ==>
              && DataShape(g, t.data) && Leads(g, t.inodes[d], t.data) && FileOK(g, t.inodes[d], t.data)
              && Lists(g, t.inodes[d], t.data, VolumeOf(g, t)[d].entries) && Live(t.inodes[d]) && t.inodes[d].size >= 0
  {
  }

  class Kernel {
    const fs: FileSystem
    const root: IndexNode // the root's node as it was when the kernel booted
    ghost const lost: set<nat>

    // The volume the disk holds.
    ghost function View(): Volume
      reads fs
    {
      VolumeOf(fs.g, fs.Now())
    }

    ghost predicate Running()
      reads fs, fs.freeListBitBlock, fs.indexBlockBytes
    {
      && fs.Valid() && Sound(fs.g, fs.Now(), lost) && Shape(View())
      && CopyOf(fs.g, root, fs.inodes[0], fs.data, |View()[0].entries|)
    }

    // Nothing has been done yet.
    ghost predicate Booted()
      reads fs, fs.freeListBitBlock, fs.indexBlockBytes
    {
      Running() && root == fs.inodes[0] && Inv(View())
    }

    // The entries of the root that the kernel knows of.
    ghost function Cached(): seq<Entry>
      reads fs
    {
      First(View(), CountOf(root))
    }

    // Boot: FileSystem::open reads the root's node.
    constructor (fs: FileSystem, ghost lost: set<nat>)
      requires fs.Valid() && Sound(fs.g, fs.Now(), lost) && Inv(VolumeOf(fs.g, fs.Now()))
      modifies fs`currentIndexNodeBlock, fs.indexBlockBytes
      ensures Booted() && this.fs == fs && this.lost == lost
    {
      hide *;
      NodesOf(fs);
      ghost var t := fs.Now();
      var r := fs.ReadIndexNode(0);
      this.fs := fs;
      this.lost := lost;
      root := r;
      new;
      FsUnlink.TablesNow(fs);
      BootedNow(this, t);
    }

    // findIndexNode: the number and the node at the end of a path, -1 if there is none.
    method FindIndexNode(path: Path) returns (r: int, node: IndexNode)
      requires Running()
      modifies fs`currentIndexNodeBlock, fs.indexBlockBytes
      ensures Running() && r == Resolve(View(), Cached(), path)
      ensures path == [] ==> r == 0 && node == root
      ensures path != [] ==> -1 <= r < |fs.inodes| && (r >= 0 ==> node == fs.inodes[r])
    {
      hide *;
      RunningParts(this);
      ghost var t, v, cached := fs.Now(), View(), Cached();
      AtRoot(v, cached, path);
      r, node := 0, root;
      var i := 0;
      while i < |path|
        invariant 0 <= i <= |path| && fs.Valid() && OnPath(v, cached, path, i, r)
        invariant i == 0 ==> r == 0 && node == root
        invariant i > 0 ==> 0 <= r < |fs.inodes| && node == fs.inodes[r]
        decreases |path| - i
      {
        StepReady(fs.g, t, lost, root, path, i, r, node);
        Onward(v, cached, path, i, r);
        KindOf(node);
        if !(0x4000 <= node.mode < 0x5000) {
          RunningAgain(this, t);
          return -1, node;
        }
        r, node := FindNextIndexNode(fs, node, path[i], EntriesAt(v, cached, i, r));
        if r < 0 {
          RunningAgain(this, t);
          return;
        }
        i := i + 1;
      }
      AtEnd(v, cached, path, r);
      RunningAgain(this, t);
    }

    // The walk of creat: the directory the last name is looked up in, and what is found there.
    method FindBoth(path: Path) returns (status: int, parent: int, number: int, node: IndexNode)
      requires Booted()
      modifies fs`currentIndexNodeBlock, fs.indexBlockBytes
      ensures Booted() && (status == 0 || status == -1)
      ensures path == [] ==> status == 0 && number == 0
      ensures path != [] ==> (status == 0 <==> IsDirectory(View(), Parent(View(), path)))
      ensures path != [] && status == 0 ==>
                parent == Parent(View(), path) && number == Lookup(View()[parent].entries, Last(path))
      ensures status == 0 ==> -1 <= number < |fs.inodes| && (number >= 0 ==> node == fs.inodes[number])
    {
      hide *;
      BootedParts(this);
      ghost var t, v := fs.Now(), View();
      DescentStart(v, path);
      status, parent, number, node := 0, 0, 0, root;
      var i := 0;
      while i < |path|
        invariant 0 <= i <= |path| && fs.Valid() && Descent(v, path, i, parent, number)
        invariant -1 <= number < |fs.inodes| && (number >= 0 ==> node == fs.inodes[number])
        decreases |path| - i
      {
        DescentStep(v, path, i, parent, number);
        NumberIs(fs.g, t, lost, root, number, node);
        if number < 0 || !(0x4000 <= node.mode < 0x5000) {
          BootedAgain(this, t);
          return -1, parent, number, node;
        }
        parent := number;
        number, node := FindNextIndexNode(fs, node, path[i], v[parent].entries);
        i := i + 1;
      }
      DescentEnd(v, path, parent, number);
      BootedAgain(this, t);
    }

    // The part of creat that opens the directory and makes the entry of the new node x.
    method MakeEntry(path: Path, x: nat, ghost v: Volume, ghost isDir: bool)
      requires Running() && root == fs.inodes[0]
      requires Inv(v) && Missing(v, path) && x < |v| == |fs.inodes| && v[x].nlink == 0 && Entry(0, Last(path)).Fits()
      requires View() == v[x := Inode(1, isDir, [])]
      requires var d := Parent(v, path); CanPut(fs.g, fs.inodes[d], fs.used, |v[d].entries|)
      modifies fs, fs.freeListBitBlock, fs.indexBlockBytes
      ensures Running() && EntryAdded(fs.g, old(fs.Now()), fs.Now(), v, path, x, isDir)
    {
      hide *;
      RunningParts(this);
      PrefixPath(v, path);
      ghost var t1, d := fs.Now(), Parent(v, path);
      Reopened(fs.g, t1, lost, root, v, path, x, isDir);
      var r, node := FindIndexNode(path[..|path| - 1]);
      RunningParts(this);
      NumberIs(fs.g, t1, lost, root, r, node);
      var fd := new FileDescriptor(fs, r, node, Nobody(lost));
      OpenForEntry(fd, t1, lost, root, v, path, x, isDir);
      ghost var was, s := fd.Now(), v[d].entries;
      EntryFits(x, Last(path));
      InsertedIs(s, Entry(x, Last(path)));
      ghost var ok := Insert(fd, Entry(x, Last(path)), s);
      EndedParts(fd, Inserted(s, Entry(x, Last(path))), ok, was, t1, lost);
      ghost var t2 := Tables(fs.used, fs.inodes, fs.data);
      EntryMade(fs.g, t1, t2, lost, root, v, path, x, isDir, ok);
      RunningAgain(this, t2);
      NewListing(v, path, x);
      EntryAddedNow(fs.g, t1, t2, v, path, x, isDir, ok);
    }

    // Give a missing name a new node, with its entry.
    method MakeFile(path: Path, mode: Short) returns (x: int)
      requires Booted() && Missing(View(), path) && Entry(0, Last(path)).Fits() && RoomAt(fs.g, fs.Now(), path)
      modifies fs, fs.freeListBitBlock, fs.indexBlockBytes
      ensures Running()
      ensures x == -1 <==> forall k :: 0 <= k < |old(View())| ==> old(View())[k].nlink != 0
      ensures x == -1 ==> fs.Now() == old(fs.Now())
      ensures x != -1 ==> CreatedFrom(fs.g, old(fs.Now()), fs.Now(), path, x, mode)
    {
      hide *;
      BootedParts(this);
      ghost var t0, v := fs.Now(), View();
      RoomThere(fs.g, t0, path);
      LinksOf(fs.g, t0);
      FactsParts(fs.g, t0, lost, root);
      var n := T.CreateNode(fs, mode, lost);
      x := n;
      if n == -1 {
        RunningAgain(this, t0);
        return;
      }
      ghost var t1 := Tables(fs.used, fs.inodes, fs.data);
      NewNodeFacts(fs.g, t0, t1, lost, root, n, mode);
      RunningAgain(this, t1);
      CreatedIs(v, path, n, 0x4000 <= mode < 0x5000);
      MakeEntry(path, n, v, 0x4000 <= mode < 0x5000);
      CreatedFromNow(fs.g, t0, t1, fs.Now(), path, n, mode);
    }

    // Kernel::creat: a missing name gets a new node, an existing file is emptied, a directory is refused.
    method Creat(path: Path, mode: Short) returns (status: int, x: int, node: IndexNode)
      requires Booted()
      requires Missing(View(), path) ==> Entry(0, Last(path)).Fits() && RoomAt(fs.g, fs.Now(), path)
      modifies fs, fs.freeListBitBlock, fs.indexBlockBytes
      ensures Running() && (status == 0 || status == -1)
      ensures var v := old(View());
              && (status == 0 <==> IsFile(v, path) || (Missing(v, path) && HasFreeNode(v)))
              && (status == -1 ==> fs.Now() == old(fs.Now()))
              && (status == 0 && IsFile(v, path) ==>
                    x == Target(v, path) && EmptiedFrom(fs.g, old(fs.Now()), fs.Now(), path, lost))
              && (status == 0 && Missing(v, path) ==> CreatedFrom(fs.g, old(fs.Now()), fs.Now(), path, x, mode))
      ensures status == 0 ==> 0 <= x < |fs.inodes| < 0x8000 && node == fs.inodes[x] && Live(node) && node.size == 0
      ensures status == 0 && Missing(old(View()), path) && HasRoomFor(fs.g, old(fs.Now()), path) ==>
                && Walk(View(), 0, path) == x
                && forall q: Path :: Walk(old(View()), 0, q) != -1 ==> Walk(View(), 0, q) == Walk(old(View()), 0, q)
      ensures status == 0 && Missing(old(View()), path) ==>
                && node.mode == mode && node.nlink == 1 && node.uid == 0 && node.gid == 0
                && |node.direct| == 10 && (forall i :: 0 <= i < 10 ==> node.direct[i] == 0x00FF_FFFF)
                && node.indirect == 0x00FF_FFFF
      ensures status == 0 && IsFile(old(View()), path) ==>
                && x < |old(fs.inodes)|
                && var was := old(fs.inodes)[x];
                   && node.mode == was.mode && node.nlink == was.nlink && node.uid == was.uid && node.gid == was.gid
                   && node.indirect == was.indirect
    {
      hide *;
      BootedParts(this);
      ghost var t0, v := fs.Now(), View();
      FactsParts(fs.g, t0, lost, root);
      FreeNodeIs(v);
      var parent: int;
      status, parent, x, node := FindBoth(path);
      BootedParts(this);
      if status < 0 {
        NothingFound(v, path);
        return;
      }
      FoundIs(v, path, parent, x);
      NumberIs(fs.g, t0, lost, root, x, node);
      if x < 0 {
        x := MakeFile(path, mode);
        status := if x == -1 then -1 else 0;
        if x != -1 {
          node := T.NewNode(mode);
          T.NewNodeFields(mode);
          NoFileYet(v, path);
          NewNameIsFound(fs.g, t0, fs.Now(), path, x, mode);
          ViewIs(this);
          CreatedFromParts(fs.g, t0, fs.Now(), path, x, mode);
          FsUnlink.TablesNow(fs);
        }
        return;
      }
      if 0x4000 <= node.mode < 0x5000 {
        return -1, x, node;
      }
      FileIs(fs.g, t0, lost, root, x);
      ghost var node0 := node;
      node := T.Truncate(fs, x, node, lost);
      ghost var t1 := Tables(fs.used, fs.inodes, fs.data);
      EmptiedFacts(fs.g, t0, t1, lost, root, x);
      RunningAgain(this, t1);
      T.LiveHasLinks(node);
      T.LiveHasLinks(node0);
      RoomOnceEmptied(fs.g, t0, x, node, t1.used, t1.data);
      EmptiedFromNow(fs.g, t0, t1, path, lost);
      EmptiedNode(fs.g, t0, t1, x, lost);
    }

    // Kernel::unlink of a regular file; anything else is refused. On success there is no return statement:
    // `left` is whatever the caller finds.
    method Unlink(path: Path, left: int) returns (status: int, ghost lost': set<nat>)
      requires Booted()
      modifies fs, fs.freeListBitBlock, fs.indexBlockBytes
      ensures fs.Valid() && status == if IsFile(old(View()), path) then left else -1
      ensures View() == UnlinkResult(old(View()), path) && Inv(View())
      ensures IsFile(old(View()), path) ==> Walk(View(), 0, path) == -1
      ensures Sound(fs.g, fs.Now(), lost')
      ensures if IsFile(old(View()), path) then UnlinkedFrom(fs.g, old(fs.Now()), fs.Now(), path, lost, lost')
              else fs.Now() == old(fs.Now()) && lost' == lost
    {
      hide *;
      BootedParts(this);
      ghost var t0, v := fs.Now(), View();
      WholeRoot(fs.g, t0, lost, root);
      lost' := lost;
      NotUnlinked(v, path);
      if IsFile(v, path) {
        UnlinkedIsGone(v, path);
      }
      ResolveFresh(v, path);
      var t, node := FindIndexNode(path);
      RunningParts(this);
      PathEnds(v, path);
      NumberIs(fs.g, t0, lost, root, t, node);
      if t >= 0 && 0x4000 <= node.mode < 0x5000 {
        return -1, lost;
      }
      ResolveFresh(v, path[..|path| - 1]);
      var d, dir := FindIndexNode(path[..|path| - 1]);
      RunningParts(this);
      if d < 0 {
        return -1, lost;
      }
      NumberIs(fs.g, t0, lost, root, d, dir);
      if !(0x4000 <= dir.mode < 0x5000) {
        return -1, lost;
      }
      var fd := new FileDescriptor(fs, d, dir, if t >= 0 then Unlinking(lost, t, node) else Nobody(lost));
      OpenForUnlink(fd, t0, lost, root, t, node);
      if t >= 0 {
        FileIs(fs.g, t0, lost, root, t);
      }
      status := FsUnlink.Unlink(fd, t, node, Last(path), left, v[d].entries, lost);
      FsUnlink.TablesNow(fs);
      if t >= 0 {
        lost' := UnlinkDone(fs.g, t0, fs.Now(), lost, root, path);
      }
      ViewIs(this);
    }
  }

  // Some node has no links.
  predicate HasFreeNode(v: Volume) {
    exists k :: 0 <= k < |v| && v[k].nlink == 0
  }

  lemma FreeNodeIs(v: Volume)
    ensures HasFreeNode(v) <==> !forall k :: 0 <= k < |v| ==> v[k].nlink != 0
  {
  }

  // The entry of the new node x has been made exactly if there was room for it, with the blocks it takes, and only
  // the directory has changed.
  ghost predicate EntryAdded(g: Geometry, was: Tables, now: Tables, v: Volume, path: Path, x: nat, isDir: bool) {
    && Missing(v, path) && x < |v| < 0x8000 && Parent(v, path) < |was.inodes| && Parent(v, path) != x
    && var d, k := Parent(v, path), |v[Parent(v, path)].entries|;
    && OnlyChanged(g, was.inodes, was.data, now.inodes, now.data, {d})
    && if HasRoom(g, was.inodes[d], was.data, was.used, k) then
         && VolumeOf(g, now) == Created(v, path, x, isDir)
         && |now.used| == |was.used| + Taken(g, was.inodes[d], was.data, k)
       else
         VolumeOf(g, now) == CreatedShort(v, path, x, isDir) && |now.used| == |was.used|
  }

  lemma EntryAddedNow(g: Geometry, t1: Tables, t2: Tables, v: Volume, path: Path, x: nat, isDir: bool, ok: bool)
    requires Missing(v, path) && x < |v| < 0x8000 && Parent(v, path) < |t1.inodes| && Parent(v, path) != x
    requires OnlyChanged(g, t1.inodes, t1.data, t2.inodes, t2.data, {Parent(v, path)})
    requires var d, k := Parent(v, path), |v[Parent(v, path)].entries|;
             && (ok <==> HasRoom(g, t1.inodes[d], t1.data, t1.used, k))
             && |t2.used| == |t1.used| + if ok then Taken(g, t1.inodes[d], t1.data, k) else 0
    requires VolumeOf(g, t2) == if ok then Created(v, path, x, isDir) else CreatedShort(v, path, x, isDir)
    ensures EntryAdded(g, t1, t2, v, path, x, isDir)
  {
    hide OnlyChanged, HasRoom, Taken, VolumeOf, Created, CreatedShort, Parent;
  }

  // creat of a new name: node x was free and is the new file's; the directory has the entry exactly if there was
  // room for it, and else has lost its last one; no other file has changed.
  ghost predicate CreatedFrom(g: Geometry, was: Tables, now: Tables, path: Path, x: int, mode: Short) {
    var v := VolumeOf(g, was);
    && Missing(v, path) && 0 <= x < |v| < 0x8000 && v[x].nlink == 0
    && |now.inodes| == |v| && now.inodes[x] == T.NewNode(mode)
    && Parent(v, path) >= 0 && Parent(v, path) != x
    && OnlyChanged(g, was.inodes, was.data, now.inodes, now.data, {Parent(v, path), x})
    && |now.used| == |was.used| + TakenFor(g, was, path)
    && VolumeOf(g, now) == if HasRoomFor(g, was, path) then Created(v, path, x, 0x4000 <= mode < 0x5000)
                           else CreatedShort(v, path, x, 0x4000 <= mode < 0x5000)
  }

  lemma CreatedFromParts(g: Geometry, was: Tables, now: Tables, path: Path, x: int, mode: Short)
    requires CreatedFrom(g, was, now, path, x, mode)
    ensures 0 <= x < |now.inodes| == |was.inodes| < 0x8000 && now.inodes[x] == T.NewNode(mode)
    ensures Live(now.inodes[x])
  {
  }

  lemma CreatedFromNow(g: Geometry, t0: Tables, t1: Tables, t2: Tables, path: Path, x: nat, mode: Short)
    requires x < |t0.inodes| && t1 == t0.(inodes := t0.inodes[x := T.NewNode(mode)])
    requires OthersSame(g, t0.inodes, t0.data, t1.inodes, t1.data, x) && t0.inodes[x].nlink == 0
    requires EntryAdded(g, t1, t2, VolumeOf(g, t0), path, x, 0x4000 <= mode < 0x5000)
    ensures CreatedFrom(g, t0, t2, path, x, mode)
  {
    var d := Parent(VolumeOf(g, t0), path);
    RoomForIs(g, t0, path);
    LinksOf(g, t0);
    OnlyOneChanged(g, t0.inodes, t0.data, t1.inodes, t1.data, x);
    OnlyChangedNext(g, t0.inodes, t0.data, t1.inodes, t1.data, t2.inodes, t2.data, {x}, {d});
    assert {x} + {d} == {d, x};
    OthersLength(g, t1, t2, {d}, x);
    hide OnlyChanged, OthersSame, HasRoom, Taken, VolumeOf, Created, CreatedShort, Parent, HasRoomFor, TakenFor,
      T.NewNode;
  }

  lemma OthersLength(g: Geometry, was: Tables, now: Tables, changed: set<nat>, x: nat)
    requires OnlyChanged(g, was.inodes, was.data, now.inodes, now.data, changed) && x < |was.inodes| && x !in changed
    ensures |now.inodes| == |was.inodes| && now.inodes[x] == was.inodes[x]
  {
  }

  // creat over a file: it is empty, its blocks within its size are free, and no other file has changed.
  ghost predicate EmptiedFrom(g: Geometry, was: Tables, now: Tables, path: Path, lost: set<nat>) {
    var v := VolumeOf(g, was);
    && IsFile(v, path) && Target(v, path) < |was.inodes| && VolumeOf(g, now) == v
    && var x := Target(v, path);
    && T.Emptied(g, now.used, was.inodes, was.data, now.inodes, now.data, x, was.inodes[x], lost)
    && (HasRoom(g, now.inodes[x], now.data, now.used, 0) <==> HasRoomOnceEmpty(g, was, x)) && now.used <= was.used
  }

  lemma EmptiedFromNow(g: Geometry, was: Tables, now: Tables, path: Path, lost: set<nat>)
    requires IsFile(VolumeOf(g, was), path) && Target(VolumeOf(g, was), path) < |was.inodes| == |now.inodes|
    requires VolumeOf(g, now) == VolumeOf(g, was)
    requires var x := Target(VolumeOf(g, was), path);
             && T.Emptied(g, now.used, was.inodes, was.data, now.inodes, now.data, x, was.inodes[x], lost)
             && (HasRoom(g, now.inodes[x], now.data, now.used, 0) <==> HasRoomOnceEmpty(g, was, x))
    requires now.used <= was.used
    ensures EmptiedFrom(g, was, now, path, lost)
  {
    hide T.Emptied, HasRoom, HasRoomOnceEmpty, VolumeOf, IsFile, Target;
  }

  // The tables after unlink of the file at the end of the path. Where it was the last link, the blocks that
  // remain are lost.
  ghost predicate UnlinkedFrom(g: Geometry, was: Tables, now: Tables, path: Path, lost: set<nat>, lost': set<nat>) {
    var v := VolumeOf(g, was);
    && IsFile(v, path) && 0 <= Parent(v, path) < |v|
    && var d, t := Parent(v, path), Target(v, path);
    && Named(v[d].entries, Last(path))
    && FsUnlink.Unlinked(g, was, now, d, t, Removed(v[d].entries, Last(path)), lost)
    && DataShape(g, was.data) && NodeShape(g, was.inodes[t]) && was.inodes[t].size >= 0
    && lost' == if was.inodes[t].nlink > 1 then lost else lost + T.Remains(g, was.inodes[t], was.data)
  }

  lemma ViewIs(k: Kernel)
    ensures k.View() == VolumeOf(k.fs.g, k.fs.Now())
  {
  }

  lemma NotUnlinked(v: Volume, path: Path)
    ensures !IsFile(v, path) ==> UnlinkResult(v, path) == v
  {
  }

  // The two walks of unlink.
  lemma PathEnds(v: Volume, path: Path)
    requires Inv(v)
    ensures path == [] ==> Walk(v, 0, path) == 0 && IsDirectory(v, 0) && !IsFile(v, path)
    ensures path != [] ==>
              var t, d := Walk(v, 0, path), Walk(v, 0, path[..|path| - 1]);
              && d == Parent(v, path) && (IsFile(v, path) <==> t >= 0 && !IsDirectory(v, t))
              && (IsFile(v, path) ==>
                    IsDirectory(v, d) && Target(v, path) == t && d != t && 0 <= t < |v| && v[t].nlink >= 1)
              && (IsDirectory(v, d) ==> 0 <= d < |v| && (Named(v[d].entries, Last(path)) <==> t >= 0))
  {
    assert NodeOK(v[0], |v|);
    if path != [] {
      var d := Parent(v, path);
      assert path == path[..|path| - 1] + [Last(path)];
      WalkFurther(v, 0, path[..|path| - 1], Last(path));
      if IsDirectory(v, d) {
        assert NodeOK(v[d], |v|);
        LookupInRange(v[d].entries, Last(path), |v|);
        FoundIsNamed(v[d].entries, Last(path));
      }
      if IsFile(v, path) {
        UnlinkedFacts(v, path);
      }
    }
  }

  lemma OpenForUnlink(fd: FileDescriptor, t0: Tables, lost: set<nat>, root: IndexNode, t: int, node: IndexNode)
    requires fd.Readable() && t0 == Tables(fd.fs.used, fd.fs.inodes, fd.fs.data) && Facts(fd.fs.g, t0, lost, root)
    requires fd.held == if t >= 0 then Unlinking(lost, t, node) else Nobody(lost)
    requires fd.indexNodeNumber < |t0.inodes| && fd.indexNode == t0.inodes[fd.indexNodeNumber] && IsDir(fd.indexNode)
    requires t >= 0 ==> t < |t0.inodes| && node == t0.inodes[t] && !IsDir(node)
    ensures fd.Valid() && Lists(fd.fs.g, fd.indexNode, fd.fs.data, VolumeOf(fd.fs.g, t0)[fd.indexNodeNumber].entries)
  {
    DirectoryIs(fd.fs.g, t0, lost, fd.indexNodeNumber);
    assert t0.inodes == Owners(t0.inodes, Nobody(lost)) == Owners(t0.inodes, fd.held);
    hide Lists, Ownership, Leads, Shape, FileOK;
  }

  lemma UnlinkDone(g: Geometry, t0: Tables, t1: Tables, lost: set<nat>, root: IndexNode, path: Path)
    returns (lost': set<nat>)
    requires Facts(g, t0, lost, root) && Inv(VolumeOf(g, t0)) && IsFile(VolumeOf(g, t0), path)
    requires var v := VolumeOf(g, t0);
             && 0 <= Parent(v, path) < |v| && Named(v[Parent(v, path)].entries, Last(path))
             && FsUnlink.Unlinked(g, t0, t1, Parent(v, path), Target(v, path),
                                  Removed(v[Parent(v, path)].entries, Last(path)), lost)
    ensures VolumeOf(g, t1) == UnlinkResult(VolumeOf(g, t0), path) && Inv(VolumeOf(g, t1)) && Sound(g, t1, lost')
    ensures UnlinkedFrom(g, t0, t1, path, lost, lost')
  {
    hide *;
    var v := VolumeOf(g, t0);
    UnlinkResultIs(v, path);
    var d, t := Parent(v, path), Target(v, path);
    LinksOf(g, t0);
    FileIs(g, t0, lost, root, t);
    FactsSound(g, t0, lost, root);
    NumberIs(g, t0, lost, root, d, t0.inodes[d]);
    NumberIs(g, t0, lost, root, t, t0.inodes[t]);
    KindOf(t0.inodes[t]);
    KindOf(t0.inodes[d]);
    UnlinkedView(g, t0, t1, d, t, Removed(v[d].entries, Last(path)), lost);
    lost' := if t0.inodes[t].nlink > 1 then lost else lost + T.Remains(g, t0.inodes[t], t0.data);
    UnlinkedFromNow(g, t0, t1, path, lost, lost');
  }

  lemma FactsSound(g: Geometry, t: Tables, lost: set<nat>, root: IndexNode)
    requires Facts(g, t, lost, root)
    ensures Sound(g, t, lost) && Shape(VolumeOf(g, t))
  {
  }

  lemma UnlinkedFromNow(g: Geometry, t0: Tables, t1: Tables, path: Path, lost: set<nat>, lost': set<nat>)
    requires var v := VolumeOf(g, t0);
             && IsFile(v, path) && 0 <= Parent(v, path) < |v|
             && var d, t := Parent(v, path), Target(v, path);
             && Named(v[d].entries, Last(path))
             && FsUnlink.Unlinked(g, t0, t1, d, t, Removed(v[d].entries, Last(path)), lost)
             && DataShape(g, t0.data) && NodeShape(g, t0.inodes[t])
             && t0.inodes[t].size >= 0
             && lost' == if t0.inodes[t].nlink > 1 then lost else lost + T.Remains(g, t0.inodes[t], t0.data)
    ensures UnlinkedFrom(g, t0, t1, path, lost, lost')
  {
    hide FsUnlink.Unlinked, T.Remains, Removed;
  }

  // What the link law says of unlink, step by step.
  lemma UnlinkResultIs(v: Volume, path: Path)
    requires Inv(v) && IsFile(v, path)
    ensures var d, t := Parent(v, path), Target(v, path);
            && path != [] && 0 <= d < |v| && t < |v| && d != t && v[t].nlink >= 1
            && IsDirectory(v, d) && !IsDirectory(v, t) && Named(v[d].entries, Last(path))
            && UnlinkResult(v, path)
               == v[t := v[t].(nlink := v[t].nlink - 1)][d := v[d].(entries := Removed(v[d].entries, Last(path)))]
    ensures Inv(UnlinkResult(v, path))
  {
    UnlinkedFacts(v, path);
    UnlinkCounts(v, path);
    UnlinkReach(v, path);
    hide Shape, CountsLinks, DirsReachable, Removed, Walk, Lookup, UnlinkResult;
  }

  // The root's copy is fresh.
  lemma WholeRoot(g: Geometry, t: Tables, lost: set<nat>, root: IndexNode)
    requires Facts(g, t, lost, root) && root == t.inodes[0]
    ensures var v := VolumeOf(g, t);
            |v| > 0 && v[0].isDir && First(v, CountOf(root)) == v[0].entries && CountOf(root) == |v[0].entries|
  {
  }

  // There is a slot for the entry of a new name, and not just one free block where two are needed.
  ghost predicate RoomAt(g: Geometry, t: Tables, path: Path) {
    Missing(VolumeOf(g, t), path) ==>
      var d := Parent(VolumeOf(g, t), path);
      CanPut(g, t.inodes[d], t.used, |VolumeOf(g, t)[d].entries|)
  }

  lemma RoomThere(g: Geometry, t: Tables, path: Path)
    requires RoomAt(g, t, path) && Missing(VolumeOf(g, t), path)
    ensures path != []
    ensures var d := Parent(VolumeOf(g, t), path);
            0 <= d < |t.inodes| && CanPut(g, t.inodes[d], t.used, |VolumeOf(g, t)[d].entries|)
  {
  }

  lemma FactsParts(g: Geometry, t: Tables, lost: set<nat>, root: IndexNode)
    requires Facts(g, t, lost, root)
    ensures Owned(g, t.used, t.inodes, t.data, Nobody(lost)) && |t.inodes| == g.NodeCount() < 0x8000
    ensures |VolumeOf(g, t)| == |t.inodes| && g.Valid()
  {
  }

  // What is at the end of a path.
  lemma FoundIs(v: Volume, path: Path, parent: int, number: int)
    requires Inv(v) && -1 <= number < |v| && (path == [] ==> number == 0)
    requires path != [] ==>
               && IsDirectory(v, Parent(v, path)) && parent == Parent(v, path)
               && number == Lookup(v[parent].entries, Last(path))
    ensures number >= 0 ==> !Missing(v, path) && (IsFile(v, path) <==> !IsDirectory(v, number))
    ensures number >= 0 && IsFile(v, path) ==> Target(v, path) == number && v[number].nlink >= 1
    ensures number < 0 ==> Missing(v, path) && !IsFile(v, path)
  {
    assert NodeOK(v[0], |v|);
    if IsFile(v, path) {
      UnlinkedFacts(v, path);
    }
    hide Walk, Lookup;
  }

  lemma NothingFound(v: Volume, path: Path)
    requires path != [] && !IsDirectory(v, Parent(v, path))
    ensures !Missing(v, path) && !IsFile(v, path)
  {
  }

  lemma LinksOf(g: Geometry, t: Tables)
    ensures |VolumeOf(g, t)| == |t.inodes|
    ensures forall x :: 0 <= x < |t.inodes| ==> VolumeOf(g, t)[x].nlink == t.inodes[x].nlink
  {
  }

  lemma NewNodeShape(v: Volume, x: nat, isDir: bool)
    requires Shape(v) && x < |v| && v[x].nlink == 0
    ensures x != 0 && Shape(v[x := Inode(1, isDir, [])])
  {
  }

  // The tables after creat has written the new node.
  lemma NewNodeFacts(g: Geometry, t0: Tables, t1: Tables, lost: set<nat>, root: IndexNode, x: nat, mode: Short)
    requires Facts(g, t0, lost, root) && root == t0.inodes[0] && x < |t0.inodes| && t0.inodes[x].nlink == 0
    requires t1 == t0.(inodes := t0.inodes[x := T.NewNode(mode)])
    requires OthersSame(g, t0.inodes, t0.data, t1.inodes, t1.data, x)
    requires Owned(g, t1.used, t1.inodes, t1.data, Nobody(lost))
    ensures Facts(g, t1, lost, root) && x != 0 && |t1.inodes| == |t0.inodes|
    ensures VolumeOf(g, t1) == VolumeOf(g, t0)[x := Inode(1, 0x4000 <= mode < 0x5000, [])]
    ensures Live(T.NewNode(mode))
  {
    NewNodeView(g, t0, t1, x, mode, lost);
    LinksOf(g, t0);
    NewNodeShape(VolumeOf(g, t0), x, 0x4000 <= mode < 0x5000);
    hide Sound, Shape, CopyOf, OthersSame, Owned;
  }

  // creat over a file changes nothing the law is about.
  lemma EmptiedFacts(g: Geometry, t0: Tables, t1: Tables, lost: set<nat>, root: IndexNode, n: nat)
    requires Facts(g, t0, lost, root) && n < |t0.inodes| && !IsDir(t0.inodes[n])
    requires T.Emptied(g, t1.used, t0.inodes, t0.data, t1.inodes, t1.data, n, t0.inodes[n], lost)
    ensures Facts(g, t1, lost, root) && VolumeOf(g, t1) == VolumeOf(g, t0) && |t1.inodes| == |t0.inodes|
    ensures t1.inodes[n].nlink == t0.inodes[n].nlink && t1.inodes[n].size == 0
  {
    EmptiedView(g, t0, t1, n, lost);
    LinksOf(g, t0);
    RootIsDir(VolumeOf(g, t0));
    DirectoryIs(g, t0, lost, 0);
    FsUnlink.OtherUntouched(g, t0.inodes, t0.data, t1.inodes, t1.data, n, 0);
    UntouchedStays(g, t0.inodes[0], t0.data, t1.data);
    var count := |VolumeOf(g, t0)[0].entries|;
    hide Sound, Shape, OthersSame, Owned, Untouched, BlocksStay, T.Covered, Lists, Leads, FileOK;
    CopyNext(g, root, t0.inodes[0], t0.data, count, t1.inodes[0], t1.data, count);
  }

  lemma NewNameIsFound(g: Geometry, was: Tables, now: Tables, path: Path, x: int, mode: Short)
    requires CreatedFrom(g, was, now, path, x, mode) && Inv(VolumeOf(g, was))
    ensures var v, v' := VolumeOf(g, was), VolumeOf(g, now);
            HasRoomFor(g, was, path) ==>
              && Walk(v', 0, path) == x
              && forall q: Path :: Walk(v, 0, q) != -1 ==> Walk(v', 0, q) == Walk(v, 0, q)
  {
    CreatedIsFound(VolumeOf(g, was), path, x, 0x4000 <= mode < 0x5000);
    hide VolumeOf, Walk, Created, CreatedShort, OnlyChanged, HasRoomFor, TakenFor, Shape, T.NewNode;
  }

  lemma NoFileYet(v: Volume, path: Path)
    requires Missing(v, path)
    ensures !IsFile(v, path)
  {
  }

  // Emptying a file keeps its mode, its links and its owner.
  lemma EmptiedNode(g: Geometry, t0: Tables, t1: Tables, n: nat, lost: set<nat>)
    requires n < |t0.inodes| == |t1.inodes|
    requires T.Emptied(g, t1.used, t0.inodes, t0.data, t1.inodes, t1.data, n, t0.inodes[n], lost)
    ensures var was, now := t0.inodes[n], t1.inodes[n];
            && now.mode == was.mode && now.nlink == was.nlink && now.uid == was.uid && now.gid == was.gid
            && now.indirect == was.indirect
  {
  }

  // A file can be emptied.
  lemma FileIs(g: Geometry, t: Tables, lost: set<nat>, root: IndexNode, n: nat)
    requires Facts(g, t, lost, root) && n < |t.inodes| && VolumeOf(g, t)[n].nlink >= 1
    ensures Owned(g, t.used, t.inodes, t.data, Nobody(lost)) && |t.inodes| == g.NodeCount()
    ensures t.inodes[n].nlink >= 1 && Live(t.inodes[n]) && t.inodes[n].size >= 0 && K.Fits(g, t.inodes[n].size)
  {
  }

  lemma PrefixPath(v: Volume, path: Path)
    requires Missing(v, path)
    ensures path != [] && |path[..|path| - 1]| == |path| - 1
  {
  }

  lemma EntryFits(x: nat, name: Name)
    requires Entry(0, name).Fits() && x < 0x8000
    ensures Entry(x, name).Fits()
  {
  }

  // Opening the directory again leads to the same one: the new node is not named yet.
  lemma Reopened(g: Geometry, t: Tables, lost: set<nat>, root: IndexNode, v: Volume, path: Path, x: nat, isDir: bool)
    requires Inv(v) && Missing(v, path) && x < |v| && v[x].nlink == 0
    requires Facts(g, t, lost, root) && root == t.inodes[0] && VolumeOf(g, t) == v[x := Inode(1, isDir, [])]
    ensures var v1, d := VolumeOf(g, t), Parent(v, path);
            && Resolve(v1, First(v1, CountOf(root)), path[..|path| - 1]) == d && 0 <= d < |v| == |t.inodes|
            && d != x && x != 0
            && x < 0x8000 && v[d].isDir && v1[d] == v[d] && IsDirectory(v1, d)
  {
    var v1, d := VolumeOf(g, t), Parent(v, path);
    UnlinkedIsUnnamed(v, x);
    WalkAround(v, x, Inode(1, isDir, []), 0, path[..|path| - 1]);
    RootIsDir(v1);
    assert NodeOK(v[d], |v|);
    DirectoryIs(g, t, lost, 0);
    EntriesCount(|v1[0].entries|, t.inodes[0].size);
    assert First(v1, CountOf(root)) == v1[0].entries;
    ResolveFresh(v1, path[..|path| - 1]);
  }

  // The reopened directory can be edited.
  lemma OpenForEntry(fd: FileDescriptor, t: Tables, lost: set<nat>, root: IndexNode, v: Volume, path: Path, x: nat,
                     isDir: bool)
    requires fd.Readable() && fd.held == Nobody(lost) && t == Tables(fd.fs.used, fd.fs.inodes, fd.fs.data)
    requires Inv(v) && Missing(v, path) && x < |v|
    requires Facts(fd.fs.g, t, lost, root) && VolumeOf(fd.fs.g, t) == v[x := Inode(1, isDir, [])]
    requires fd.indexNodeNumber == Parent(v, path) != x
    requires fd.indexNodeNumber < |t.inodes| && fd.indexNode == t.inodes[fd.indexNodeNumber]
    ensures fd.Valid() && Lists(fd.fs.g, fd.indexNode, fd.fs.data, v[fd.indexNodeNumber].entries)
    ensures fd.Now() == Snapshot(t.inodes, t.used, t.data, fd.indexNode)
  {
    DirectoryIs(fd.fs.g, t, lost, fd.indexNodeNumber);
    assert t.inodes == Owners(t.inodes, Nobody(lost));
    hide Lists, Ownership, Leads, Shape, FileOK;
  }

  // What an edit of a directory of the disk comes to.
  ghost predicate Edited(g: Geometry, t1: Tables, t2: Tables, d: nat, s: seq<Entry>, lost: set<nat>) {
    && d < |t1.inodes| == |t2.inodes| == g.NodeCount()
    && K.Went(g, Snapshot(t1.inodes, t1.used, t1.data, t1.inodes[d]),
              Snapshot(t2.inodes, t2.used, t2.data, t2.inodes[d]), d)
    && Owned(g, t2.used, t2.inodes, t2.data, Nobody(lost)) && Lists(g, t2.inodes[d], t2.data, s)
  }

  lemma EndedParts(fd: FileDescriptor, s: seq<Entry>, ok: bool, was: Snapshot, t1: Tables, lost: set<nat>)
    requires Ended(fd, s, ok, was) && fd.held == Nobody(lost) && fd.indexNodeNumber < |t1.inodes|
    requires was == Snapshot(t1.inodes, t1.used, t1.data, t1.inodes[fd.indexNodeNumber])
    ensures fd.fs.Valid() && |s| > 0
    ensures Edited(fd.fs.g, t1, Tables(fd.fs.used, fd.fs.inodes, fd.fs.data), fd.indexNodeNumber,
                   if ok then s else s[..|s| - 1], lost)
    ensures ok <==> HasRoom(fd.fs.g, t1.inodes[fd.indexNodeNumber], t1.data, t1.used, |s| - 1)
    ensures |fd.fs.used|
            == |t1.used| + if ok then Taken(fd.fs.g, t1.inodes[fd.indexNodeNumber], t1.data, |s| - 1) else 0
    ensures OnlyChanged(fd.fs.g, t1.inodes, t1.data, fd.fs.inodes, fd.fs.data, {fd.indexNodeNumber})
  {
    K.ValidFile(fd);
    assert fd.Files() == fd.fs.inodes;
    OnlyOneChanged(fd.fs.g, t1.inodes, t1.data, fd.fs.inodes, fd.fs.data, fd.indexNodeNumber);
    hide Lists, Ownership, BlocksStay, HasRoom, Taken, Leads, Untouched, FileOK, NodeShape, OnlyChanged;
  }

  lemma EntriesShape(v: Volume, d: nat, s: seq<Entry>)
    requires Shape(v) && d < |v| && v[d].isDir && Sorted(s) && InRange(s, |v|)
    ensures Shape(v[d := v[d].(entries := s)])
  {
  }

  // One directory has been edited: what it lists is what has changed.
  lemma DirectoryEdited(g: Geometry, t1: Tables, t2: Tables, lost: set<nat>, root: IndexNode, d: nat, s: seq<Entry>)
    requires Facts(g, t1, lost, root) && Edited(g, t1, t2, d, s, lost) && IsDir(t1.inodes[d])
    requires Sorted(s) && InRange(s, |t1.inodes|) && |VolumeOf(g, t1)[d].entries| <= |s|
    ensures VolumeOf(g, t2) == VolumeOf(g, t1)[d := VolumeOf(g, t1)[d].(entries := s)] && Facts(g, t2, lost, root)
  {
    ShapeLinksDirs(g, t1);
    ListingChanged(g, t1, t2, d, s, lost);
    DirectoryIs(g, t1, lost, d);
    DirectoryIs(g, t1, lost, 0);
    RootIsDir(VolumeOf(g, t1));
    EntriesShape(VolumeOf(g, t1), d, s);
    RootStays(g, t1, t2, d);
    hide Lists, Ownership, BlocksStay, Shape, Sorted, Sound, OthersSame, Leads, FileOK, K.Went;
    CopyNext(g, root, t1.inodes[0], t1.data, |VolumeOf(g, t1)[0].entries|, t2.inodes[0], t2.data,
             |VolumeOf(g, t2)[0].entries|);
  }

  lemma RootStays(g: Geometry, t1: Tables, t2: Tables, d: nat)
    requires |t1.inodes| > 0 && d < |t1.inodes| == |t2.inodes| && Live(t1.inodes[0])
    requires K.Went(g, Snapshot(t1.inodes, t1.used, t1.data, t1.inodes[d]),
                    Snapshot(t2.inodes, t2.used, t2.data, t2.inodes[d]), d)
    ensures BlocksStay(g, t1.inodes[0], t1.data, t2.inodes[0], t2.data)
  {
  }

  lemma SortedPrefix(s: seq<Entry>, n: nat, limit: nat)
    requires Sorted(s) && InRange(s, limit) && n <= |s|
    ensures Sorted(s[..n]) && InRange(s[..n], limit)
  {
  }

  // The new entry is in, or the last one is lost.
  lemma EntryMade(g: Geometry, t1: Tables, t2: Tables, lost: set<nat>, root: IndexNode, v: Volume, path: Path, x: nat,
                  isDir: bool, ok: bool)
    requires Inv(v) && Missing(v, path) && x < |v| && v[x].nlink == 0
    requires Facts(g, t1, lost, root) && VolumeOf(g, t1) == v[x := Inode(1, isDir, [])]
    requires Parent(v, path) < |t1.inodes| && Parent(v, path) != x
    requires var s := Inserted(v[Parent(v, path)].entries, Entry(x, Last(path)));
             |s| > 0 && Edited(g, t1, t2, Parent(v, path), if ok then s else s[..|s| - 1], lost)
    ensures Facts(g, t2, lost, root)
    ensures VolumeOf(g, t2) == if ok then Created(v, path, x, isDir) else CreatedShort(v, path, x, isDir)
  {
    hide *;
    PrefixPath(v, path);
    NewListing(v, path, x);
    var d := Parent(v, path);
    var s := Inserted(v[d].entries, Entry(x, Last(path)));
    SortedPrefix(s, |s| - 1, |v|);
    CreatedIs(v, path, x, isDir);
    NumberIs(g, t1, lost, root, d, t1.inodes[d]);
    DirectoryEdited(g, t1, t2, lost, root, d, if ok then s else s[..|s| - 1]);
  }

  lemma NewListing(v: Volume, path: Path, x: nat)
    requires Inv(v) && Missing(v, path) && x < |v|
    ensures |v| < 0x8000 && 0 <= Parent(v, path) < |v| && IsDirectory(v, Parent(v, path)) && v[Parent(v, path)].isDir
    ensures var d := Parent(v, path);
            var s := Inserted(v[d].entries, Entry(x, Last(path)));
            Sorted(s) && InRange(s, |v|) && |s| == |v[d].entries| + 1
  {
    var d, e := Parent(v, path), Entry(x, Last(path));
    MissingIsUnnamed(v, path);
    assert NodeOK(v[d], |v|);
    InsertKeepsSorted(v[d].entries, e);
    InsertedInRange(v[d].entries, e, |v|);
    InsertedIs(v[d].entries, e);
    hide Sorted, Inserted, Walk, Named, Find, Less;
  }

  lemma CreatedIs(v: Volume, path: Path, x: nat, isDir: bool)
    requires Inv(v) && Missing(v, path) && x < |v| && v[x].nlink == 0
    ensures var d, v1 := Parent(v, path), v[x := Inode(1, isDir, [])];
            var s := Inserted(v[d].entries, Entry(x, Last(path)));
            && d != x && v1[d] == v[d] && IsDirectory(v1, d) && |v1| == |v| && |s| > 0
            && Created(v, path, x, isDir) == v1[d := v1[d].(entries := s)]
            && CreatedShort(v, path, x, isDir) == v1[d := v1[d].(entries := s[..|s| - 1])]
  {
    hide *;
    NewListing(v, path, x);
    ParentIsOther(v, path, x);
    CreatedParts(v, path, x, isDir);
    CreatedAtIs(v, Parent(v, path), Last(path), x, isDir);
  }

  lemma CreatedParts(v: Volume, path: Path, x: nat, isDir: bool)
    requires Missing(v, path) && x < |v| < 0x8000
    ensures var d, v2 := Parent(v, path), Created(v, path, x, isDir);
            && path != [] && 0 <= d < |v| == |v2| && v2 == CreatedAt(v, d, Last(path), x, isDir)
            && (|v2[d].entries| > 0 ==>
                  CreatedShort(v, path, x, isDir) == v2[d := v2[d].(entries := v2[d].entries[..|v2[d].entries| - 1])])
  {
  }

  lemma CreatedAtIs(v: Volume, d: nat, name: Name, x: nat, isDir: bool)
    requires d < |v| && x < |v| < 0x8000 && d != x && v[d].isDir
    ensures var v1, s := v[x := Inode(1, isDir, [])], Inserted(v[d].entries, Entry(x, name));
            var v2 := CreatedAt(v, d, name, x, isDir);
            && v1[d] == v[d] && IsDirectory(v1, d) && |v1| == |v| && |s| > 0
            && v2 == v1[d := v1[d].(entries := s)]
            && v2[d := v2[d].(entries := v2[d].entries[..|v2[d].entries| - 1])]
               == v1[d := v1[d].(entries := s[..|s| - 1])]
  {
  }

  lemma ParentIsOther(v: Volume, path: Path, x: nat)
    requires Inv(v) && Missing(v, path) && x < |v| && v[x].nlink == 0
    ensures Parent(v, path) != x && IsDirectory(v[x := Inode(1, true, [])], Parent(v, path))
  {
  }

  lemma BootedParts(k: Kernel)
    requires k.Booted()
    ensures k.Running() && Inv(k.View()) && k.fs.Valid() && |k.fs.inodes| == k.fs.g.NodeCount() >= 1
    ensures k.root == k.fs.inodes[0] && |k.View()| == |k.fs.inodes|
    ensures var t := Tables(k.fs.used, k.fs.inodes, k.fs.data);
            k.fs.Now() == t && k.View() == VolumeOf(k.fs.g, t) && Facts(k.fs.g, t, k.lost, k.root)
  {
    RunningParts(k);
    hide FileSystem.Valid, CopyOf, Shape, Owned, AllSound, Facts, Inv;
  }

  lemma BootedAgain(k: Kernel, t: Tables)
    requires k.fs.Valid() && t == Tables(k.fs.used, k.fs.inodes, k.fs.data) && Facts(k.fs.g, t, k.lost, k.root)
    requires Inv(VolumeOf(k.fs.g, t)) && |t.inodes| > 0 && k.root == t.inodes[0]
    ensures k.Booted() && k.fs.Now() == t && k.View() == VolumeOf(k.fs.g, t)
  {
    RunningAgain(k, t);
    hide FileSystem.Valid, CopyOf, Shape, Owned, AllSound, Inv;
  }

  // What a number found on the way is.
  lemma NumberIs(g: Geometry, t: Tables, lost: set<nat>, root: IndexNode, number: int, node: IndexNode)
    requires Facts(g, t, lost, root)
    requires -1 <= number < |t.inodes| && (number >= 0 ==> node == t.inodes[number])
    ensures |VolumeOf(g, t)| == |t.inodes|
    ensures number >= 0 ==>
              && (IsDirectory(VolumeOf(g, t), number) <==> 0x4000 <= node.mode < 0x5000)
              && (IsDir(node) <==> 0x4000 <= node.mode < 0x5000)
              && InRange(VolumeOf(g, t)[number].entries, |t.inodes|)
              && (IsDir(node) ==>
                    && DataShape(g, t.data) && Leads(g, node, t.data)
                    && Lists(g, node, t.data, VolumeOf(g, t)[number].entries)
                    && Live(node) && node.size >= 0 && FileOK(g, node, t.data))
    ensures number < 0 ==> !IsDirectory(VolumeOf(g, t), number)
  {
    if number >= 0 {
      DirectoryIs(g, t, lost, number);
    }
    hide Lists, Sound, Shape, Leads, FileOK;
  }

  lemma NodesOf(fs: FileSystem)
    requires fs.Valid()
    ensures |VolumeOf(fs.g, fs.Now())| == |fs.inodes|
    ensures |fs.inodes| == fs.g.NodeCount() >= 1 && fs.g.Valid() && fs.Now() == Tables(fs.used, fs.inodes, fs.data)
  {
  }

  lemma BootedNow(k: Kernel, t: Tables)
    requires k.fs.Valid() && k.fs.Now() == t && Sound(k.fs.g, t, k.lost) && Inv(VolumeOf(k.fs.g, t)) && |t.inodes| > 0
    requires k.root == t.inodes[0]
    ensures k.Booted()
  {
    DirectoryIs(k.fs.g, t, k.lost, 0);
    CopyStart(k.fs.g, k.root, t.data, VolumeOf(k.fs.g, t)[0].entries);
    hide FileSystem.Valid, Sound, Lists, CopyOf;
  }

  // What a running kernel knows of the tables.
  ghost predicate Facts(g: Geometry, t: Tables, lost: set<nat>, root: IndexNode) {
    && Sound(g, t, lost) && Shape(VolumeOf(g, t)) && |t.inodes| > 0
    && CopyOf(g, root, t.inodes[0], t.data, |VolumeOf(g, t)[0].entries|)
  }

  lemma RunningParts(k: Kernel)
    requires k.Running()
    ensures k.fs.Valid() && |k.fs.inodes| == k.fs.g.NodeCount() >= 1
    ensures var t := Tables(k.fs.used, k.fs.inodes, k.fs.data);
            && k.fs.Now() == t && k.View() == VolumeOf(k.fs.g, t) && k.Cached() == First(k.View(), CountOf(k.root))
            && Facts(k.fs.g, t, k.lost, k.root) && Sound(k.fs.g, t, k.lost)
  {
    hide CopyOf, Shape, Owned, AllSound;
  }

  lemma RunningAgain(k: Kernel, t: Tables)
    requires k.fs.Valid() && t == Tables(k.fs.used, k.fs.inodes, k.fs.data) && Facts(k.fs.g, t, k.lost, k.root)
    ensures k.Running()
    ensures k.fs.Now() == t && k.View() == VolumeOf(k.fs.g, t) && k.Cached() == First(k.View(), CountOf(k.root))
  {
  }

  // The next name can be looked for.
  lemma StepReady(g: Geometry, t: Tables, lost: set<nat>, root: IndexNode, path: Path, i: nat, r: int, node: IndexNode)
    requires Facts(g, t, lost, root)
    requires OnPath(VolumeOf(g, t), First(VolumeOf(g, t), CountOf(root)), path, i, r)
    requires if i == 0 then r == 0 && node == root else 0 <= r < |t.inodes| && node == t.inodes[r]
    ensures IsDir(node) <==> i == 0 || IsDirectory(VolumeOf(g, t), r)
    ensures |VolumeOf(g, t)| == |t.inodes|
    ensures var s := EntriesAt(VolumeOf(g, t), First(VolumeOf(g, t), CountOf(root)), i, r);
            && InRange(s, |t.inodes|)
            && (IsDir(node) ==> DataShape(g, t.data) && Leads(g, node, t.data) && Lists(g, node, t.data, s))
  {
    DirectoryIs(g, t, lost, r);
    if i == 0 {
      RootIsDir(VolumeOf(g, t));
      CopyLeads(g, root, t.inodes[0], t.data, |VolumeOf(g, t)[0].entries|);
      CopyLists(g, root, t.inodes[0], t.data, VolumeOf(g, t)[0].entries);
    }
    hide Lists, Sound, Shape, Leads, FileOK, VolumeOf;
  }

  lemma RootIsDir(v: Volume)
    requires Shape(v)
    ensures |v| > 0 && v[0].isDir && v[0].nlink > 0
  {
  }
}
