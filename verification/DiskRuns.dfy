/** Runs of requests on the disk, one request to a boot. What a request does to the disk, and whether it keeps the
    link law, can be told from the disk before it; after any run of harmless requests from mkfs fsck has no link
    count and no free block to report. */
module DiskRuns {
  import opened FsCodec
  import opened FsGeometry
  import opened FsFile
  import opened FsVolume
  import opened FsDescriptor
  import opened DirectoryEntries
  import opened FsDirectory
  import opened FsView
  import opened LinkLaw
  import opened DiskKernel
  import opened DiskMkdir
  import opened DiskWrite
  import Collections
  import DiskFsck
  import Fsck
  import FsckBlocks
  import FsckVerdict
  import FsUnlink
  import MkfsImage
  import K = FsKernel
  import T = FsTruncate

  // What a user asks for.
  datatype Request =
    | MakeFile(path: Path, mode: Short)
    | MakeDirectory(path: Path)
    | Remove(path: Path)
    | Write(path: Path, offset: nat, buf: seq<Byte>)

  // A disk at rest, with the blocks that are lost.
  datatype State = State(tables: Tables, lost: set<nat>)

  // The request makes something new.
  ghost predicate Adds(v: Volume, q: Request) {
    (q.MakeFile? || q.MakeDirectory?) && Missing(v, q.path) && HasFreeNode(v)
  }

  // A new name fits its cell and the directory has a slot for it; creat is not asked for a directory; no link count
  // is at its limit; a write is to no directory, and within what the pointers of the file can reach.
  ghost predicate Feasible(g: Geometry, t: Tables, q: Request) {
    var v := VolumeOf(g, t);
    match q
    case MakeFile(path, mode) =>
      !(0x4000 <= mode < 0x5000) && (Missing(v, path) ==> Entry(0, Last(path)).Fits() && RoomAt(g, t, path))
    case MakeDirectory(path) =>
      && (forall y :: 0 <= y < |v| ==> v[y].nlink < 0x7FFF)
      && (Missing(v, path) ==> Entry(0, Last(path)).Fits() && RoomAt(g, t, path))
    case Remove(path) => true
    case Write(path, offset, buf) =>
      !IsDirectory(v, Walk(v, 0, path)) && WriteFits(g, t, path, offset, |buf|)
  }

  // There is room for a new entry, and mkdir is not asked to make a directory where there is a file.
  ghost predicate Harmless(g: Geometry, t: Tables, q: Request) {
    var v := VolumeOf(g, t);
    && (Adds(v, q) ==> HasRoomFor(g, t, q.path))
    && (q.MakeDirectory? && Shape(v) && IsFile(v, q.path) && HasRoomOnceEmpty(g, t, Target(v, q.path)) ==>
          OwnParent(v, q.path))
  }

  // The blocks a request loses: what remains of a file that unlink takes the last link of.
  ghost function Leaves(g: Geometry, was: Tables, q: Request): set<nat> {
    var v := VolumeOf(g, was);
    if q.Remove? && IsFile(v, q.path) && Target(v, q.path) < |was.inodes| then
      var node := was.inodes[Target(v, q.path)];
      if node.nlink <= 1 && DataShape(g, was.data) && NodeShape(g, node) && node.size >= 0
      then T.Remains(g, node, was.data)
      else {}
    else {}
  }

  // What one request does to the disk. The number r is the node a new file got, or what the write came back with.
  ghost predicate Did(g: Geometry, was: State, q: Request, r: int, now: State) {
    var v := VolumeOf(g, was.tables);
    && Sound(g, now.tables, now.lost) && (!q.Remove? ==> now.lost == was.lost)
    && if IsFile(v, q.path) then DidToFile(g, was, q, r, now)
       else if Adds(v, q) then DidAdd(g, was.tables, q, r, now.tables)
       else now == was
  }

  ghost predicate DidToFile(g: Geometry, was: State, q: Request, r: int, now: State)
    requires IsFile(VolumeOf(g, was.tables), q.path)
  {
    match q
    case MakeFile(path, _) => EmptiedFrom(g, was.tables, now.tables, path, was.lost)
    case MakeDirectory(path) => MadeFrom(g, was.tables, now.tables, path, r)
    case Remove(path) => UnlinkedFrom(g, was.tables, now.tables, path, was.lost, now.lost)
    case Write(path, offset, buf) =>
      WroteFile(g, was.tables, now.tables, Target(VolumeOf(g, was.tables), path), offset, buf, r)
  }

  ghost predicate DidAdd(g: Geometry, was: Tables, q: Request, r: int, now: Tables) {
    if q.MakeFile? then !(0x4000 <= q.mode < 0x5000) && CreatedFrom(g, was, now, q.path, r, q.mode)
    else MadeFrom(g, was, now, q.path, r)
  }

  // The exit status.
  ghost function Answer(g: Geometry, was: Tables, q: Request, left: int, r: int): int {
    var v := VolumeOf(g, was);
    match q
    case MakeFile(path, _) => if IsFile(v, path) || Adds(v, q) then 0 else -1
    case MakeDirectory(path) =>
      if !(IsFile(v, path) || Adds(v, q)) then 2 else if MkdirSpace(g, was, path).Enough? then 0 else 4
    case Remove(path) => if IsFile(v, path) then left else -1
    case Write(path, _, _) => if IsFile(v, path) then r else -1
  }

  // ----- what it means for the volume -----

  ghost function After(g: Geometry, t: Tables, q: Request, r: int): Volume {
    var v := VolumeOf(g, t);
    match q
    case MakeFile(path, _) =>
      if Shape(v) && Adds(v, q) && Fresh(v, path, r) && r >= 0
      then CreatResult(v, path, r, if HasRoomFor(g, t, path) then Enough else NoEntry)
      else v
    case MakeDirectory(path) =>
      if Shape(v) && (IsFile(v, path) || Adds(v, q)) && Fresh(v, path, r) && r >= 0
      then MkdirResult(v, path, r, MkdirSpace(g, t, path))
      else v
    case Remove(path) => UnlinkResult(v, path)
    case Write(_, _, _) => v
  }

  // The node of something new was free.
  ghost predicate Took(v: Volume, q: Request, r: int) {
    && (Adds(v, q) ==> Fresh(v, q.path, r) && r >= 0)
    && (q.MakeDirectory? && IsFile(v, q.path) ==> Fresh(v, q.path, r) && r >= 0)
  }

  lemma WrittenVolume(g: Geometry, was: State, now: State, n: nat, offset: nat, buf: seq<Byte>, r: int)
    requires Sound(g, was.tables, was.lost) && Sound(g, now.tables, now.lost) && Shape(VolumeOf(g, was.tables))
    requires WroteFile(g, was.tables, now.tables, n, offset, buf, r) && !IsDir(was.tables.inodes[n])
    ensures VolumeOf(g, now.tables) == VolumeOf(g, was.tables)
  {
    ShapeLinksDirs(g, was.tables);
    FileView(g, was.tables.inodes[n], was.tables.data);
    FileView(g, now.tables.inodes[n], now.tables.data);
    hide NodeView, NodeSound, Owned, OnlyChanged, Shape, FileWritten, Contents, K.Spare, K.Free, Quot, Rem;
    OneViewChanged(g, was.tables, now.tables, n);
  }

  lemma UnlinkedVolume(g: Geometry, was: State, now: State, path: Path)
    requires Sound(g, was.tables, was.lost) && Inv(VolumeOf(g, was.tables))
    requires UnlinkedFrom(g, was.tables, now.tables, path, was.lost, now.lost)
    ensures VolumeOf(g, now.tables) == UnlinkResult(VolumeOf(g, was.tables), path)
  {
    hide *;
    var v := VolumeOf(g, was.tables);
    UnlinkedFromParts(g, was.tables, now.tables, path, was.lost, now.lost);
    InvShape(v);
    UnlinkResultIs(v, path);
    var d, t := Parent(v, path), Target(v, path);
    LinksOf(g, was.tables);
    KindsOf(g, was.tables);
    UnlinkedView(g, was.tables, now.tables, d, t, Removed(v[d].entries, Last(path)), was.lost);
  }

  lemma KindsOf(g: Geometry, t: Tables)
    ensures |VolumeOf(g, t)| == |t.inodes|
    ensures forall x :: 0 <= x < |t.inodes| ==> (IsDirectory(VolumeOf(g, t), x) <==> IsDir(t.inodes[x]))
  {
  }

  lemma UnlinkedFromParts(g: Geometry, was: Tables, now: Tables, path: Path, lost: set<nat>, lost': set<nat>)
    requires UnlinkedFrom(g, was, now, path, lost, lost')
    ensures var v := VolumeOf(g, was);
            && IsFile(v, path) && path != [] && 0 <= Parent(v, path) < |v| == |was.inodes|
            && Named(v[Parent(v, path)].entries, Last(path))
            && FsUnlink.Unlinked(g, was, now, Parent(v, path), Target(v, path),
                                 Removed(v[Parent(v, path)].entries, Last(path)), lost)
  {
    hide FsUnlink.Unlinked, T.Remains, Removed, VolumeOf;
  }

  lemma InvShape(v: Volume)
    requires Inv(v)
    ensures Shape(v)
  {
  }

  // Each request does to the volume what the link law says of it.
  lemma VolumeAfter(g: Geometry, was: State, q: Request, r: int, now: State)
    requires Sound(g, was.tables, was.lost) && Inv(VolumeOf(g, was.tables)) && Did(g, was, q, r, now)
    ensures VolumeOf(g, now.tables) == After(g, was.tables, q, r) && Took(VolumeOf(g, was.tables), q, r)
  {
    hide *;
    var v := VolumeOf(g, was.tables);
    InvShape(v);
    DidParts(g, was, q, r, now);
    if IsFile(v, q.path) {
      match q
      case MakeFile(path, _) => CreatOverFile(g, was, q, r, now);
      case MakeDirectory(path) => MkdirAfter(g, was, q, r, now);
      case Remove(path) => UnlinkAfter(g, was, q, r, now);
      case Write(_, _, _) => WriteAfter(g, was, q, r, now);
    } else if Adds(v, q) {
      if q.MakeFile? {
        CreatAfter(g, was, q, r, now);
      } else {
        MkdirAfter(g, was, q, r, now);
      }
    } else {
      NothingAfter(g, was.tables, q, r);
    }
  }

  lemma DidParts(g: Geometry, was: State, q: Request, r: int, now: State)
    requires Did(g, was, q, r, now)
    ensures Sound(g, now.tables, now.lost)
    ensures var v := VolumeOf(g, was.tables);
            && (IsFile(v, q.path) ==> !Adds(v, q))
            && (IsFile(v, q.path) && q.MakeFile? ==> EmptiedFrom(g, was.tables, now.tables, q.path, was.lost))
            && ((IsFile(v, q.path) || Adds(v, q)) && q.MakeDirectory? ==>
                  MadeFrom(g, was.tables, now.tables, q.path, r))
            && (IsFile(v, q.path) && q.Remove? ==>
                  UnlinkedFrom(g, was.tables, now.tables, q.path, was.lost, now.lost))
            && (IsFile(v, q.path) && q.Write? ==>
                  WroteFile(g, was.tables, now.tables, Target(v, q.path), q.offset, q.buf, r))
            && (Adds(v, q) && q.MakeFile? ==>
                  && !(0x4000 <= q.mode < 0x5000)
                  && CreatedFrom(g, was.tables, now.tables, q.path, r, q.mode))
            && (Adds(v, q) ==> q.MakeFile? || q.MakeDirectory?)
            && (!IsFile(v, q.path) && !Adds(v, q) ==> now == was)
  {
    AddsIs(VolumeOf(g, was.tables), q);
    hide Sound, VolumeOf, IsFile, Adds, EmptiedFrom, MadeFrom, UnlinkedFrom, WroteFile, CreatedFrom, Target;
  }

  lemma CreatOverFile(g: Geometry, was: State, q: Request, r: int, now: State)
    requires q.MakeFile? && EmptiedFrom(g, was.tables, now.tables, q.path, was.lost)
    ensures VolumeOf(g, now.tables) == After(g, was.tables, q, r) && Took(VolumeOf(g, was.tables), q, r)
  {
    AddsIs(VolumeOf(g, was.tables), q);
    hide VolumeOf, IsFile, Adds, T.Emptied, HasRoom, HasRoomOnceEmpty, Target, CreatResult, Fresh, Shape;
  }

  lemma CreatAfter(g: Geometry, was: State, q: Request, r: int, now: State)
    requires q.MakeFile? && CreatedFrom(g, was.tables, now.tables, q.path, r, q.mode) && !(0x4000 <= q.mode < 0x5000)
    requires Shape(VolumeOf(g, was.tables)) && Adds(VolumeOf(g, was.tables), q)
    ensures VolumeOf(g, now.tables) == After(g, was.tables, q, r) && Took(VolumeOf(g, was.tables), q, r)
  {
    hide VolumeOf, Adds, Missing, Shape, OnlyChanged, HasRoomFor, TakenFor, Created, CreatedShort, Parent, T.NewNode;
  }

  lemma MkdirAfter(g: Geometry, was: State, q: Request, r: int, now: State)
    requires q.MakeDirectory? && MadeFrom(g, was.tables, now.tables, q.path, r)
    requires IsFile(VolumeOf(g, was.tables), q.path) || Adds(VolumeOf(g, was.tables), q)
    ensures VolumeOf(g, now.tables) == After(g, was.tables, q, r) && Took(VolumeOf(g, was.tables), q, r)
  {
    hide VolumeOf, Adds, Missing, IsFile, Shape, FilesKept, MkdirSpace, MkdirTakes, MkdirResult, Touched, Target, Fresh;
  }

  lemma UnlinkAfter(g: Geometry, was: State, q: Request, r: int, now: State)
    requires Sound(g, was.tables, was.lost) && Inv(VolumeOf(g, was.tables)) && q.Remove?
    requires UnlinkedFrom(g, was.tables, now.tables, q.path, was.lost, now.lost)
    ensures VolumeOf(g, now.tables) == After(g, was.tables, q, r) && Took(VolumeOf(g, was.tables), q, r)
  {
    UnlinkedVolume(g, was, now, q.path);
    hide VolumeOf, UnlinkResult, Inv, Sound, UnlinkedFrom;
  }

  lemma WriteAfter(g: Geometry, was: State, q: Request, r: int, now: State)
    requires Sound(g, was.tables, was.lost) && Sound(g, now.tables, now.lost) && Shape(VolumeOf(g, was.tables))
    requires q.Write? && IsFile(VolumeOf(g, was.tables), q.path)
    requires WroteFile(g, was.tables, now.tables, Target(VolumeOf(g, was.tables), q.path), q.offset, q.buf, r)
    ensures VolumeOf(g, now.tables) == After(g, was.tables, q, r) && Took(VolumeOf(g, was.tables), q, r)
  {
    TargetIsFile(g, was.tables, q.path);
    WrittenVolume(g, was, now, Target(VolumeOf(g, was.tables), q.path), q.offset, q.buf, r);
    hide VolumeOf, Sound, Shape, IsFile, Target, WroteFile;
  }

  lemma NothingAfter(g: Geometry, t: Tables, q: Request, r: int)
    requires !IsFile(VolumeOf(g, t), q.path) && !Adds(VolumeOf(g, t), q)
    ensures VolumeOf(g, t) == After(g, t, q, r) && Took(VolumeOf(g, t), q, r)
  {
    NotUnlinked(VolumeOf(g, t), q.path);
    hide VolumeOf, IsFile, Adds, UnlinkResult, Shape, Fresh;
  }

  lemma TargetIsFile(g: Geometry, t: Tables, path: Path)
    requires IsFile(VolumeOf(g, t), path)
    ensures Target(VolumeOf(g, t), path) < |t.inodes| && !IsDir(t.inodes[Target(VolumeOf(g, t), path)])
  {
  }

  // ----- the law -----

  lemma AfterKeepsInv(g: Geometry, t: Tables, q: Request, r: int)
    requires Inv(VolumeOf(g, t)) && Took(VolumeOf(g, t), q, r)
    ensures Inv(After(g, t, q, r)) <==> Harmless(g, t, q)
  {
    var v := VolumeOf(g, t);
    InvShape(v);
    hide Inv, Shape, HasRoomFor, HasRoomOnceEmpty, HasFreeNode, TakenFor, VolumeOf, MkdirResult, CreatResult, Parent,
      OwnParent, K.Free, Created, CreatedShort, UnlinkResult;
    match q
    case MakeFile(path, mode) =>
      if Adds(v, q) {
        AdditionKeepsInv(v, path, r, if HasRoomFor(g, t, path) then Enough else NoEntry, false);
      }
    case MakeDirectory(path) =>
      if Adds(v, q) {
        NoFileYet(v, path);
        AdditionKeepsInv(v, path, r, MkdirSpace(g, t, path), true);
      } else if IsFile(v, path) {
        NotMissing(v, path);
        OverFile(v, path, r, MkdirSpace(g, t, path));
      }
    case Remove(path) =>
      if IsFile(v, path) {
        UnlinkResultIs(v, path);
      } else {
        NotUnlinked(v, path);
      }
    case Write(_, _, _) =>
  }

  lemma OverFile(v: Volume, path: Path, r: int, space: Space)
    requires Inv(v) && Shape(v) && IsFile(v, path) && r >= 0 && Fresh(v, path, r) && !space.NoEntry?
    ensures Inv(MkdirResult(v, path, r, space)) <==> (space.Enough? ==> OwnParent(v, path))
  {
    NotMissing(v, path);
    if space.Enough? {
      MkdirOverFile(v, path, r);
    }
    hide Shape, CountsLinks, DirsReachable, OwnParent;
  }

  // Main result of one request: the law holds afterwards exactly when the request was harmless on the disk before.
  lemma LawAfter(g: Geometry, was: State, q: Request, r: int, now: State)
    requires Sound(g, was.tables, was.lost) && Inv(VolumeOf(g, was.tables)) && Did(g, was, q, r, now)
    ensures Inv(VolumeOf(g, now.tables)) <==> Harmless(g, was.tables, q)
  {
    hide *;
    VolumeAfter(g, was, q, r, now);
    AfterKeepsInv(g, was.tables, q, r);
  }

  // ----- the files that are not asked about -----

  // The files a request may change more of than the link count.
  ghost function Changes(v: Volume, q: Request, r: int): set<nat> {
    if IsFile(v, q.path) then
      if q.Remove? && Parent(v, q.path) >= 0 then {Parent(v, q.path), Target(v, q.path)} else {Target(v, q.path)}
    else if Adds(v, q) && r >= 0 && Parent(v, q.path) >= 0 then {Parent(v, q.path), r}
    else {}
  }

  // Every other file holds what it held where it held it.
  lemma OthersAreKept(g: Geometry, was: State, q: Request, r: int, now: State)
    requires Sound(g, was.tables, was.lost) && Inv(VolumeOf(g, was.tables)) && Did(g, was, q, r, now)
    ensures FilesKept(g, was.tables.inodes, was.tables.data, now.tables.inodes, now.tables.data,
                      Changes(VolumeOf(g, was.tables), q, r))
  {
    var v := VolumeOf(g, was.tables);
    hide Sound, Inv, Shape, HasFreeNode, HasRoomFor, MkdirSpace, VolumeOf, OnlyChanged, FilesKept, T.Emptied,
      FileWritten, UnlinkedFrom, Created, CreatedShort, HasRoom, HasRoomOnceEmpty, MkdirResult, Parent, TakenFor,
      MkdirTakes, T.NewNode, IsFile, Missing, Target, K.Spare, K.Free, Contents, FsUnlink.Unlinked;
    if IsFile(v, q.path) {
      NotMissing(v, q.path);
      match q
      case MakeFile(path, _) =>
        EmptiedKeeps(g, was.tables, now.tables, path, was.lost);
      case MakeDirectory(path) =>
      case Remove(path) =>
        UnlinkedKeeps(g, was.tables, now.tables, path, was.lost, now.lost);
      case Write(path, offset, buf) =>
        UnchangedIsKept(g, was.tables.inodes, was.tables.data, now.tables.inodes, now.tables.data, {Target(v, path)});
    } else if Adds(v, q) {
      NoFileYet(v, q.path);
      ParentIsThere(v, q.path);
      if q.MakeFile? {
        UnchangedIsKept(g, was.tables.inodes, was.tables.data, now.tables.inodes, now.tables.data,
                        {Parent(v, q.path), r});
      }
    } else {
      NothingChanges(g, was.tables, was.lost);
    }
  }

  lemma ParentIsThere(v: Volume, path: Path)
    requires Missing(v, path)
    ensures path != [] && Parent(v, path) >= 0
  {
  }

  lemma EmptiedKeeps(g: Geometry, was: Tables, now: Tables, path: Path, lost: set<nat>)
    requires EmptiedFrom(g, was, now, path, lost)
    ensures FilesKept(g, was.inodes, was.data, now.inodes, now.data, {Target(VolumeOf(g, was), path)})
  {
    var n := Target(VolumeOf(g, was), path);
    OnlyOneChanged(g, was.inodes, was.data, now.inodes, now.data, n);
    UnchangedIsKept(g, was.inodes, was.data, now.inodes, now.data, {n});
    hide FilesKept, OnlyChanged, VolumeOf, OthersSame, IsFile, Target, HasRoom, HasRoomOnceEmpty;
  }

  lemma UnlinkedKeeps(g: Geometry, was: Tables, now: Tables, path: Path, lost: set<nat>, lost': set<nat>)
    requires UnlinkedFrom(g, was, now, path, lost, lost')
    ensures var v := VolumeOf(g, was);
            && IsFile(v, path) && path != [] && Parent(v, path) >= 0
            && FilesKept(g, was.inodes, was.data, now.inodes, now.data, {Parent(v, path), Target(v, path)})
  {
    hide *;
    var v := VolumeOf(g, was);
    UnlinkedFromParts(g, was, now, path, lost, lost');
    var d, t := Parent(v, path), Target(v, path);
    UnlinkedOnly(g, was, now, d, t, Removed(v[d].entries, Last(path)), lost);
    UnchangedIsKept(g, was.inodes, was.data, now.inodes, now.data, {d, t});
  }

  lemma UnlinkedOnly(g: Geometry, was: Tables, now: Tables, d: nat, t: nat, s: seq<Entry>, lost: set<nat>)
    requires FsUnlink.Unlinked(g, was, now, d, t, s, lost)
    ensures OnlyChanged(g, was.inodes, was.data, now.inodes, now.data, {d, t})
  {
    hide OnlyChanged;
  }

  lemma NothingChanges(g: Geometry, t: Tables, lost: set<nat>)
    requires Sound(g, t, lost)
    ensures FilesKept(g, t.inodes, t.data, t.inodes, t.data, {})
  {
    assert forall m: nat :: m < |t.inodes| && Live(t.inodes[m]) ==>
        FileOK(g, Owners(t.inodes, Nobody(lost))[m], t.data);
    hide FileOK, AllSound;
  }

  // ----- carrying out requests -----

  lemma DidNow(g: Geometry, was: State, q: Request, r: int, now: State)
    requires Sound(g, now.tables, now.lost) && (!q.Remove? ==> now.lost == was.lost)
    requires var v := VolumeOf(g, was.tables);
             if IsFile(v, q.path) then DidToFile(g, was, q, r, now)
             else if Adds(v, q) then DidAdd(g, was.tables, q, r, now.tables)
             else now == was
    ensures Did(g, was, q, r, now)
  {
    hide Sound, DidToFile, DidAdd, Adds, IsFile, VolumeOf;
  }

  lemma FeasibleParts(g: Geometry, t: Tables, q: Request)
    requires Feasible(g, t, q)
    ensures q.MakeFile? || q.MakeDirectory? ==>
              (Missing(VolumeOf(g, t), q.path) ==> Entry(0, Last(q.path)).Fits() && RoomAt(g, t, q.path))
    ensures q.MakeFile? ==> !(0x4000 <= q.mode < 0x5000)
    ensures q.MakeDirectory? ==> forall y :: 0 <= y < |VolumeOf(g, t)| ==> VolumeOf(g, t)[y].nlink < 0x7FFF
    ensures q.Write? ==>
              && !IsDirectory(VolumeOf(g, t), Walk(VolumeOf(g, t), 0, q.path))
              && WriteFits(g, t, q.path, q.offset, |q.buf|)
  {
    hide VolumeOf, Missing, RoomAt, WriteFits, IsDirectory, Walk;
  }

  // Adding is what creat and mkdir do.
  lemma AddsIs(v: Volume, q: Request)
    ensures Adds(v, q) <==> (q.MakeFile? || q.MakeDirectory?) && Missing(v, q.path) && HasFreeNode(v)
    ensures Missing(v, q.path) ==> !IsFile(v, q.path)
    ensures q.MakeFile? ==> q == MakeFile(q.path, q.mode)
    ensures q.MakeDirectory? ==> q == MakeDirectory(q.path)
    ensures q.Remove? ==> q == Remove(q.path)
    ensures q.Write? ==> q == Write(q.path, q.offset, q.buf)
  {
  }

  lemma DidFile(g: Geometry, was: State, q: Request, r: int, now: State)
    requires var v := VolumeOf(g, was.tables);
             && IsFile(v, q.path)
             && match q
                case MakeFile(path, _) => EmptiedFrom(g, was.tables, now.tables, path, was.lost)
                case MakeDirectory(path) => MadeFrom(g, was.tables, now.tables, path, r)
                case Remove(path) => UnlinkedFrom(g, was.tables, now.tables, path, was.lost, now.lost)
                case Write(path, offset, buf) =>
                  WroteFile(g, was.tables, now.tables, Target(v, path), offset, buf, r)
    ensures DidToFile(g, was, q, r, now)
  {
    hide VolumeOf, IsFile, Target, EmptiedFrom, MadeFrom, UnlinkedFrom, WroteFile;
  }

  lemma DidAddition(g: Geometry, was: Tables, q: Request, r: int, now: Tables)
    requires if q.MakeFile? then !(0x4000 <= q.mode < 0x5000) && CreatedFrom(g, was, now, q.path, r, q.mode)
             else MadeFrom(g, was, now, q.path, r)
    ensures DidAdd(g, was, q, r, now)
  {
    hide CreatedFrom, MadeFrom;
  }

  lemma AnswerIs(g: Geometry, was: Tables, q: Request, left: int, r: int)
    ensures var v := VolumeOf(g, was);
            var taken := IsFile(v, q.path) || Adds(v, q);
            && (q.MakeFile? ==> Answer(g, was, q, left, r) == if taken then 0 else -1)
            && (q.MakeDirectory? ==>
                  Answer(g, was, q, left, r)
                  == if !taken then 2 else if MkdirSpace(g, was, q.path).Enough? then 0 else 4)
            && (q.Remove? ==> Answer(g, was, q, left, r) == if IsFile(v, q.path) then left else -1)
            && (q.Write? ==> Answer(g, was, q, left, r) == if IsFile(v, q.path) then r else -1)
  {
    hide VolumeOf, IsFile, Adds, MkdirSpace;
  }

  // Boot, carry out one request, and exit. The law holds afterwards exactly when the request was harmless.
  method Perform(fs: FileSystem, q: Request, left: int, ghost lost: set<nat>)
    returns (status: int, ghost r: int, ghost lost': set<nat>)
    requires fs.Valid() && Sound(fs.g, fs.Now(), lost) && Inv(VolumeOf(fs.g, fs.Now())) && Feasible(fs.g, fs.Now(), q)
    modifies fs, fs.freeListBitBlock, fs.indexBlockBytes
    ensures fs.Valid() && Did(fs.g, State(old(fs.Now()), lost), q, r, State(fs.Now(), lost'))
    ensures status == Answer(fs.g, old(fs.Now()), q, left, r)
    ensures Sound(fs.g, fs.Now(), lost')
    ensures Inv(VolumeOf(fs.g, fs.Now())) <==> Harmless(fs.g, old(fs.Now()), q)
  {
    hide *;
    FsUnlink.TablesNow(fs);
    ghost var t0, v := fs.Now(), VolumeOf(fs.g, fs.Now());
    var k := new Kernel(fs, lost);
    FsUnlink.TablesNow(fs);
    ViewIs(k);
    FeasibleParts(fs.g, t0, q);
    BootedParts(k);
    AddsIs(v, q);
    r, lost' := -1, lost;
    match q {
      case MakeFile(path, mode) =>
        var x, node;
        status, x, node := k.Creat(path, mode);
        r := x;
        RunningParts(k);
      case MakeDirectory(path) =>
        ghost var x;
        status, x := Mkdir(k, path);
        r := x;
      case Remove(path) =>
        status, lost' := k.Unlink(path, left);
      case Write(path, offset, buf) =>
        status := WriteFile(k, path, offset, buf);
        r := status;
    }
    ghost var was, now := State(t0, lost), State(fs.Now(), lost');
    if IsFile(v, q.path) {
      DidFile(fs.g, was, q, r, now);
    } else if Adds(v, q) {
      DidAddition(fs.g, t0, q, r, fs.Now());
    }
    AnswerIs(fs.g, t0, q, left, r);
    DidNow(fs.g, was, q, r, now);
    LawAfter(fs.g, was, q, r, now);
  }

  // ----- runs -----

  // The requests take each disk to the next; rs has the numbers that came back.
  ghost predicate DiskRun(g: Geometry, states: seq<State>, qs: seq<Request>, rs: seq<int>) {
    && |states| == |qs| + 1 && |rs| == |qs|
    && forall i: nat :: i < |qs| ==> Did(g, states[i], qs[i], rs[i], states[i + 1])
  }

  ghost predicate Lawful(g: Geometry, s: State) {
    Sound(g, s.tables, s.lost) && Inv(VolumeOf(g, s.tables))
  }

  // Each of the first n requests was harmless on the disk it found.
  ghost predicate AllHarmless(g: Geometry, states: seq<State>, qs: seq<Request>, n: nat) {
    n <= |qs| && n <= |states| && forall i: nat :: i < n ==> Harmless(g, states[i].tables, qs[i])
  }

  lemma RunStep(g: Geometry, states: seq<State>, qs: seq<Request>, rs: seq<int>, i: nat)
    requires DiskRun(g, states, qs, rs) && i < |qs|
    ensures Did(g, states[i], qs[i], rs[i], states[i + 1])
  {
  }

  // The first n requests of a run left lawful disks, and so did mkfs.
  ghost predicate AllLawful(g: Geometry, states: seq<State>, n: nat) {
    n < |states| && forall i: nat :: i <= n ==> Lawful(g, states[i])
  }

  lemma OneMore(g: Geometry, states: seq<State>, qs: seq<Request>, n: nat)
    requires 0 < n <= |qs| && n < |states|
    ensures AllLawful(g, states, n) <==> AllLawful(g, states, n - 1) && Lawful(g, states[n])
    ensures AllHarmless(g, states, qs, n) <==>
            AllHarmless(g, states, qs, n - 1) && Harmless(g, states[n - 1].tables, qs[n - 1])
    ensures AllLawful(g, states, n - 1) ==> Lawful(g, states[n - 1])
  {
    hide Lawful, Harmless;
  }

  lemma NoneYet(g: Geometry, states: seq<State>, qs: seq<Request>)
    requires |states| > 0
    ensures AllLawful(g, states, 0) <==> Lawful(g, states[0])
    ensures AllHarmless(g, states, qs, 0)
  {
    hide Lawful, Harmless;
  }

  // Every disk of a run keeps the law exactly if every request was harmless on the disk before it.
  lemma {:induction false} RunsKeepTheLaw(g: Geometry, states: seq<State>, qs: seq<Request>, rs: seq<int>, n: nat)
    requires DiskRun(g, states, qs, rs) && n <= |qs| && Lawful(g, states[0])
    ensures AllLawful(g, states, n) <==> AllHarmless(g, states, qs, n)
  {
    hide *;
    RunLast(g, states, qs, rs);
    NoneYet(g, states, qs);
    if n > 0 {
      RunsKeepTheLaw(g, states, qs, rs, n - 1);
      OneMore(g, states, qs, n);
      if AllLawful(g, states, n - 1) {
        RunStep(g, states, qs, rs, n - 1);
        LawfulAfter(g, states[n - 1], qs[n - 1], rs[n - 1], states[n]);
      }
    }
  }

  lemma LawfulAfter(g: Geometry, was: State, q: Request, r: int, now: State)
    requires Lawful(g, was) && Did(g, was, q, r, now)
    ensures Lawful(g, now) <==> Harmless(g, was.tables, q)
  {
    LawAfter(g, was, q, r, now);
    DidParts(g, was, q, r, now);
    hide Sound, Inv, VolumeOf, Did, Harmless;
  }

  // The requests can be carried out one after the other, whichever free node and block each comes to take: each is
  // within what it needs, and harmless, on the disk it finds.
  ghost predicate Safe(g: Geometry, s: State, qs: seq<Request>)
    decreases |qs|
  {
    qs == [] ||
    (Feasible(g, s.tables, qs[0]) && Harmless(g, s.tables, qs[0]) &&
     forall r: int, now: State :: Did(g, s, qs[0], r, now) ==> Safe(g, now, qs[1..]))
  }

  lemma SafeFirst(g: Geometry, s: State, qs: seq<Request>)
    requires Safe(g, s, qs) && qs != []
    ensures Feasible(g, s.tables, qs[0]) && Harmless(g, s.tables, qs[0])
  {
  }

  lemma SafeNext(g: Geometry, s: State, qs: seq<Request>, r: int, now: State)
    requires Safe(g, s, qs) && qs != [] && Did(g, s, qs[0], r, now)
    ensures Safe(g, now, qs[1..])
  {
  }

  // ----- enough space -----

  // Requests to create files, with names that fit.
  predicate Creats(qs: seq<Request>) {
    forall i :: 0 <= i < |qs| ==> IsCreat(qs[i])
  }

  predicate IsCreat(q: Request) {
    q.MakeFile? && !(0x4000 <= q.mode < 0x5000) && (q.path != [] ==> Entry(0, Last(q.path)).Fits())
  }

  // Two free blocks for each of n requests and twelve more, and no directory would outgrow its pointers.
  ghost predicate SpaceFor(g: Geometry, s: State, n: nat) {
    var v := VolumeOf(g, s.tables);
    && Lawful(g, s) && K.Free(g, s.tables.used) >= 2 * n + 12
    && forall x :: 0 <= x < |v| ==> K.Fits(g, DIRECTORY_ENTRY_SIZE * (|v[x].entries| + n))
  }

  lemma NotFull(g: Geometry, used: set<nat>)
    requires g.Valid() && |used| < g.DataCount()
    ensures !DiskFull(g, used)
  {
    Collections.UpToSize(g.DataCount());
    var all := Collections.UpTo(g.DataCount());
    if DiskFull(g, used) {
      assert all <= used;
      Collections.SubsetSize(all, used);
    }
  }

  lemma RoomWhereFree(g: Geometry, node: IndexNode, data: seq<Block>, used: set<nat>, k: nat)
    requires g.Valid() && DataShape(g, data) && NodeShape(g, node) && !DiskFull(g, used)
    ensures HasRoom(g, node, data, used, k)
  {
  }

  lemma {:induction false} AtMostTenHoles(node: IndexNode, q: nat)
    requires node.Shaped()
    ensures K.Holes(node, q) <= if q >= MAX_DIRECT_BLOCKS then 0 else MAX_DIRECT_BLOCKS - q
    decreases MAX_DIRECT_BLOCKS - q
  {
    if q < MAX_DIRECT_BLOCKS {
      AtMostTenHoles(node, q + 1);
    }
  }

  lemma CanPutWhereFree(g: Geometry, node: IndexNode, used: set<nat>, k: nat)
    requires g.Valid() && node.Shaped() && K.Fits(g, DIRECTORY_ENTRY_SIZE * (k + 1)) && K.Free(g, used) >= 12
    ensures CanPut(g, node, used, k)
  {
    AtMostTenHoles(node, BlockOf(g, k));
    hide K.Fits, BlockOf;
  }

  lemma FeasibleNow(g: Geometry, t: Tables, q: Request)
    requires q.MakeDirectory? || (q.MakeFile? && !(0x4000 <= q.mode < 0x5000))
    requires Missing(VolumeOf(g, t), q.path) ==> Entry(0, Last(q.path)).Fits() && RoomAt(g, t, q.path)
    requires q.MakeDirectory? ==> forall y :: 0 <= y < |VolumeOf(g, t)| ==> VolumeOf(g, t)[y].nlink < 0x7FFF
    ensures Feasible(g, t, q)
  {
    hide VolumeOf, RoomAt, Missing;
  }

  lemma CreatIsHarmless(g: Geometry, t: Tables, q: Request)
    requires q.MakeFile? && (Missing(VolumeOf(g, t), q.path) ==> HasRoomFor(g, t, q.path))
    ensures Harmless(g, t, q)
  {
    hide VolumeOf, HasRoomFor, Missing;
  }

  // Where there is space, creat can be asked for and does no harm.
  lemma CreatIsFine(g: Geometry, s: State, n: nat, q: Request)
    requires SpaceFor(g, s, n) && n >= 1 && IsCreat(q)
    ensures Feasible(g, s.tables, q) && Harmless(g, s.tables, q)
  {
    hide *;
    var t, v := s.tables, VolumeOf(g, s.tables);
    CreatParts(q);
    SpaceParts(g, s, n);
    if Missing(v, q.path) {
      RoomForIs(g, t, q.path);
      ParentLive(g, t, q.path);
      ParentIsThere(v, q.path);
      var d := Parent(v, q.path);
      NodeFits(g, t, s.lost, d);
      NodeIsShaped(g, t.inodes[d]);
      NotFull(g, t.used);
      RoomWhereFree(g, t.inodes[d], t.data, t.used, |v[d].entries|);
      OneMoreFits(g, |v[d].entries|, n);
      CanPutWhereFree(g, t.inodes[d], t.used, |v[d].entries|);
      RoomAtParent(g, t, q.path);
    }
    FeasibleNow(g, t, q);
    CreatIsHarmless(g, t, q);
  }

  lemma NodeIsShaped(g: Geometry, node: IndexNode)
    requires NodeShape(g, node)
    ensures node.Shaped()
  {
  }

  lemma CreatParts(q: Request)
    requires IsCreat(q)
    ensures q.MakeFile? && !(0x4000 <= q.mode < 0x5000) && (q.path != [] ==> Entry(0, Last(q.path)).Fits())
  {
  }

  lemma SpaceParts(g: Geometry, s: State, n: nat)
    requires SpaceFor(g, s, n)
    ensures Lawful(g, s) && K.Free(g, s.tables.used) >= 2 * n + 12 && |s.tables.used| < g.DataCount()
    ensures Sound(g, s.tables, s.lost) && Inv(VolumeOf(g, s.tables))
    ensures forall x :: 0 <= x < |VolumeOf(g, s.tables)| ==>
              K.Fits(g, DIRECTORY_ENTRY_SIZE * (|VolumeOf(g, s.tables)[x].entries| + n))
  {
    hide Sound, Inv, VolumeOf, K.Fits;
  }

  lemma OneMoreFits(g: Geometry, k: nat, n: nat)
    requires n >= 1 && K.Fits(g, DIRECTORY_ENTRY_SIZE * (k + n))
    ensures K.Fits(g, DIRECTORY_ENTRY_SIZE * (k + 1))
  {
  }

  lemma RoomAtParent(g: Geometry, t: Tables, path: Path)
    requires Missing(VolumeOf(g, t), path) && 0 <= Parent(VolumeOf(g, t), path) < |t.inodes|
    requires var d := Parent(VolumeOf(g, t), path);
             |VolumeOf(g, t)| == |t.inodes| && CanPut(g, t.inodes[d], t.used, |VolumeOf(g, t)[d].entries|)
    ensures RoomAt(g, t, path)
  {
    hide VolumeOf, CanPut, Missing, Parent;
  }

  lemma AtMostTwo(g: Geometry, t: Tables, path: Path)
    ensures TakenFor(g, t, path) <= 2
  {
    hide VolumeOf, HasRoomFor, InUse, BlockOf;
  }

  lemma EntriesAfter(v: Volume, path: Path, x: nat, y: nat)
    requires Missing(v, path) && x < |v| < 0x8000 && y < |v|
    ensures |Created(v, path, x, false)[y].entries| <= |v[y].entries| + 1
  {
    InsertedIs(v[Parent(v, path)].entries, Entry(x, Last(path)));
    InsertedIs([], Entry(x, Last(path)));
    hide Missing, Parent, Last, Inserted, Place;
  }

  // And there is space for the rest.
  lemma SpaceAfter(g: Geometry, s: State, n: nat, q: Request, r: int, now: State)
    requires SpaceFor(g, s, n) && n >= 1 && IsCreat(q) && Did(g, s, q, r, now)
    ensures SpaceFor(g, now, n - 1)
  {
    hide *;
    var v, v' := VolumeOf(g, s.tables), VolumeOf(g, now.tables);
    CreatParts(q);
    SpaceParts(g, s, n);
    CreatIsFine(g, s, n, q);
    LawfulAfter(g, s, q, r, now);
    DidParts(g, s, q, r, now);
    AddsIs(v, q);
    if IsFile(v, q.path) {
      EmptiedUses(g, s.tables, now.tables, q.path, s.lost);
    } else if Adds(v, q) {
      HarmlessHasRoom(g, s.tables, q);
      CreatedUses(g, s.tables, now.tables, q.path, r, q.mode);
      AtMostTwo(g, s.tables, q.path);
    }
    FreeOfCount(g, s.tables.used);
    FreeOfCount(g, now.tables.used);
    forall x | 0 <= x < |v'|
      ensures K.Fits(g, DIRECTORY_ENTRY_SIZE * (|v'[x].entries| + (n - 1)))
    {
      FewerFit(g, |v[x].entries|, |v'[x].entries|, n);
    }
    SpaceNow(g, now, n - 1);
  }

  lemma EmptiedUses(g: Geometry, was: Tables, now: Tables, path: Path, lost: set<nat>)
    requires EmptiedFrom(g, was, now, path, lost)
    ensures VolumeOf(g, now) == VolumeOf(g, was) && |now.used| <= |was.used|
  {
    Collections.SubsetSize(now.used, was.used);
    hide VolumeOf, T.Emptied, HasRoom, HasRoomOnceEmpty, IsFile, Target;
  }

  lemma HarmlessHasRoom(g: Geometry, t: Tables, q: Request)
    requires Harmless(g, t, q) && Adds(VolumeOf(g, t), q)
    ensures HasRoomFor(g, t, q.path)
  {
    hide VolumeOf, HasRoomFor, Adds;
  }

  lemma CreatedUses(g: Geometry, was: Tables, now: Tables, path: Path, x: int, mode: Short)
    requires CreatedFrom(g, was, now, path, x, mode) && HasRoomFor(g, was, path) && !(0x4000 <= mode < 0x5000)
    ensures |VolumeOf(g, now)| == |VolumeOf(g, was)| && |now.used| == |was.used| + TakenFor(g, was, path)
    ensures forall y :: 0 <= y < |VolumeOf(g, was)| ==>
              |VolumeOf(g, now)[y].entries| <= |VolumeOf(g, was)[y].entries| + 1
  {
    var v := VolumeOf(g, was);
    hide VolumeOf, Missing, OnlyChanged, HasRoomFor, TakenFor, Created, Parent, T.NewNode;
    forall y | 0 <= y < |v|
      ensures |VolumeOf(g, now)[y].entries| <= |v[y].entries| + 1
    {
      EntriesAfter(v, path, x, y);
    }
  }

  lemma FreeOfCount(g: Geometry, used: set<nat>)
    ensures K.Free(g, used) == g.DataCount() - |used|
  {
  }

  lemma FewerFit(g: Geometry, k: nat, k': nat, n: nat)
    requires n >= 1 && K.Fits(g, DIRECTORY_ENTRY_SIZE * (k + n)) && k' <= k + 1
    ensures K.Fits(g, DIRECTORY_ENTRY_SIZE * (k' + (n - 1)))
  {
  }

  lemma SpaceNow(g: Geometry, s: State, n: nat)
    requires Lawful(g, s) && K.Free(g, s.tables.used) >= 2 * n + 12
    requires forall x :: 0 <= x < |VolumeOf(g, s.tables)| ==>
               K.Fits(g, DIRECTORY_ENTRY_SIZE * (|VolumeOf(g, s.tables)[x].entries| + n))
    ensures SpaceFor(g, s, n)
  {
    hide VolumeOf, Lawful, K.Fits, K.Free;
  }

  // With space for all of them at the start, any creats are safe to make, whatever their paths.
  lemma {:induction false} CreatsAreSafe(g: Geometry, s: State, qs: seq<Request>)
    requires SpaceFor(g, s, |qs|) && Creats(qs)
    ensures Safe(g, s, qs)
    decreases |qs|
  {
    hide *;
    if qs == [] {
      NothingIsSafe(g, s);
    } else {
      FirstCreat(qs);
      CreatIsFine(g, s, |qs|, qs[0]);
      forall r: int, now: State | Did(g, s, qs[0], r, now)
        ensures Safe(g, now, qs[1..])
      {
        SpaceAfter(g, s, |qs|, qs[0], r, now);
        CreatsAreSafe(g, now, qs[1..]);
      }
      SafeNow(g, s, qs[0], qs[1..]);
    }
  }

  lemma FirstCreat(qs: seq<Request>)
    requires Creats(qs) && qs != []
    ensures IsCreat(qs[0]) && Creats(qs[1..]) && qs == [qs[0]] + qs[1..]
  {
    hide IsCreat;
  }

  lemma NothingIsSafe(g: Geometry, s: State)
    ensures Safe(g, s, [])
  {
  }

  lemma SafeNow(g: Geometry, s: State, q: Request, qs: seq<Request>)
    requires Feasible(g, s.tables, q) && Harmless(g, s.tables, q)
    requires forall r: int, now: State :: Did(g, s, q, r, now) ==> Safe(g, now, qs)
    ensures Safe(g, s, [q] + qs)
  {
    assert ([q] + qs)[1..] == qs;
    hide Feasible, Harmless, Did;
  }

  lemma RunStart(g: Geometry, s: State)
    ensures DiskRun(g, [s], [], [])
  {
  }

  lemma RunGrows(g: Geometry, states: seq<State>, qs: seq<Request>, rs: seq<int>, i: nat, r: int, now: State)
    requires i < |qs| && DiskRun(g, states, qs[..i], rs) && Did(g, states[i], qs[i], r, now)
    ensures DiskRun(g, states + [now], qs[..i + 1], rs + [r])
    ensures qs[i..] != [] && qs[i..][0] == qs[i] && qs[i..][1..] == qs[i + 1..]
  {
    hide Did;
    var states', rs' := states + [now], rs + [r];
    forall j: nat | j < i + 1
      ensures Did(g, states'[j], qs[..i + 1][j], rs'[j], states'[j + 1])
    {
      if j < i {
        assert Did(g, states[j], qs[..i][j], rs[j], states[j + 1]);
      }
    }
  }

  lemma RunLast(g: Geometry, states: seq<State>, qs: seq<Request>, rs: seq<int>)
    requires DiskRun(g, states, qs, rs)
    ensures |states| == |qs| + 1 && |rs| == |qs|
  {
  }

  // One request after the other, each in a boot of its own.
  method PerformAll(fs: FileSystem, qs: seq<Request>, left: int, ghost lost: set<nat>)
    returns (ghost states: seq<State>, ghost rs: seq<int>)
    requires fs.Valid() && Sound(fs.g, fs.Now(), lost) && Inv(VolumeOf(fs.g, fs.Now()))
    requires Safe(fs.g, State(fs.Now(), lost), qs)
    modifies fs, fs.freeListBitBlock, fs.indexBlockBytes
    ensures fs.Valid() && DiskRun(fs.g, states, qs, rs) && |states| == |qs| + 1
    ensures states[0] == State(old(fs.Now()), lost) && states[|qs|].tables == fs.Now()
    ensures Sound(fs.g, fs.Now(), states[|qs|].lost) && Inv(VolumeOf(fs.g, fs.Now()))
    ensures AllHarmless(fs.g, states, qs, |qs|)
  {
    hide *;
    ghost var g, lost' := fs.g, lost;
    states, rs := [State(fs.Now(), lost)], [];
    RunStart(g, states[0]);
    HarmlessStart(g, states, qs);
    assert qs[..0] == [] && qs[0..] == qs;
    var i := 0;
    while i < |qs|
      invariant 0 <= i <= |qs| && |states| == i + 1 && DiskRun(g, states, qs[..i], rs)
      invariant states[0] == State(old(fs.Now()), lost) && states[i] == State(fs.Now(), lost')
      invariant fs.Valid() && Sound(g, fs.Now(), lost') && Inv(VolumeOf(g, fs.Now()))
      invariant Safe(g, states[i], qs[i..]) && AllHarmless(g, states, qs, i)
    {
      RunGrowsAt(qs, i);
      SafeFirst(g, states[i], qs[i..]);
      ghost var r: int;
      var status;
      status, r, lost' := Perform(fs, qs[i], left, lost');
      ghost var now := State(fs.Now(), lost');
      SafeNext(g, states[i], qs[i..], r, now);
      RunGrows(g, states, qs, rs, i, r, now);
      HarmlessSoFar(g, states, qs, i, now);
      states, rs := states + [now], rs + [r];
      i := i + 1;
    }
    assert qs[..|qs|] == qs;
  }

  lemma RunGrowsAt(qs: seq<Request>, i: nat)
    requires i < |qs|
    ensures qs[i..] != [] && qs[i..][0] == qs[i]
  {
  }

  lemma HarmlessStart(g: Geometry, states: seq<State>, qs: seq<Request>)
    ensures AllHarmless(g, states, qs, 0)
  {
  }

  lemma HarmlessSoFar(g: Geometry, states: seq<State>, qs: seq<Request>, i: nat, now: State)
    requires AllHarmless(g, states, qs, i) && i < |qs| && i < |states| && Harmless(g, states[i].tables, qs[i])
    ensures AllHarmless(g, states + [now], qs, i + 1)
  {
    hide Harmless;
  }

  lemma FreshIsLawful(g: Geometry)
    requires g.Valid()
    ensures Lawful(g, State(MkfsImage.FreshTables(g), {}))
    ensures Sound(g, MkfsImage.FreshTables(g), {}) && Inv(VolumeOf(g, MkfsImage.FreshTables(g)))
  {
    hide Sound, Inv, VolumeOf, Mkfs, Geometry.Valid;
    MkfsImage.FreshView(g);
    MkfsImage.NodeCountIs(g);
    MkfsInv(g.NodeCount());
  }

  // What fsck finds on a lawful disk: it can check it, reaches exactly the live files, and has neither a link count
  // nor a free block to report; the allocated blocks it does not find are the lost ones and those beyond a size.
  ghost predicate FsckFindsNothingElse(g: Geometry, t: Tables, lost: set<nat>) {
    var image := DiskFsck.ImageOf(g, t);
    && DiskFsck.Checkable(g, t)
    && (forall x: nat :: x < |t.inodes| ==> (Fsck.Reachable(image, x) <==> Live(t.inodes[x])))
    && (forall x: nat :: !Fsck.WrongLinks(image, x))
    && (forall b: int, x: nat :: !Fsck.FreeButUsed(image, t.used, b, x))
    && forall d: nat ::
         d in t.used && !Fsck.InUse(image, d) <==> d in lost || FsckVerdict.BeyondSome(g, t, d)
  }

  lemma FsckOfLawful(g: Geometry, t: Tables, lost: set<nat>)
    requires Sound(g, t, lost) && Inv(VolumeOf(g, t))
    ensures FsckFindsNothingElse(g, t, lost)
  {
    hide *;
    FsckVerdict.SoundIsCheckable(g, t, lost);
    AllReached(g, t, lost);
    NoneWrong(g, t);
    NoneFree(g, t, lost);
    UnfoundOnes(g, t, lost);
    FoundAsSaid(g, t, lost);
  }

  lemma FoundAsSaid(g: Geometry, t: Tables, lost: set<nat>)
    requires var image := DiskFsck.ImageOf(g, t);
             && DiskFsck.Checkable(g, t)
             && (forall x: nat :: x < |t.inodes| ==> (Fsck.Reachable(image, x) <==> Live(t.inodes[x])))
             && (forall x: nat :: !Fsck.WrongLinks(image, x))
             && (forall b: int, x: nat :: !Fsck.FreeButUsed(image, t.used, b, x))
             && forall d: nat ::
                  d in t.used && !Fsck.InUse(image, d) <==> d in lost || FsckVerdict.BeyondSome(g, t, d)
    ensures FsckFindsNothingElse(g, t, lost)
  {
    hide DiskFsck.ImageOf, DiskFsck.Checkable, FsckVerdict.BeyondSome, Fsck.WrongLinks, Fsck.FreeButUsed, Fsck.InUse,
      Fsck.Reachable;
  }

  lemma AllReached(g: Geometry, t: Tables, lost: set<nat>)
    requires Sound(g, t, lost) && Inv(VolumeOf(g, t))
    ensures forall x: nat :: x < |t.inodes| ==> (Fsck.Reachable(DiskFsck.ImageOf(g, t), x) <==> Live(t.inodes[x]))
  {
    hide *;
    forall x: nat | x < |t.inodes|
      ensures Fsck.Reachable(DiskFsck.ImageOf(g, t), x) <==> Live(t.inodes[x])
    {
      FsckVerdict.ReachesTheLive(g, t, lost, x);
    }
  }

  lemma NoneWrong(g: Geometry, t: Tables)
    requires Inv(VolumeOf(g, t))
    ensures forall x: nat :: !Fsck.WrongLinks(DiskFsck.ImageOf(g, t), x)
  {
    hide *;
    forall x: nat
      ensures !Fsck.WrongLinks(DiskFsck.ImageOf(g, t), x)
    {
      FsckVerdict.NoCountIsWrong(g, t, x);
    }
  }

  lemma NoneFree(g: Geometry, t: Tables, lost: set<nat>)
    requires Sound(g, t, lost) && Inv(VolumeOf(g, t))
    ensures forall b: int, x: nat :: !Fsck.FreeButUsed(DiskFsck.ImageOf(g, t), t.used, b, x)
  {
    hide *;
    forall b: int, x: nat
      ensures !Fsck.FreeButUsed(DiskFsck.ImageOf(g, t), t.used, b, x)
    {
      FsckVerdict.NoneFreeButUsed(g, t, lost, b, x);
    }
  }

  lemma UnfoundOnes(g: Geometry, t: Tables, lost: set<nat>)
    requires Sound(g, t, lost) && Inv(VolumeOf(g, t))
    ensures forall d: nat ::
              d in t.used && !Fsck.InUse(DiskFsck.ImageOf(g, t), d) <==> d in lost || FsckVerdict.BeyondSome(g, t, d)
  {
    hide *;
    forall d: nat
      ensures d in t.used && !Fsck.InUse(DiskFsck.ImageOf(g, t), d) <==> d in lost || FsckVerdict.BeyondSome(g, t, d)
    {
      FsckVerdict.Unfound(g, t, lost, d);
    }
  }

  // After any run of harmless requests from the disk mkfs writes, fsck finds nothing else.
  lemma FsckAfterAnyRun(g: Geometry, states: seq<State>, qs: seq<Request>, rs: seq<int>)
    requires g.Valid() && DiskRun(g, states, qs, rs) && states[0] == State(MkfsImage.FreshTables(g), {})
    requires AllHarmless(g, states, qs, |qs|)
    ensures Lawful(g, states[|qs|]) && FsckFindsNothingElse(g, states[|qs|].tables, states[|qs|].lost)
  {
    hide *;
    RunLast(g, states, qs, rs);
    FreshIsLawful(g);
    RunsKeepTheLaw(g, states, qs, rs, |qs|);
    LastIsLawful(g, states, |qs|);
    LawfulParts(g, states[|qs|]);
    FsckOfLawful(g, states[|qs|].tables, states[|qs|].lost);
  }

  lemma LastIsLawful(g: Geometry, states: seq<State>, n: nat)
    requires AllLawful(g, states, n)
    ensures Lawful(g, states[n])
  {
  }

  lemma LawfulParts(g: Geometry, s: State)
    requires Lawful(g, s)
    ensures Sound(g, s.tables, s.lost) && Inv(VolumeOf(g, s.tables))
  {
  }

  // Main result: mkfs, then any requests that are safe to make, then fsck. It counts every link right, reports no
  // free block, and of the data blocks with a bit in the free list it reports those that are lost or beyond a size.
  method MkfsRequestsFsck(g: Geometry, super: Block, qs: seq<Request>, left: int)
    returns (report: Fsck.Report, ghost states: seq<State>, ghost rs: seq<int>)
    requires g.Valid() && |super| == g.blockSize && Safe(g, State(MkfsImage.FreshTables(g), {}), qs)
    ensures DiskRun(g, states, qs, rs) && |states| == |qs| + 1 && states[0] == State(MkfsImage.FreshTables(g), {})
    ensures forall x: nat :: x !in report.wrongLinks
    ensures forall b: int, x: nat :: (b, x) !in report.freeButUsed
    ensures var s := states[|qs|];
            && (forall x: nat :: x in report.counts <==> x < |s.tables.inodes| && Live(s.tables.inodes[x]))
            && forall b: nat :: b < g.ListBits() && b < g.blockCount ==>
                 (b in report.leaked <==> b in s.lost || FsckVerdict.BeyondSome(g, s.tables, b))
  {
    hide *;
    FreshIsLawful(g);
    var fs := MkfsImage.Format(g, super);
    states, rs := PerformAll(fs, qs, left, {});
    ghost var t, lost := fs.Now(), states[|qs|].lost;
    FsUnlink.TablesNow(fs);
    FsckOfLawful(g, t, lost);
    NothingElse(g, t, lost);
    report := DiskFsck.Check(fs);
    BitsAgree(fs);
    forall b: nat | b < g.ListBits() && b < g.blockCount
      ensures b in report.leaked <==> b in lost || FsckVerdict.BeyondSome(g, t, b)
    {
      FsckVerdict.ListedBit(g, fs.file, t.used, b);
    }
  }

  lemma NothingElse(g: Geometry, t: Tables, lost: set<nat>)
    requires FsckFindsNothingElse(g, t, lost)
    ensures var image := DiskFsck.ImageOf(g, t);
            && DiskFsck.Checkable(g, t)
            && (forall x: nat :: x < |t.inodes| ==> (Fsck.Reachable(image, x) <==> Live(t.inodes[x])))
            && (forall x: nat :: !Fsck.WrongLinks(image, x))
            && (forall b: int, x: nat :: !Fsck.FreeButUsed(image, t.used, b, x))
            && forall d: nat ::
                 d in t.used && !Fsck.InUse(image, d) <==> d in lost || FsckVerdict.BeyondSome(g, t, d)
  {
    hide DiskFsck.ImageOf, DiskFsck.Checkable, FsckVerdict.BeyondSome, Fsck.WrongLinks, Fsck.FreeButUsed, Fsck.InUse,
      Fsck.Reachable;
  }

  lemma BitsAgree(fs: FileSystem)
    requires fs.Cached()
    ensures fs.g.Valid() && DiskShape(fs.g, fs.file) && BitmapAgrees(fs.g, fs.file, fs.used)
  {
  }

  // A run loses blocks exactly when one of its unlinks takes the last link of a file with an indirect block or
  // a block beyond its size.
  lemma {:induction false} LostByRuns(g: Geometry, states: seq<State>, qs: seq<Request>, rs: seq<int>, n: nat)
    requires DiskRun(g, states, qs, rs) && states[0].lost == {} && n <= |qs|
    ensures states[n].lost == {} <==> forall i: nat :: i < n ==> Leaves(g, states[i].tables, qs[i]) == {}
    ensures forall i: nat :: i < n ==> Leaves(g, states[i].tables, qs[i]) <= states[n].lost
  {
    hide *;
    RunLast(g, states, qs, rs);
    if n > 0 {
      LostByRuns(g, states, qs, rs, n - 1);
      RunStep(g, states, qs, rs, n - 1);
      LostByRequest(g, states[n - 1], qs[n - 1], rs[n - 1], states[n]);
    }
  }

  lemma LostByRequest(g: Geometry, was: State, q: Request, r: int, now: State)
    requires Did(g, was, q, r, now)
    ensures now.lost == was.lost + Leaves(g, was.tables, q)
  {
    var v := VolumeOf(g, was.tables);
    assert was.lost + {} == was.lost;
    if q.Remove? && IsFile(v, q.path) {
      AddsIs(v, q);
      LostByUnlink(g, was.tables, now.tables, q.path, was.lost, now.lost);
    }
    hide Sound, VolumeOf, IsFile, Target, EmptiedFrom, MadeFrom, UnlinkedFrom, WroteFile, T.Remains, NodeShape,
      DataShape, DidAdd;
  }

  lemma LostByUnlink(g: Geometry, was: Tables, now: Tables, path: Path, lost: set<nat>, lost': set<nat>)
    requires UnlinkedFrom(g, was, now, path, lost, lost')
    ensures lost' == lost + Leaves(g, was, Remove(path))
  {
    UnlinkedFromParts(g, was, now, path, lost, lost');
    assert lost + {} == lost;
    hide VolumeOf, IsFile, Target, Parent, Named, Removed, OnlyChanged, Lists, FsUnlink.LinkDropped, T.Remains,
      NodeShape, DataShape;
  }

  lemma LeavesNothing(g: Geometry, t: Tables, lost: set<nat>, path: Path)
    requires Sound(g, t, lost) && Inv(VolumeOf(g, t)) && IsFile(VolumeOf(g, t), path)
    requires t.inodes[Target(VolumeOf(g, t), path)].nlink == 1
    ensures DataShape(g, t.data)
    ensures var node := t.inodes[Target(VolumeOf(g, t), path)];
            && NodeShape(g, node) && node.size >= 0
            && (Leaves(g, t, Remove(path)) == {} <==> node.indirect == NOT_A_BLOCK && T.Covered(g, node, t.data))
  {
    var x := Target(VolumeOf(g, t), path);
    UnlinkedFacts(VolumeOf(g, t), path);
    FsckVerdict.LiveIsSeen(g, t, lost, x);
    hide Sound, Inv, IsFile, FileOK, T.Remains, T.Covered, VolumeOf;
    T.NothingRemains(g, t.inodes[x], t.data);
  }
}
