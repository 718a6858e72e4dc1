/** Disks that mkfs and the commands themselves arrive at and on which something goes wrong: an entry is lost, mkdir
    breaks the law, a block is lost, a write is not a string write, and fsck finds blocks that no file has. */
module DiskWitnesses {
  import opened FsCodec
  import opened FsGeometry
  import opened FsFile
  import opened FsVolume
  import opened FsDescriptor
  import opened DirectoryEntries
  import opened FsDirectory
  import opened FsView
  import opened LinkLaw
  import opened DiskKernel
  import opened DiskMkdir
  import opened DiskWrite
  import opened DiskRuns
  import Collections
  import Fsck
  import FsckVerdict
  import FsUnlink
  import MkfsImage
  import MkfsLayout
  import K = FsKernel
  import T = FsTruncate

  const NAME_A: Name := [97]
  const NAME_B: Name := [98]
  const NAME_C: Name := [99]

  // ----- names in the root, on volumes -----

  // A name that no entry has and that goes after all of them.
  predicate GoesLast(s: seq<Entry>, name: Name) {
    forall i :: 0 <= i < |s| ==> s[i].name != name && !Less(name, s[i].name)
  }

  lemma TopPath(v: Volume, name: Name)
    ensures [name] != [] && Parent(v, [name]) == 0 && Last([name]) == name
  {
    assert [name][..0] == [];
  }

  lemma NewAtTop(v: Volume, name: Name)
    requires |v| > 0 && v[0].isDir && GoesLast(v[0].entries, name)
    ensures Missing(v, [name]) && Parent(v, [name]) == 0 && Last([name]) == name && !IsFile(v, [name])
  {
    TopPath(v, name);
    FindIs(v[0].entries, name, |v[0].entries|);
  }

  lemma InsertedLast(s: seq<Entry>, e: Entry)
    requires GoesLast(s, e.name)
    ensures Inserted(s, e) == s + [e]
  {
    PlaceIs(s, e.name, |s|);
  }

  lemma CreatedAtTop(v: Volume, name: Name, x: nat, isDir: bool)
    requires 0 < x < |v| < 0x8000 && v[0].isDir && GoesLast(v[0].entries, name)
    ensures Missing(v, [name])
    ensures Created(v, [name], x, isDir)
            == v[x := Inode(1, isDir, [])][0 := v[0].(entries := v[0].entries + [Entry(x, name)])]
  {
    NewAtTop(v, name);
    InsertedLast(v[0].entries, Entry(x, name));
    hide Inserted, Missing, Parent, Last;
  }

  // mkdir looks for "root" in the root, does not find it, and takes the root for the parent.
  lemma ParentAtTop(v: Volume, name: Name, x: nat)
    requires 0 < x < |v| < 0x8000 && v[0].isDir && GoesLast(v[0].entries, name)
    requires forall i :: 0 <= i < |v[0].entries| ==> v[0].entries[i].name != ROOT_NAME
    ensures Missing(v, [name]) && |v[0].entries| <= |SelfNamed(v, [name], x)[0].entries|
    ensures RecordedParent(v, SelfNamed(v, [name], x), [name]) == 0
  {
    CreatedAtTop(v, name, x, true);
    var v1, s := SelfNamed(v, [name], x), v[0].entries;
    assert v1[0].entries == s + [Entry(x, name)];
    assert v1[0].entries[..|s|] == s;
    FindIs(s, ROOT_NAME, |s|);
    assert [ROOT_NAME][1..] == [];
  }

  lemma MadeAtTop(v: Volume, name: Name, x: nat)
    requires Shape(v) && 0 < x < |v| && v[x].nlink == 0 && GoesLast(v[0].entries, name)
    requires forall i :: 0 <= i < |v[0].entries| ==> v[0].entries[i].name != ROOT_NAME
    ensures |v| < 0x8000 && Missing(v, [name]) && Fresh(v, [name], x)
    ensures MkdirResult(v, [name], x, Enough)
            == v[x := Inode(2, true, Dots(x, 0))]
                [0 := Inode(v[0].nlink + 1, true, v[0].entries + [Entry(x, name)])]
  {
    RootIsDir(v);
    CreatedAtTop(v, name, x, true);
    ParentAtTop(v, name, x);
    NewAtTop(v, name);
    hide Missing, Created, SelfNamed, RecordedParent, Dots, Shape, Walk;
  }

  lemma {:induction false} FoundAtTop(v: Volume, name: Name, i: nat)
    requires |v| > 0 && v[0].isDir && i < |v[0].entries| && v[0].entries[i].name == name
    requires forall j :: 0 <= j < i ==> v[0].entries[j].name != name
    requires 0 <= v[0].entries[i].ino < |v| && !v[v[0].entries[i].ino].isDir
    ensures IsFile(v, [name]) && Target(v, [name]) == v[0].entries[i].ino
    ensures Parent(v, [name]) == 0 && !IsDirectory(v, Walk(v, 0, [name])) && !Missing(v, [name])
  {
    TopPath(v, name);
    FindIs(v[0].entries, name, i);
    assert [name][1..] == [];
  }

  // ----- names in the root, on disks -----

  lemma RootIsListed(g: Geometry, s: State)
    requires Lawful(g, s)
    ensures g.Valid() && |s.tables.inodes| == |VolumeOf(g, s.tables)| == g.NodeCount() && 0 < g.NodeCount() < 0x8000
    ensures VolumeOf(g, s.tables)[0].isDir && VolumeOf(g, s.tables)[0].nlink > 0 && Shape(VolumeOf(g, s.tables))
    ensures DataShape(g, s.tables.data) && NodeShape(g, s.tables.inodes[0]) && s.tables.inodes[0].Shaped()
    ensures Lists(g, s.tables.inodes[0], s.tables.data, VolumeOf(g, s.tables)[0].entries)
    ensures Live(s.tables.inodes[0]) && IsDir(s.tables.inodes[0])
  {
    var v := VolumeOf(g, s.tables);
    InvShape(v);
    RootIsDir(v);
    LinksOf(g, s.tables);
    DirectoryIs(g, s.tables, s.lost, 0);
    hide Lists, Ownership, AllSound, Inv, Shape, Leads;
  }

  // The first block of the root takes another entry.
  lemma RootHasRoom(g: Geometry, s: State, name: Name)
    requires Lawful(g, s) && GoesLast(VolumeOf(g, s.tables)[0].entries, name)
    requires |VolumeOf(g, s.tables)| > 0 && VolumeOf(g, s.tables)[0].entries != []
    requires g.Valid() && BlockOf(g, |VolumeOf(g, s.tables)[0].entries|) == 0
    ensures HasRoomFor(g, s.tables, [name]) && TakenFor(g, s.tables, [name]) == 0
  {
    hide *;
    var v := VolumeOf(g, s.tables);
    RootIsListed(g, s);
    NewAtTop(v, name);
    RoomForIs(g, s.tables, [name]);
    EntryIs0(g, s.tables.inodes[0], s.tables.data, v[0].entries);
    RoomInBlock(g, s.tables.inodes[0], s.tables.data, s.tables.used, |v[0].entries|);
  }

  lemma EntryIs0(g: Geometry, node: IndexNode, data: seq<Block>, s: seq<Entry>)
    requires Lists(g, node, data, s) && s != []
    ensures DataShape(g, data) && NodeShape(g, node) && InUse(g, node, data, 0)
  {
    EntryIs(g, node, data, s, 0);
    FirstBlock(g);
    hide Address, Listing;
  }

  lemma RoomInBlock(g: Geometry, node: IndexNode, data: seq<Block>, used: set<nat>, k: nat)
    requires g.Valid() && DataShape(g, data) && NodeShape(g, node) && InUse(g, node, data, BlockOf(g, k))
    ensures HasRoom(g, node, data, used, k) && Taken(g, node, data, k) == 0
  {
  }

  // A file has been created in the root.
  lemma FileAdded(g: Geometry, was: State, name: Name, mode: Short, r: int, now: State)
    requires Lawful(g, was) && Did(g, was, MakeFile([name], mode), r, now)
    requires |VolumeOf(g, was.tables)| > 0 && GoesLast(VolumeOf(g, was.tables)[0].entries, name)
    requires HasFreeNode(VolumeOf(g, was.tables)) && HasRoomFor(g, was.tables, [name])
    ensures Lawful(g, now) && now.lost == was.lost
    ensures 0 < r < |VolumeOf(g, was.tables)| == |now.tables.inodes| && VolumeOf(g, was.tables)[r].nlink == 0
    ensures now.tables.inodes[r] == T.NewNode(mode)
    ensures |now.tables.used| == |was.tables.used| + TakenFor(g, was.tables, [name])
    ensures var v := VolumeOf(g, was.tables);
            VolumeOf(g, now.tables)
            == v[r := Inode(1, false, [])][0 := v[0].(entries := v[0].entries + [Entry(r, name)])]
  {
    hide *;
    var v, q := VolumeOf(g, was.tables), MakeFile([name], mode);
    RootIsListed(g, was);
    NewAtTop(v, name);
    AddsIs(v, q);
    DidParts(g, was, q, r, now);
    CreatedParts2(g, was.tables, now.tables, [name], r, mode);
    FileIsHarmless(g, was.tables, q);
    LawfulAfter(g, was, q, r, now);
    SameLost(g, was, q, r, now);
    CreatedAtTop(v, name, r, false);
  }

  lemma CreatedParts2(g: Geometry, was: Tables, now: Tables, path: Path, x: int, mode: Short)
    requires CreatedFrom(g, was, now, path, x, mode) && HasRoomFor(g, was, path)
    ensures var v := VolumeOf(g, was);
            && Missing(v, path) && 0 <= x < |v| < 0x8000 && |v| == |now.inodes| && v[x].nlink == 0
            && now.inodes[x] == T.NewNode(mode) && |now.used| == |was.used| + TakenFor(g, was, path)
            && VolumeOf(g, now) == Created(v, path, x, 0x4000 <= mode < 0x5000)
  {
    hide VolumeOf, Missing, T.NewNode, TakenFor, Created, OnlyChanged, HasRoomFor, Parent;
  }

  lemma SameLost(g: Geometry, was: State, q: Request, r: int, now: State)
    requires Did(g, was, q, r, now) && !q.Remove?
    ensures now.lost == was.lost
  {
    hide Sound, VolumeOf, IsFile, Adds, DidToFile, DidAdd;
  }

  lemma FileIsHarmless(g: Geometry, t: Tables, q: Request)
    requires HasRoomFor(g, t, q.path)
    ensures !q.MakeDirectory? || !IsFile(VolumeOf(g, t), q.path) ==> Harmless(g, t, q)
  {
    hide VolumeOf, HasRoomFor, IsFile, Adds, HasRoomOnceEmpty;
  }

  // A directory has been made in the root.
  lemma DirectoryAdded(g: Geometry, was: State, name: Name, r: int, now: State)
    requires Lawful(g, was) && Did(g, was, MakeDirectory([name]), r, now)
    requires |VolumeOf(g, was.tables)| > 0 && GoesLast(VolumeOf(g, was.tables)[0].entries, name)
    requires forall i :: 0 <= i < |VolumeOf(g, was.tables)[0].entries| ==>
               VolumeOf(g, was.tables)[0].entries[i].name != ROOT_NAME
    requires HasFreeNode(VolumeOf(g, was.tables)) && HasRoomFor(g, was.tables, [name])
    requires K.Free(g, was.tables.used) > TakenFor(g, was.tables, [name])
    ensures Lawful(g, now) && now.lost == was.lost
    ensures 0 < r < |VolumeOf(g, was.tables)| < 0x8000 && VolumeOf(g, was.tables)[r].nlink == 0
    ensures |now.tables.used| == |was.tables.used| + TakenFor(g, was.tables, [name]) + 1
    ensures var v := VolumeOf(g, was.tables);
            VolumeOf(g, now.tables)
            == v[r := Inode(2, true, Dots(r, 0))]
                [0 := Inode(v[0].nlink + 1, true, v[0].entries + [Entry(r, name)])]
  {
    hide *;
    var v, q := VolumeOf(g, was.tables), MakeDirectory([name]);
    RootIsListed(g, was);
    NewAtTop(v, name);
    AddsIs(v, q);
    DidParts(g, was, q, r, now);
    SpaceOfNew(g, was.tables, [name]);
    MadeParts(g, was.tables, now.tables, [name], r);
    FileIsHarmless(g, was.tables, q);
    LawfulAfter(g, was, q, r, now);
    SameLost(g, was, q, r, now);
    MadeAtTop(v, name, r);
  }

  lemma MadeParts(g: Geometry, was: Tables, now: Tables, path: Path, x: int)
    requires MadeFrom(g, was, now, path, x) && Missing(VolumeOf(g, was), path) && MkdirSpace(g, was, path).Enough?
    ensures var v := VolumeOf(g, was);
            && Shape(v) && Fresh(v, path, x) && 0 <= x < |v| && v[x].nlink == 0
            && VolumeOf(g, now) == MkdirResult(v, path, x, Enough)
            && |now.used| == |was.used| + TakenFor(g, was, path) + 1
  {
    hide VolumeOf, Missing, TakenFor, MkdirSpace, MkdirResult, FilesKept, Touched, IsFile, Target, Shape;
  }

  lemma RequestIsFeasible(g: Geometry, s: State, q: Request)
    requires Lawful(g, s) && |VolumeOf(g, s.tables)| > 0 && |VolumeOf(g, s.tables)[0].entries| <= 4
    requires |q.path| == 1 && GoesLast(VolumeOf(g, s.tables)[0].entries, q.path[0]) && Entry(0, q.path[0]).Fits()
    requires q.MakeDirectory? || (q.MakeFile? && !(0x4000 <= q.mode < 0x5000))
    requires q.MakeDirectory? ==>
               forall y :: 0 <= y < |VolumeOf(g, s.tables)| ==> VolumeOf(g, s.tables)[y].nlink < 0x7FFF
    ensures Feasible(g, s.tables, q)
  {
    hide *;
    var v := VolumeOf(g, s.tables);
    var name := q.path[0];
    assert q.path == [name];
    RootIsListed(g, s);
    NewAtTop(v, name);
    SmallCell(g, s.tables.inodes[0], s.tables.used, |v[0].entries|);
    RoomAtTop(g, s.tables, [name]);
    FeasibleNow(g, s.tables, q);
  }

  lemma SmallCell(g: Geometry, node: IndexNode, used: set<nat>, k: nat)
    requires g.Valid() && node.Shaped() && k <= 4
    ensures CanPut(g, node, used, k)
  {
    TimesAtLeast(Slots(g), 16, g.blockSize);
    QuotMonotoneAt(g, k);
  }

  lemma QuotMonotoneAt(g: Geometry, k: nat)
    requires g.Valid() && k <= 4
    ensures BlockOf(g, k) <= 1
    ensures k <= 3 ==> BlockOf(g, k) == 0
    ensures g.blockSize == 64 && k == 4 ==> BlockOf(g, k) == 1
  {
    var at := DIRECTORY_ENTRY_SIZE * k;
    if at < g.blockSize {
      QuotRemOf(at, g.blockSize, 0, at);
    } else {
      QuotRemOf(at, g.blockSize, 1, at - g.blockSize);
    }
  }

  lemma RoomAtTop(g: Geometry, t: Tables, path: Path)
    requires Missing(VolumeOf(g, t), path) && Parent(VolumeOf(g, t), path) == 0 && |t.inodes| > 0
    requires |VolumeOf(g, t)| == |t.inodes| && CanPut(g, t.inodes[0], t.used, |VolumeOf(g, t)[0].entries|)
    ensures RoomAt(g, t, path)
  {
    hide VolumeOf, CanPut, Missing, Parent;
  }

  ghost function FreshState(g: Geometry): State
    requires g.Valid()
  {
    State(MkfsImage.FreshTables(g), {})
  }

  lemma FreshTop(g: Geometry)
    requires g.Valid()
    ensures Lawful(g, FreshState(g)) && FreshState(g).tables.used == {0} && FreshState(g).lost == {}
    ensures g.NodeCount() > 0 && VolumeOf(g, FreshState(g).tables) == Mkfs(g.NodeCount())
  {
    hide Sound, Inv, Mkfs, Geometry.Valid;
    FreshIsLawful(g);
    MkfsImage.FreshView(g);
    MkfsImage.NodeCountIs(g);
  }

  // The listings of the root after each new name.
  function Names(a: int, b: int, c: int, n: nat): (s: seq<Entry>)
    requires n <= 3 && 0 <= a < 0x8000 && 0 <= b < 0x8000 && 0 <= c < 0x8000
    ensures |s| == 2 + n
  {
    Dots(0, 0) + [Entry(a, NAME_A), Entry(b, NAME_B), Entry(c, NAME_C)][..n]
  }

  lemma NamesInOrder(a: int, b: int, c: int)
    requires 0 <= a < 0x8000 && 0 <= b < 0x8000 && 0 <= c < 0x8000
    ensures Names(a, b, c, 0) == Dots(0, 0)
    ensures Names(a, b, c, 1) == Dots(0, 0) + [Entry(a, NAME_A)]
    ensures Names(a, b, c, 2) == Names(a, b, c, 1) + [Entry(b, NAME_B)]
    ensures Names(a, b, c, 3) == Names(a, b, c, 2) + [Entry(c, NAME_C)]
    ensures GoesLast(Names(a, b, c, 0), NAME_A) && GoesLast(Names(a, b, c, 1), NAME_B)
    ensures GoesLast(Names(a, b, c, 2), NAME_C)
    ensures forall n, i :: 0 <= n <= 3 && 0 <= i < 2 + n ==> Names(a, b, c, n)[i].name != ROOT_NAME
    ensures Entry(0, NAME_A).Fits() && Entry(0, NAME_B).Fits() && Entry(0, NAME_C).Fits()
  {
    var s := [Entry(a, NAME_A), Entry(b, NAME_B), Entry(c, NAME_C)];
    assert s[..0] == [] && s[..1] == [s[0]] && s[..2] == [s[0], s[1]] && s[..3] == [s[0], s[1], s[2]];
    assert !Less(NAME_A, DOT) && !Less(NAME_A, DOT_DOT);
    assert !Less(NAME_B, DOT) && !Less(NAME_B, DOT_DOT) && !Less(NAME_B, NAME_A);
    assert !Less(NAME_C, DOT) && !Less(NAME_C, DOT_DOT) && !Less(NAME_C, NAME_A) && !Less(NAME_C, NAME_B);
  }

  // ----- a disk on which creat loses an entry -----

  // What mkfs makes of nine blocks of 64 bytes.
  const NINE := Geometry(64, 9, 1, 2, 6)

  lemma NineBlocks()
    ensures NINE.Valid() && NINE.blockSize == 64 && NINE.DataCount() == 3 && NINE.NodeCount() == 4
    ensures MkfsLayout.Optimal(3, 64, 9)
  {
    MkfsLayout.OptimalIfNextTooBig(3, 64, 9);
  }

  lemma FreshNine()
    ensures Mkfs(4) == [Inode(3, true, Dots(0, 0)), FREE, FREE, FREE] && FREE == Inode(0, false, [])
  {
  }

  lemma Roomy2(used: set<nat>, n: nat)
    requires |used| == n
    ensures K.Free(NINE, used) == 3 - n
  {
    NineBlocks();
  }

  // After mkdir of "/a".
  lemma FirstMade(r: int, now: State)
    requires NINE.Valid() && Did(NINE, FreshState(NINE), MakeDirectory([NAME_A]), r, now)
    ensures Lawful(NINE, now) && 0 < r < 4 && |now.tables.used| == 2 && now.lost == {}
    ensures VolumeOf(NINE, now.tables)
            == Mkfs(4)[r := Inode(2, true, Dots(r, 0))][0 := Inode(4, true, Names(r, 0, 0, 1))]
  {
    hide *;
    NineBlocks();
    FreshTop(NINE);
    FreshNine();
    NamesInOrder(0, 0, 0);
    QuotMonotoneAt(NINE, 2);
    RootHasRoom(NINE, FreshState(NINE), NAME_A);
    FreeHere(Mkfs(4), 1);
    Roomy2({0}, 1);
    DirectoryAdded(NINE, FreshState(NINE), NAME_A, r, now);
    NamesInOrder(r, 0, 0);
  }

  lemma FreeHere(v: Volume, x: nat)
    requires x < |v| && v[x].nlink == 0
    ensures HasFreeNode(v)
  {
  }

  // After mkdir of "/b", too.
  lemma SecondMade(r1: int, s1: State, r2: int, now: State)
    requires NINE.Valid() && Did(NINE, FreshState(NINE), MakeDirectory([NAME_A]), r1, s1)
    requires Did(NINE, s1, MakeDirectory([NAME_B]), r2, now)
    ensures Lawful(NINE, now) && 0 < r1 < 4 && 0 < r2 < 4 && r1 != r2 && |now.tables.used| == 3 && now.lost == {}
    ensures VolumeOf(NINE, now.tables)
            == Mkfs(4)[r1 := Inode(2, true, Dots(r1, 0))][r2 := Inode(2, true, Dots(r2, 0))]
                      [0 := Inode(5, true, Names(r1, r2, 0, 2))]
  {
    hide *;
    NineBlocks();
    FreshNine();
    FirstMade(r1, s1);
    var x := AnotherNode(r1, 0);
    NamesInOrder(r1, 0, 0);
    QuotMonotoneAt(NINE, 3);
    RootHasRoom(NINE, s1, NAME_B);
    FreeHere(VolumeOf(NINE, s1.tables), x);
    Roomy2(s1.tables.used, 2);
    DirectoryAdded(NINE, s1, NAME_B, r2, now);
    NamesInOrder(r1, r2, 0);
  }

  // A node besides the root and two others.
  lemma AnotherNode(a: nat, b: nat) returns (x: nat)
    ensures 0 < x < 4 && x != a && x != b
  {
    x := if a != 1 && b != 1 then 1 else if a != 2 && b != 2 then 2 else 3;
  }

  // Three directories with entries have a block each, and on a disk with three that is all there is.
  lemma ThreeDirectories(g: Geometry, s: State, a: nat, b: nat)
    requires Lawful(g, s) && g.DataCount() == 3 && 0 < a < |s.tables.inodes| && 0 < b < |s.tables.inodes| && a != b
    requires |VolumeOf(g, s.tables)| == |s.tables.inodes|
    requires forall x :: x == 0 || x == a || x == b ==>
               VolumeOf(g, s.tables)[x].isDir && VolumeOf(g, s.tables)[x].entries != []
    ensures DataShape(g, s.tables.data) && NodeShape(g, s.tables.inodes[0])
    ensures !InUse(g, s.tables.inodes[0], s.tables.data, 1) && DiskFull(g, s.tables.used)
  {
    hide *;
    FirstOwned(g, s, 0);
    FirstOwned(g, s, a);
    FirstOwned(g, s, b);
    OwnedApart(g, s, 0, a);
    OwnedApart(g, s, 0, b);
    OwnedApart(g, s, a, b);
    FullOfThree(g, s, a, b);
  }

  // The first block of a directory with entries.
  ghost function FirstOf(g: Geometry, t: Tables, x: nat): int {
    if x < |t.inodes| && DataShape(g, t.data) && NodeShape(g, t.inodes[x]) && Slots(g) > 0
    then Address(g, t.inodes[x], t.data, 0) else NOT_A_BLOCK
  }

  lemma FirstOwned(g: Geometry, s: State, x: nat)
    requires Lawful(g, s) && x < |s.tables.inodes| == |VolumeOf(g, s.tables)|
    requires VolumeOf(g, s.tables)[x].isDir && VolumeOf(g, s.tables)[x].entries != []
    ensures DataShape(g, s.tables.data) && NodeShape(g, s.tables.inodes[x]) && Live(s.tables.inodes[x])
    ensures FileOK(g, s.tables.inodes[x], s.tables.data) && Slots(g) > 1
    ensures InData(g, FirstOf(g, s.tables, x)) && Owns(g, s.tables.inodes[x], s.tables.data, FirstOf(g, s.tables, x))
    ensures FirstOf(g, s.tables, x) in s.tables.used
    ensures FirstOf(g, s.tables, x) == Address(g, s.tables.inodes[x], s.tables.data, 0)
  {
    InvShape(VolumeOf(g, s.tables));
    DirectoryIs(g, s.tables, s.lost, x);
    EntryIs0(g, s.tables.inodes[x], s.tables.data, VolumeOf(g, s.tables)[x].entries);
    OwnersParts(g, s, x);
    hide Lists, Listing, Inv, Shape, AllSound, VolumeOf, Leads;
  }

  lemma OwnersParts(g: Geometry, s: State, x: nat)
    requires Sound(g, s.tables, s.lost) && x < |s.tables.inodes| && Live(s.tables.inodes[x])
    ensures DataShape(g, s.tables.data) && FileOK(g, s.tables.inodes[x], s.tables.data)
    ensures forall d: nat :: Owns(g, s.tables.inodes[x], s.tables.data, d) ==> d in s.tables.used
    ensures Slots(g) > 1
  {
    FsckVerdict.OwnedParts(g, s.tables, s.lost);
    hide Owns, AllSound, Sound;
    forall d: nat | Owns(g, s.tables.inodes[x], s.tables.data, d)
      ensures d in s.tables.used
    {
      assert d in s.tables.used - s.lost;
    }
  }

  lemma OwnedApart(g: Geometry, s: State, x: nat, y: nat)
    requires Lawful(g, s) && x != y && x < |s.tables.inodes| && y < |s.tables.inodes|
    requires Live(s.tables.inodes[x]) && Live(s.tables.inodes[y])
    ensures DataShape(g, s.tables.data) && NodeShape(g, s.tables.inodes[x]) && NodeShape(g, s.tables.inodes[y])
    ensures forall d: int ::
              !(Owns(g, s.tables.inodes[x], s.tables.data, d) && Owns(g, s.tables.inodes[y], s.tables.data, d))
  {
    assert s.tables.inodes == Owners(s.tables.inodes, Nobody(s.lost));
    hide Owns, AllSound, Inv, VolumeOf;
  }

  lemma FullOfThree(g: Geometry, s: State, a: nat, b: nat)
    requires g.DataCount() == 3 && DataShape(g, s.tables.data) && Slots(g) > 1
    requires |s.tables.inodes| > 0 && a < |s.tables.inodes| && b < |s.tables.inodes|
    requires NodeShape(g, s.tables.inodes[0]) && NodeShape(g, s.tables.inodes[a]) && NodeShape(g, s.tables.inodes[b])
    requires FileOK(g, s.tables.inodes[0], s.tables.data)
    requires forall x :: x == 0 || x == a || x == b ==>
               && InData(g, FirstOf(g, s.tables, x)) && FirstOf(g, s.tables, x) in s.tables.used
               && Owns(g, s.tables.inodes[x], s.tables.data, FirstOf(g, s.tables, x))
    requires FirstOf(g, s.tables, 0) == Address(g, s.tables.inodes[0], s.tables.data, 0)
    requires forall d: int ::
               && !(Owns(g, s.tables.inodes[0], s.tables.data, d) && Owns(g, s.tables.inodes[a], s.tables.data, d))
               && !(Owns(g, s.tables.inodes[0], s.tables.data, d) && Owns(g, s.tables.inodes[b], s.tables.data, d))
               && !(Owns(g, s.tables.inodes[a], s.tables.data, d) && Owns(g, s.tables.inodes[b], s.tables.data, d))
    ensures !InUse(g, s.tables.inodes[0], s.tables.data, 1) && DiskFull(g, s.tables.used)
  {
    var node, data := s.tables.inodes[0], s.tables.data;
    var p, q, r := FirstOf(g, s.tables, 0), FirstOf(g, s.tables, a), FirstOf(g, s.tables, b);
    assert p != q && p != r && q != r;
    NoneForASecond(g, node, data, p, q, r);
    forall k: nat | k < g.DataCount()
      ensures k in s.tables.used
    {
      OneOfThree(p, q, r, k);
    }
  }

  lemma OneOfThree(p: int, q: int, r: int, t: int)
    requires 0 <= p < 3 && 0 <= q < 3 && 0 <= r < 3 && p != q && p != r && q != r
    ensures 0 <= t < 3 ==> t == p || t == q || t == r
  {
  }

  lemma NoneForASecond(g: Geometry, node: IndexNode, data: seq<Block>, p: int, q: int, r: int)
    requires g.DataCount() == 3 && DataShape(g, data) && Slots(g) > 1 && FileOK(g, node, data)
    requires InData(g, p) && InData(g, q) && InData(g, r) && p != q && p != r && q != r
    requires p == Address(g, node, data, 0) && !Owns(g, node, data, q) && !Owns(g, node, data, r)
    ensures !InUse(g, node, data, 1)
  {
    var t := Address(g, node, data, 1);
    OneOfThree(p, q, r, t);
    NotABlockIsOutside(g, p);
    assert t != NOT_A_BLOCK ==> Owns(g, node, data, t);
  }

  // creat of "/c" is something a user can ask for, and there is no room for its entry.
  lemma NoRoomLeft(r1: int, s1: State, r2: int, s2: State, mode: Short)
    requires NINE.Valid() && Did(NINE, FreshState(NINE), MakeDirectory([NAME_A]), r1, s1)
    requires Did(NINE, s1, MakeDirectory([NAME_B]), r2, s2) && !(0x4000 <= mode < 0x5000)
    ensures Lawful(NINE, s2) && Feasible(NINE, s2.tables, MakeFile([NAME_C], mode))
    ensures Adds(VolumeOf(NINE, s2.tables), MakeFile([NAME_C], mode)) && !HasRoomFor(NINE, s2.tables, [NAME_C])
    ensures !Harmless(NINE, s2.tables, MakeFile([NAME_C], mode))
  {
    hide *;
    NineBlocks();
    FreshNine();
    SecondMade(r1, s1, r2, s2);
    var v, q := VolumeOf(NINE, s2.tables), MakeFile([NAME_C], mode);
    NamesInOrder(r1, r2, 0);
    RootIsListed(NINE, s2);
    DotsAreSome(r1);
    DotsAreSome(r2);
    ThreeDirectories(NINE, s2, r1, r2);
    QuotMonotoneAt(NINE, 4);
    NewAtTop(v, NAME_C);
    RoomForIs(NINE, s2.tables, [NAME_C]);
    NoRoomInNext(NINE, s2.tables.inodes[0], s2.tables.data, s2.tables.used, 4);
    var x := AnotherNode(r1, r2);
    FreeHere(v, x);
    AddsIs(v, q);
    RequestIsFeasible(NINE, s2, q);
    Harmful(NINE, s2.tables, q);
  }

  lemma DotsAreSome(x: nat)
    requires x < 0x8000
    ensures Dots(x, 0) != []
  {
  }

  lemma NoRoomInNext(g: Geometry, node: IndexNode, data: seq<Block>, used: set<nat>, k: nat)
    requires g.Valid() && DataShape(g, data) && NodeShape(g, node) && !InUse(g, node, data, BlockOf(g, k))
    requires DiskFull(g, used)
    ensures !HasRoom(g, node, data, used, k)
  {
  }

  lemma Harmful(g: Geometry, t: Tables, q: Request)
    requires Adds(VolumeOf(g, t), q) && !HasRoomFor(g, t, q.path)
    ensures !Harmless(g, t, q)
  {
    hide VolumeOf, HasRoomFor, Adds;
  }

  const TWO_DIRECTORIES: seq<Request> := [MakeDirectory([NAME_A])] + ([MakeDirectory([NAME_B])] + [])

  lemma TwoAreSafe()
    requires NINE.Valid()
    ensures Safe(NINE, FreshState(NINE), [MakeDirectory([NAME_A])] + ([MakeDirectory([NAME_B])] + []))
  {
    hide *;
    NineBlocks();
    FreshTop(NINE);
    FreshNine();
    NamesInOrder(0, 0, 0);
    QuotMonotoneAt(NINE, 2);
    var q1, q2 := MakeDirectory([NAME_A]), MakeDirectory([NAME_B]);
    RootHasRoom(NINE, FreshState(NINE), NAME_A);
    NewAtTop(Mkfs(4), NAME_A);
    RequestIsFeasible(NINE, FreshState(NINE), q1);
    FileIsHarmless(NINE, FreshState(NINE).tables, q1);
    forall r: int, now: State | Did(NINE, FreshState(NINE), q1, r, now)
      ensures Safe(NINE, now, [q2] + [])
    {
      SecondIsSafe(r, now);
    }
    SafeNow(NINE, FreshState(NINE), q1, [q2] + []);
  }

  lemma SecondIsSafe(r: int, now: State)
    requires NINE.Valid() && Did(NINE, FreshState(NINE), MakeDirectory([NAME_A]), r, now)
    ensures Safe(NINE, now, [MakeDirectory([NAME_B])] + [])
  {
    hide *;
    NineBlocks();
    FirstMade(r, now);
    FreshNine();
    NamesInOrder(r, 0, 0);
    QuotMonotoneAt(NINE, 3);
    var q := MakeDirectory([NAME_B]);
    RootHasRoom(NINE, now, NAME_B);
    NewAtTop(VolumeOf(NINE, now.tables), NAME_B);
    RequestIsFeasible(NINE, now, q);
    FileIsHarmless(NINE, now.tables, q);
    forall r2: int, s2: State | Did(NINE, now, q, r2, s2)
      ensures Safe(NINE, s2, [])
    {
      NothingIsSafe(NINE, s2);
    }
    SafeNow(NINE, now, q, []);
  }

  // mkfs of nine blocks, mkdir of "/a" and of "/b", creat of "/c": creat reports success, but the entry is lost and
  // the law is broken.
  method LostEntryHappens(super: Block, mode: Short, left: int)
    returns (fs: FileSystem, status: int, ghost states: seq<State>, ghost rs: seq<int>)
    requires |super| == 64 && !(0x4000 <= mode < 0x5000)
    ensures fs.Valid() && fs.g == NINE && status == 0
    ensures NINE.Valid() && |states| == 3 && states[0] == FreshState(NINE) && DiskRun(NINE, states, TWO_DIRECTORIES, rs)
    ensures Lawful(NINE, states[2]) && !HasRoomFor(NINE, states[2].tables, [NAME_C])
    ensures Adds(VolumeOf(NINE, states[2].tables), MakeFile([NAME_C], mode))
    ensures !Inv(VolumeOf(NINE, fs.Now()))
  {
    NineBlocks();
    hide *;
    ghost var qs := TWO_DIRECTORIES;
    TwoIs();
    TwoAreSafe();
    FreshTop(NINE);
    FreshStateIs(NINE);
    fs := MkfsImage.Format(NINE, super);
    states, rs := PerformAll(fs, [MakeDirectory([NAME_A]), MakeDirectory([NAME_B])], left, {});
    RunLast(NINE, states, qs, rs);
    RunStep(NINE, states, qs, rs, 0);
    RunStep(NINE, states, qs, rs, 1);
    NoRoomLeft(rs[0], states[1], rs[1], states[2], mode);
    LawfulParts(NINE, states[2]);
    ghost var r, lost;
    status, r, lost := Perform(fs, MakeFile([NAME_C], mode), left, states[2].lost);
    AnswerIs(NINE, states[2].tables, MakeFile([NAME_C], mode), left, r);
  }

  lemma TwoIs()
    ensures TWO_DIRECTORIES == [MakeDirectory([NAME_A]), MakeDirectory([NAME_B])]
    ensures [MakeDirectory([NAME_A])] + ([MakeDirectory([NAME_B])] + []) == TWO_DIRECTORIES
  {
  }

  lemma FreshStateIs(g: Geometry)
    requires g.Valid()
    ensures FreshState(g) == State(MkfsImage.FreshTables(g), {})
    ensures Sound(g, MkfsImage.FreshTables(g), {}) && Inv(VolumeOf(g, MkfsImage.FreshTables(g)))
  {
    FreshIsLawful(g);
  }

  // ----- a file in the root -----

  // A disk with room for more than the root.
  predicate Spacious(g: Geometry, blocks: nat, nodes: nat) {
    g.Valid() && g.DataCount() >= blocks && g.NodeCount() >= nodes
  }

  lemma SpaciousIs(g: Geometry, blocks: nat, nodes: nat)
    ensures Spacious(g, blocks, nodes) <==> g.Valid() && g.DataCount() >= blocks && g.NodeCount() >= nodes
  {
  }

  lemma FreshRoot(n: nat)
    requires n >= 1
    ensures |Mkfs(n)| == n && Mkfs(n)[0] == Inode(3, true, Dots(0, 0))
    ensures forall x :: 1 <= x < n ==> Mkfs(n)[x] == Inode(0, false, [])
  {
  }

  // creat of "/a" on a fresh disk can be asked for and does no harm.
  lemma FirstFile(g: Geometry, mode: Short)
    requires Spacious(g, 1, 2) && !(0x4000 <= mode < 0x5000)
    ensures g.Valid()
    ensures Feasible(g, FreshState(g).tables, MakeFile([NAME_A], mode))
    ensures Harmless(g, FreshState(g).tables, MakeFile([NAME_A], mode))
    ensures HasRoomFor(g, FreshState(g).tables, [NAME_A]) && TakenFor(g, FreshState(g).tables, [NAME_A]) == 0
  {
    hide *;
    SpaciousIs(g, 1, 2);
    FreshTop(g);
    FreshRoot(g.NodeCount());
    NamesInOrder(0, 0, 0);
    QuotMonotoneAt(g, 2);
    RootHasRoom(g, FreshState(g), NAME_A);
    RequestIsFeasible(g, FreshState(g), MakeFile([NAME_A], mode));
    FileIsHarmless(g, FreshState(g).tables, MakeFile([NAME_A], mode));
  }

  // After it the file is there, without a block.
  lemma FileThereNow(g: Geometry, mode: Short, r: int, now: State)
    requires Spacious(g, 1, 2) && !(0x4000 <= mode < 0x5000) && g.Valid()
    requires Did(g, FreshState(g), MakeFile([NAME_A], mode), r, now)
    ensures Lawful(g, now) && 0 < r < |now.tables.inodes| == g.NodeCount() && now.tables.inodes[r] == T.NewNode(mode)
    ensures |now.tables.used| == 1 && now.lost == {}
    ensures var v := VolumeOf(g, now.tables);
            && v == Mkfs(g.NodeCount())[r := Inode(1, false, [])][0 := Inode(3, true, Names(r, 0, 0, 1))]
            && IsFile(v, [NAME_A]) && Target(v, [NAME_A]) == r && !Missing(v, [NAME_A])
            && !IsDirectory(v, Walk(v, 0, [NAME_A]))
  {
    hide *;
    SpaciousIs(g, 1, 2);
    FirstFile(g, mode);
    FreshTop(g);
    FreshRoot(g.NodeCount());
    NamesInOrder(0, 0, 0);
    FreeHere(Mkfs(g.NodeCount()), 1);
    FileAdded(g, FreshState(g), NAME_A, mode, r, now);
    RootIsListed(g, now);
    NamesInOrder(r, 0, 0);
    NamedA(r);
    FoundAtTop(VolumeOf(g, now.tables), NAME_A, 2);
  }

  lemma NamedA(r: int)
    requires 0 <= r < 0x8000
    ensures Names(r, 0, 0, 1)[2] == Entry(r, NAME_A)
    ensures Names(r, 0, 0, 1)[0].name != NAME_A && Names(r, 0, 0, 1)[1].name != NAME_A
  {
  }

  // ----- mkdir over a file -----

  // mkdir of "/a" where it is a file breaks the law on every disk mkfs makes with a block to spare.
  lemma MkdirOverFileBreaks(g: Geometry, mode: Short, r: int, now: State)
    requires Spacious(g, 2, 2) && !(0x4000 <= mode < 0x5000) && g.Valid()
    requires Did(g, FreshState(g), MakeFile([NAME_A], mode), r, now)
    ensures Lawful(g, now) && Feasible(g, now.tables, MakeDirectory([NAME_A]))
    ensures !Harmless(g, now.tables, MakeDirectory([NAME_A]))
  {
    hide *;
    SpaciousIs(g, 2, 2);
    SpaciousIs(g, 1, 2);
    FileThereNow(g, mode, r, now);
    FreshRoot(g.NodeCount());
    RootIsListed(g, now);
    NotFull(g, now.tables.used);
    NewIsEmpty(g, now.tables.data, mode);
    OnceEmpty(g, now.tables, r);
    OverFileIsHarmful(g, now.tables, [NAME_A]);
    FeasibleNow(g, now.tables, MakeDirectory([NAME_A]));
  }

  lemma NewIsEmpty(g: Geometry, data: seq<Block>, mode: Short)
    requires DataShape(g, data)
    ensures NodeShape(g, T.NewNode(mode)) && T.NewNode(mode).size == 0 && T.NewNode(mode).Shaped()
    ensures T.NewNode(mode).indirect == NOT_A_BLOCK && Live(T.NewNode(mode))
    ensures forall b: nat :: b < Slots(g) ==> Address(g, T.NewNode(mode), data, b) == NOT_A_BLOCK
  {
    T.EmptyOwned(g, data, mode);
  }

  lemma OnceEmpty(g: Geometry, t: Tables, x: nat)
    requires x < |t.inodes| && DataShape(g, t.data) && NodeShape(g, t.inodes[x]) && t.inodes[x].size >= 0
    requires !DiskFull(g, t.used)
    ensures HasRoomOnceEmpty(g, t, x)
  {
  }

  lemma OverFileIsHarmful(g: Geometry, t: Tables, path: Path)
    requires var v := VolumeOf(g, t);
             && Shape(v) && IsFile(v, path) && Target(v, path) < |v| && v[Target(v, path)].nlink != 3
             && HasRoomOnceEmpty(g, t, Target(v, path))
    ensures !Harmless(g, t, MakeDirectory(path))
  {
    hide VolumeOf, HasRoomOnceEmpty, IsFile, Target, RecordedParent, Shape, Adds;
  }

  // creat of "/a" and mkdir of "/a" after mkfs: both report success, and the law is broken.
  method MkdirOverFileHappens(g: Geometry, super: Block, mode: Short, left: int)
    returns (fs: FileSystem, status: int, ghost before: State)
    requires Spacious(g, 2, 2) && |super| == g.blockSize && !(0x4000 <= mode < 0x5000)
    ensures fs.Valid() && fs.g == g && status == 0
    ensures Lawful(g, before) && !Inv(VolumeOf(g, fs.Now()))
  {
    hide *;
    SpaciousIs(g, 2, 2);
    SpaciousIs(g, 1, 2);
    ghost var r;
    fs, r, before := WithFile(g, super, mode, left);
    MkdirOverFileBreaks(g, mode, r, before);
    LawfulParts(g, before);
    SpaceOverFile(g, before.tables, mode, r);
    ghost var r2, lost;
    status, r2, lost := Perform(fs, MakeDirectory([NAME_A]), left, before.lost);
    AnswerIs(g, before.tables, MakeDirectory([NAME_A]), left, r2);
  }

  lemma SpaceOverFile(g: Geometry, t: Tables, mode: Short, r: nat)
    requires Spacious(g, 2, 2) && DataShape(g, t.data) && |t.used| == 1
    requires IsFile(VolumeOf(g, t), [NAME_A]) && Target(VolumeOf(g, t), [NAME_A]) == r < |t.inodes|
    requires t.inodes[r] == T.NewNode(mode)
    ensures MkdirSpace(g, t, [NAME_A]).Enough?
  {
    NotFull(g, t.used);
    NewIsEmpty(g, t.data, mode);
    NotMissing(VolumeOf(g, t), [NAME_A]);
    hide VolumeOf, IsFile, Missing, Target, DiskFull, T.NewNode;
  }

  // mkfs and creat of "/a".
  method WithFile(g: Geometry, super: Block, mode: Short, left: int)
    returns (fs: FileSystem, ghost r: int, ghost now: State)
    requires Spacious(g, 1, 2) && |super| == g.blockSize && !(0x4000 <= mode < 0x5000)
    ensures fresh(fs) && fresh(fs.freeListBitBlock) && fresh(fs.indexBlockBytes)
    ensures fs.Valid() && fs.g == g && fs.Now() == now.tables && g.Valid()
    ensures Did(g, FreshState(g), MakeFile([NAME_A], mode), r, now)
    ensures Lawful(g, now) && 0 < r < |now.tables.inodes| == g.NodeCount() && now.tables.inodes[r] == T.NewNode(mode)
    ensures |now.tables.used| == 1 && now.lost == {} && DataShape(g, now.tables.data)
    ensures var v := VolumeOf(g, now.tables); IsFile(v, [NAME_A]) && Target(v, [NAME_A]) == r
  {
    hide *;
    SpaciousIs(g, 1, 2);
    FirstFile(g, mode);
    FreshStateIs(g);
    fs := MkfsImage.Format(g, super);
    ghost var lost;
    var status;
    status, r, lost := Perform(fs, MakeFile([NAME_A], mode), left, {});
    now := State(fs.Now(), lost);
    FileThereNow(g, mode, r, now);
    RootIsListed(g, now);
  }

  // ----- a block that is lost -----

  // What mkfs makes of seven blocks of 64 bytes.
  const SEVEN := Geometry(64, 7, 1, 2, 5)

  lemma SevenBlocks()
    ensures SEVEN.Valid() && SEVEN.blockSize == 64 && SEVEN.DataCount() == 2 && SEVEN.NodeCount() == 3
    ensures MkfsLayout.Optimal(2, 64, 7) && Spacious(SEVEN, 1, 2) && Slots(SEVEN) == 16
  {
    MkfsLayout.OptimalIfNextTooBig(2, 64, 7);
  }

  lemma OneLeft(used: set<nat>)
    requires |used| == 1 && forall d :: d in used ==> d < 2
    ensures used == {0} || used == {1}
  {
    var d := Collections.SomeMember(used);
    assert used == {d} + (used - {d});
    assert |used - {d}| == 0;
  }

  lemma OneIsNotEnough(used: set<nat>, node: IndexNode)
    requires |used| == 1 && (forall d :: d in used ==> d < SEVEN.DataCount()) && node.indirect == NOT_A_BLOCK
    ensures !FsDescriptor.Enough(SEVEN, node, used, MAX_DIRECT_BLOCKS)
  {
    SevenBlocks();
    OneLeft(used);
    assert 0 !in used || 1 !in used;
  }

  // Open "/a" for writing.
  method OpenA(fs: FileSystem, ghost now: State, ghost r: int) returns (fd: FileDescriptor)
    requires fs.Valid() && Lawful(fs.g, now) && fs.Now() == now.tables && now.lost == {}
    requires var v := VolumeOf(fs.g, now.tables); IsFile(v, [NAME_A]) && Target(v, [NAME_A]) == r
    modifies fs`currentIndexNodeBlock, fs.indexBlockBytes
    ensures fresh(fd) && fresh(fd.bytes) && fd.fs == fs && fs.Valid() && fd.Valid() && fs.Now() == now.tables
    ensures 0 <= r < |fs.inodes| && fd.indexNode == fs.inodes[r] && fd.offset == 0 && fd.held == Nobody({})
    ensures fd.Now() == Snapshot(fs.inodes, fs.used, fs.data, fs.inodes[r])
    ensures Owned(fs.g, fs.used, fs.inodes, fs.data, Nobody({})) && fd.bytes[..] == Zeros(fs.g.blockSize)
  {
    hide *;
    ghost var t0, v := fs.Now(), VolumeOf(fs.g, fs.Now());
    FsUnlink.TablesNow(fs);
    LawfulParts(fs.g, now);
    var k := new Kernel(fs, {});
    FsUnlink.TablesNow(fs);
    BootedParts(k);
    WholeRoot(fs.g, t0, {}, k.root);
    ResolveFresh(v, [NAME_A]);
    PathEnds(v, [NAME_A]);
    var n, node := k.FindIndexNode([NAME_A]);
    FsUnlink.TablesNow(fs);
    RunningParts(k);
    FileIs(fs.g, t0, {}, k.root, n);
    NodeFits(fs.g, t0, {}, n);
    NodeLeads(fs.g, node, fs.data);
    fd := new FileDescriptor(fs, n, node, Nobody({}));
    FsUnlink.TablesNow(fs);
    OpenForWrite(fd, t0, {}, k.root);
  }

  // mkfs of seven blocks, creat of "/a", a write to its block ten: the code reports success, but the one block left
  // went to the data, and the file has neither it nor an indirect block.
  method BlockLossHappens(super: Block, mode: Short, left: int)
    returns (fs: FileSystem, fd: FileDescriptor, status: int, ghost was: Snapshot)
    requires |super| == 64 && !(0x4000 <= mode < 0x5000)
    ensures fs.g == SEVEN && fd.fs == fs
    ensures fd.indexNodeNumber < |was.files| && was.files[fd.indexNodeNumber] == was.node
    ensures status == 0 && BlockLost(SEVEN, was, fd.Now(), Zeros(64))
    ensures |was.used| == 1 && Owned(SEVEN, was.used, was.files, was.data, Nobody({}))
  {
    SevenBlocks();
    hide *;
    ghost var r, now;
    fs, r, now := WithFile(SEVEN, super, mode, left);
    fd := OpenA(fs, now, r);
    FsUnlink.TablesNow(fs);
    NewIsEmpty(SEVEN, fs.data, mode);
    UsedInData(fs);
    OneIsNotEnough(fs.used, fd.indexNode);
    RoomIs(fd, 10);
    MostDirect();
    K.NotTooBig(fd, 10);
    was := fd.Now();
    OpenNumber(fd, was);
    status := fd.WriteBlock(10);
  }

  lemma MostDirect()
    ensures MAX_DIRECT_BLOCKS == 10
  {
  }

  lemma OpenNumber(fd: FileDescriptor, was: Snapshot)
    requires fd.Valid() && was == fd.Now() && fd.held == Nobody({})
    ensures fd.indexNodeNumber < |was.files| && was.files[fd.indexNodeNumber] == was.node
    ensures fd.indexNode == was.node && fd.fs.used == was.used && fd.fs.data == was.data
  {
  }

  // ----- a write that is not a string write -----

  // Where the writes below go.
  lemma Positions(g: Geometry)
    requires g.Valid()
    ensures g.blockSize >= 64 && MAX_DIRECT_BLOCKS == 10 && Slots(g) >= 16
    ensures var n := g.blockSize;
            && Quot(0, n) == 0 && K.LastTouched(0, 3, n) == 0 && Rem(3, n) != 0 && Quot(3, n) == 0
            && Quot(n + 1, n) == 1 && Rem(n + 1, n) == 1 && K.LastTouched(n + 1, 0, n) == 1
            && Quot(n + 6, n) == 1 && K.LastTouched(n + 6, 1, n) == 1 && Quot(1, n) == 0 && Rem(1, n) == 1
            && K.Fits(g, 3) && K.Fits(g, n + 1) && K.Fits(g, n + 7) && n + 7 <= Slots(g) * n
  {
    var n := g.blockSize;
    TimesAtLeast(Slots(g), 16, n);
    QuotRemOf(0, n, 0, 0);
    QuotRemOf(1, n, 0, 1);
    QuotRemOf(2, n, 0, 2);
    QuotRemOf(3, n, 0, 3);
    QuotRemOf(n + 1, n, 1, 1);
    QuotRemOf(n + 6, n, 1, 6);
  }

  // A write within a block that needs no indirect block takes one block at most.
  lemma OneBlockAtMost(g: Geometry, s: Snapshot, start: nat, len: nat, q: nat)
    requires DataShape(g, s.data) && NodeShape(g, s.node) && q < MAX_DIRECT_BLOCKS && q < Slots(g) && g.blockSize >= 1
    requires Quot(start, g.blockSize) == q == K.LastTouched(start, len, g.blockSize)
    ensures K.Spare(g, s, start, len) >= K.Free(g, s.used) - 1
    ensures s.node.Shaped() && K.Roomy(g, s.node, s.used, q, q)
  {
    K.HolesFrom(g, s.node, s.data, q, q);
    hide Address, Quot, K.LastTouched, K.Free;
  }

  lemma BufferIs(fd: FileDescriptor, at: nat)
    requires K.Buffered(fd, at)
    ensures fd.Readable() && fd.fs.g.blockSize >= 1
    ensures Quot(at, fd.fs.g.blockSize) < |fd.File()| && fd.bytes[..] == fd.File()[Quot(at, fd.fs.g.blockSize)]
  {
    hide FileDescriptor.File, Quot;
  }

  lemma NothingParts(fd: FileDescriptor, start: nat, stale: Block, c: seq<Block>, was: Snapshot)
    requires fd.fs.g.blockSize >= 1 && Rem(start, fd.fs.g.blockSize) > 0
    requires K.WroteNothing(fd, start, stale, c, was)
    ensures K.Kept(fd, was) && fd.Readable() && Quot(start, fd.fs.g.blockSize) < |c|
    ensures fd.File() == c[Quot(start, fd.fs.g.blockSize) := stale]
    ensures fd.indexNode.size == K.Larger(was.node.size, start)
    ensures K.Free(fd.fs.g, fd.fs.used) == K.Spare(fd.fs.g, was, start, 0)
  {
    hide FileDescriptor.File, Quot, Rem, K.Went, K.Spare, K.Free, K.Larger;
  }

  // What the file holds before the last write: the second byte of the first write shows beyond the size.
  lemma StaleShows(c0: seq<Block>, n: nat)
    requires n >= 64 && K.Cells(c0, n) && |c0| >= 16 && 3 <= |c0| * n
    requires Quot(1, n) == 0 && Rem(1, n) == 1 && Quot(n + 1, n) == 1 && Rem(n + 1, n) == 1
    ensures var c1 := K.Splice(c0, n, 0, [1, 2, 3]); !K.ZeroGap(c1[1 := c1[0]], n, n + 1, n + 6)
  {
    var c1 := K.Splice(c0, n, 0, [1, 2, 3]);
    K.SpliceAt(c0, n, 0, [1, 2, 3], 1);
    hide K.Splice, Quot, Rem;
    assert K.ByteAt(c1, n, 1) == 2;
    assert K.ByteAt(c1[1 := c1[0]], n, n + 1) == 2;
  }

  // On any disk of four data blocks: creat of "/a", three bytes written at its start, nothing written just beyond its
  // first block, which puts the buffer over its second; then a byte written a little further on. The last write is
  // not what it should be on the string of bytes: the file shows a byte that was never written there.
  method StaleBytesShow(g: Geometry, super: Block, mode: Short, left: int)
    returns (fs: FileSystem, fd: FileDescriptor, count: int, ghost c: seq<Block>)
    requires Spacious(g, 4, 2) && |super| == g.blockSize && !(0x4000 <= mode < 0x5000)
    ensures fs.g == g && fd.fs == fs && fd.Valid() && count == 1
    ensures var n := g.blockSize;
            && K.Cells(c, n) && n + 7 <= |c| * n && !K.ZeroGap(c, n, n + 1, n + 6)
            && fd.File() == K.Splice(c, n, n + 6, [9]) && fd.indexNode.size == n + 7
            && K.FileString(fd.File(), n, n + 7) != K.StringWrite(K.FileString(c, n, n + 1), n + 6, [9])
  {
    hide *;
    SpaciousIs(g, 4, 2);
    SpaciousIs(g, 1, 2);
    Positions(g);
    ghost var r, now;
    fs, r, now := WithFile(g, super, mode, left);
    fd := OpenA(fs, now, r);
    FsUnlink.TablesNow(fs);
    NewIsEmpty(g, fs.data, mode);
    FreeOfCount(g, fs.used);
    var n := g.blockSize;
    ghost var f;
    // three bytes
    FileNowIs(fd);
    ghost var was0, c0 := fd.Now(), fd.File();
    OneBlockAtMost(g, was0, 0, 3, 0);
    count, f := K.Write(fd, [1, 2, 3]);
    WroteParts(fd, 0, [1, 2, 3], c0, was0);
    K.KeptParts(fd, was0);
    BufferIs(fd, 3);
    K.LargerIs(0, 3);
    // none
    FileNowIs(fd);
    ghost var was1, c1, stale := fd.Now(), fd.File(), fd.bytes[..];
    OneBlockAtMost(g, was1, n + 1, 0, 1);
    fd.offset := n + 1;
    count, f := K.Write(fd, []);
    NothingParts(fd, n + 1, stale, c1, was1);
    K.KeptParts(fd, was1);
    K.LargerIs(3, n + 1);
    // one
    FileNowIs(fd);
    ghost var was2 := fd.Now();
    c := fd.File();
    OneBlockAtMost(g, was2, n + 6, 1, 1);
    StaleShows(c0, n);
    fd.offset := n + 6;
    count, f := K.Write(fd, [9]);
    WroteParts(fd, n + 6, [9], c, was2);
    K.LargerIs(n + 1, n + 7);
    K.KeptParts(fd, was2);
    K.WriteRefinesString(c, n, n + 1, n + 6, [9]);
  }

  lemma FileNowIs(fd: FileDescriptor)
    requires fd.Valid()
    ensures fd.Readable() && DataShape(fd.fs.g, fd.fs.data) && NodeShape(fd.fs.g, fd.indexNode)
    ensures fd.indexNode.Shaped()
    ensures fd.Now() == Snapshot(fd.Files(), fd.fs.used, fd.fs.data, fd.indexNode)
    ensures K.Cells(fd.File(), fd.fs.g.blockSize) && |fd.File()| == Slots(fd.fs.g)
  {
    K.FileNow(fd);
    K.FileCells(fd);
  }

  // ----- a block that unlink leaves behind -----

  // Where the write goes: the first block that needs an indirect one.
  lemma TenthBlock(g: Geometry)
    requires g.Valid()
    ensures g.blockSize >= 64 && MAX_DIRECT_BLOCKS == 10 < Slots(g)
    ensures var n := g.blockSize;
            && Quot(10 * n, n) == 10 && Rem(10 * n, n) == 0 && K.LastTouched(10 * n, 1, n) == 10
            && K.Fits(g, 10 * n + 1) && 10 * n + 1 <= Slots(g) * n
  {
    var n := g.blockSize;
    QuotRemOf(10 * n, n, 10, 0);
    TimesAtLeast(Slots(g), 11, n);
  }

  // It takes two blocks.
  lemma TwoBlocks(g: Geometry, s: Snapshot, mode: Short)
    requires g.Valid() && DataShape(g, s.data) && s.node == T.NewNode(mode)
    ensures K.Spare(g, s, 10 * g.blockSize, 1) == K.Free(g, s.used) - 2
    ensures s.node.Shaped() && (K.Free(g, s.used) != 1 ==> K.Roomy(g, s.node, s.used, 10, 10))
  {
    NewIsEmpty(g, s.data, mode);
    TenthBlock(g);
    K.HolesFrom(g, s.node, s.data, 10, 10);
    hide Address, Quot, Rem, K.LastTouched, T.NewNode;
  }

  lemma WriteIsFeasible(g: Geometry, mode: Short, r: int, now: State)
    requires Spacious(g, 3, 2) && !(0x4000 <= mode < 0x5000) && g.Valid()
    requires Did(g, FreshState(g), MakeFile([NAME_A], mode), r, now)
    ensures Feasible(g, now.tables, Write([NAME_A], 10 * g.blockSize, [7]))
    ensures Harmless(g, now.tables, Write([NAME_A], 10 * g.blockSize, [7]))
  {
    hide *;
    SpaciousIs(g, 3, 2);
    SpaciousIs(g, 1, 2);
    FileThereNow(g, mode, r, now);
    RootIsListed(g, now);
    FreeOfCount(g, now.tables.used);
    TwoBlocks(g, Snapshot(now.tables.inodes, now.tables.used, now.tables.data, now.tables.inodes[r]), mode);
    TenthBlock(g);
    WriteFitsNow(g, now.tables, [NAME_A], 10 * g.blockSize, 1);
    FeasibleWrite(g, now.tables, Write([NAME_A], 10 * g.blockSize, [7]));
  }

  lemma WriteFitsNow(g: Geometry, t: Tables, path: Path, offset: nat, len: nat)
    requires g.Valid() && g.blockSize >= 1 && K.Fits(g, offset + len) && IsFile(VolumeOf(g, t), path)
    requires var n := Target(VolumeOf(g, t), path);
             && n < |t.inodes| && t.inodes[n].Shaped()
             && K.Roomy(g, t.inodes[n], t.used, Quot(offset, g.blockSize), K.LastTouched(offset, len, g.blockSize))
    ensures WriteFits(g, t, path, offset, len)
  {
    hide VolumeOf, IsFile, Target, K.Fits, K.Roomy, K.LastTouched, Quot;
  }

  lemma FeasibleWrite(g: Geometry, t: Tables, q: Request)
    requires q.Write? && !IsDirectory(VolumeOf(g, t), Walk(VolumeOf(g, t), 0, q.path))
    requires WriteFits(g, t, q.path, q.offset, |q.buf|)
    ensures Feasible(g, t, q) && Harmless(g, t, q)
  {
    hide VolumeOf, WriteFits, Walk, IsDirectory;
  }

  // After the write the file has an indirect block.
  lemma IndirectThere(g: Geometry, mode: Short, r: int, s1: State, r2: int, s2: State)
    requires Spacious(g, 3, 2) && !(0x4000 <= mode < 0x5000) && g.Valid()
    requires Did(g, FreshState(g), MakeFile([NAME_A], mode), r, s1)
    requires Did(g, s1, Write([NAME_A], 10 * g.blockSize, [7]), r2, s2)
    ensures Lawful(g, s2) && s2.lost == {} && IsFile(VolumeOf(g, s2.tables), [NAME_A])
    ensures 0 <= r < |s2.tables.inodes| && Target(VolumeOf(g, s2.tables), [NAME_A]) == r
    ensures s2.tables.inodes[r].nlink == 1 && s2.tables.inodes[r].indirect != NOT_A_BLOCK
  {
    hide *;
    SpaciousIs(g, 3, 2);
    SpaciousIs(g, 1, 2);
    var q := Write([NAME_A], 10 * g.blockSize, [7]);
    FileThereNow(g, mode, r, s1);
    RootIsListed(g, s1);
    FreeOfCount(g, s1.tables.used);
    TwoBlocks(g, Snapshot(s1.tables.inodes, s1.tables.used, s1.tables.data, s1.tables.inodes[r]), mode);
    TenthBlock(g);
    WriteIsFeasible(g, mode, r, s1);
    DidParts(g, s1, q, r2, s2);
    LawfulAfter(g, s1, q, r2, s2);
    LawfulParts(g, s1);
    SameLost(g, s1, q, r2, s2);
    VolumeAfter(g, s1, q, r2, s2);
    AfterWriteIs(g, s1.tables, q, r2);
    WroteTenth(g, s1.tables, s2.tables, r, r2, mode);
  }

  lemma AfterWriteIs(g: Geometry, t: Tables, q: Request, r: int)
    requires q.Write?
    ensures After(g, t, q, r) == VolumeOf(g, t)
  {
    hide VolumeOf;
  }

  lemma WroteTenth(g: Geometry, was: Tables, now: Tables, x: nat, r2: int, mode: Short)
    requires g.Valid() && WroteFile(g, was, now, x, 10 * g.blockSize, [7], r2) && DataShape(g, was.data)
    requires was.inodes[x] == T.NewNode(mode)
    requires K.Spare(g, Snapshot(was.inodes, was.used, was.data, was.inodes[x]), 10 * g.blockSize, 1) >= 0
    ensures x < |now.inodes| && now.inodes[x].nlink == 1 && now.inodes[x].indirect != NOT_A_BLOCK
  {
    TenthBlock(g);
    WroteNode(g, was, now, x, 10 * g.blockSize, [7], r2);
    var c, c' := Contents(g, was.inodes[x], was.data), Contents(g, now.inodes[x], now.data);
    FileIsCells(g, was.inodes[x], was.data);
    K.SpliceAt(c, g.blockSize, 10 * g.blockSize, [7], 10 * g.blockSize);
    hide *;
    OneLink(mode);
    ByteIs(c', g.blockSize, 10 * g.blockSize);
    NotZero(c'[10], g.blockSize, 0);
    HoleIsZero(g, now.inodes[x], now.data, 10);
    NoIndirectNoTenth(g, now.inodes[x], now.data, 10);
  }

  lemma OneLink(mode: Short)
    ensures T.NewNode(mode).nlink == 1
  {
  }

  lemma WroteNode(g: Geometry, was: Tables, now: Tables, x: nat, offset: nat, buf: seq<Byte>, r: int)
    requires WroteFile(g, was, now, x, offset, buf, r) && |buf| > 0
    requires K.Spare(g, Snapshot(was.inodes, was.used, was.data, was.inodes[x]), offset, |buf|) >= 0
    ensures x < |was.inodes| == |now.inodes| && now.inodes[x].nlink == was.inodes[x].nlink && g.blockSize >= 1
    ensures DataShape(g, was.data) && DataShape(g, now.data)
    ensures NodeShape(g, was.inodes[x]) && NodeShape(g, now.inodes[x])
    ensures var c := Contents(g, was.inodes[x], was.data);
            && K.Cells(c, g.blockSize) && offset + |buf| <= |c| * g.blockSize
            && Contents(g, now.inodes[x], now.data) == K.Splice(c, g.blockSize, offset, buf)
  {
    hide K.Splice, K.Cells, Contents, K.Spare, K.Free;
  }

  lemma ByteIs(c: seq<Block>, n: nat, at: nat)
    requires n >= 1 && Quot(at, n) == 10 && Rem(at, n) == 0 && |c| > 10 && |c[10]| == n
    ensures K.ByteAt(c, n, at) == c[10][0]
  {
  }

  lemma NotZero(block: Block, n: nat, i: nat)
    requires i < |block| == n && block[i] != 0
    ensures block != Zeros(n)
  {
  }

  lemma HoleIsZero(g: Geometry, node: IndexNode, data: seq<Block>, b: nat)
    requires DataShape(g, data) && NodeShape(g, node) && b < Slots(g)
    ensures Address(g, node, data, b) == NOT_A_BLOCK ==> Contents(g, node, data)[b] == Zeros(g.blockSize)
  {
  }

  lemma NoIndirectNoTenth(g: Geometry, node: IndexNode, data: seq<Block>, b: nat)
    requires DataShape(g, data) && NodeShape(g, node) && MAX_DIRECT_BLOCKS <= b < Slots(g)
    ensures node.indirect == NOT_A_BLOCK ==> Address(g, node, data, b) == NOT_A_BLOCK
  {
  }

  // When "/a" is unlinked, its indirect block stays behind.
  lemma RemovedLoses(g: Geometry, s2: State, r3: int, s3: State)
    requires Lawful(g, s2) && s2.lost == {} && IsFile(VolumeOf(g, s2.tables), [NAME_A])
    requires var x := Target(VolumeOf(g, s2.tables), [NAME_A]);
             x < |s2.tables.inodes| && s2.tables.inodes[x].nlink == 1 && s2.tables.inodes[x].indirect != NOT_A_BLOCK
    requires Did(g, s2, Remove([NAME_A]), r3, s3)
    ensures s3.lost != {} && forall d: nat :: d in s3.lost ==> d < g.DataCount()
  {
    hide *;
    LawfulParts(g, s2);
    LeavesNothing(g, s2.tables, s2.lost, [NAME_A]);
    LostByRequest(g, s2, Remove([NAME_A]), r3, s3);
    LeavesInData(g, s2.tables, Remove([NAME_A]));
  }

  lemma LeavesInData(g: Geometry, t: Tables, q: Request)
    ensures forall d: nat :: d in Leaves(g, t, q) ==> d < g.DataCount()
  {
    hide VolumeOf, IsFile, Target;
  }

  lemma RemoveIsFine(g: Geometry, s: State, path: Path)
    ensures Feasible(g, s.tables, Remove(path)) && Harmless(g, s.tables, Remove(path))
    ensures Safe(g, s, [Remove(path)])
  {
    hide VolumeOf, Did, Missing, IsFile;
    assert [Remove(path)][1..] == [];
  }

  lemma LeakIsSafe(g: Geometry, mode: Short)
    requires Spacious(g, 3, 2) && !(0x4000 <= mode < 0x5000) && g.Valid()
    ensures Safe(g, FreshState(g), [MakeFile([NAME_A], mode), Write([NAME_A], 10 * g.blockSize, [7]), Remove([NAME_A])])
  {
    hide *;
    SpaciousIs(g, 3, 2);
    SpaciousIs(g, 1, 2);
    FirstFile(g, mode);
    var q1, q2, q3 := MakeFile([NAME_A], mode), Write([NAME_A], 10 * g.blockSize, [7]), Remove([NAME_A]);
    forall r: int, s1: State | Did(g, FreshState(g), q1, r, s1)
      ensures Safe(g, s1, [q2] + [q3])
    {
      WriteIsFeasible(g, mode, r, s1);
      forall r2: int, s2: State | Did(g, s1, q2, r2, s2)
        ensures Safe(g, s2, [q3])
      {
        RemoveIsFine(g, s2, [NAME_A]);
      }
      SafeNow(g, s1, q2, [q3]);
    }
    SafeNow(g, FreshState(g), q1, [q2] + [q3]);
    assert [q1] + ([q2] + [q3]) == [q1, q2, q3];
  }

  // On any disk of three data blocks: creat of "/a", a byte written to its block ten, unlink. Nothing failed and the
  // law holds, and fsck reports a block that no file has.
  method IndirectBlockLeaks(g: Geometry, super: Block, mode: Short, left: int)
    returns (report: Fsck.Report, ghost states: seq<State>, ghost rs: seq<int>)
    requires Spacious(g, 3, 2) && |super| == g.blockSize && !(0x4000 <= mode < 0x5000)
    ensures g.Valid() && |states| == 4 && states[0] == FreshState(g) && Lawful(g, states[3])
    ensures DiskRun(g, states,
                    [MakeFile([NAME_A], mode), Write([NAME_A], 10 * g.blockSize, [7]), Remove([NAME_A])], rs)
    ensures exists b: nat :: b in states[3].lost && b in report.leaked
  {
    hide *;
    SpaciousIs(g, 3, 2);
    SpaciousIs(g, 1, 2);
    FreshStateIs(g);
    LeakIsSafe(g, mode);
    var n := g.blockSize;
    var qs := [MakeFile([NAME_A], mode), Write([NAME_A], 10 * n, [7]), Remove([NAME_A])];
    report, states, rs := MkfsRequestsFsck(g, super, qs, left);
    RunLast(g, states, qs, rs);
    RunStep(g, states, qs, rs, 0);
    RunStep(g, states, qs, rs, 1);
    RunStep(g, states, qs, rs, 2);
    IndirectThere(g, mode, rs[0], states[1], rs[1], states[2]);
    RemovedLoses(g, states[2], rs[2], states[3]);
    RemoveIsFine(g, states[2], [NAME_A]);
    LawfulAfter(g, states[2], qs[2], rs[2], states[3]);
    DataHasBits(g);
    ghost var b := Collections.SomeMember(states[3].lost);
    assert b in report.leaked;
  }

  lemma DataHasBits(g: Geometry)
    requires g.Valid()
    ensures g.DataCount() <= g.ListBits() && g.DataCount() <= g.blockCount
  {
  }

  // ----- a block beyond the size of a directory -----

  // After creat of "/a" and "/b" where blocks have 64 bytes, the root has a full block.
  lemma TwoFiles(g: Geometry, mode: Short, a: int, s1: State, b: int, s2: State)
    requires Spacious(g, 2, 4) && !(0x4000 <= mode < 0x5000) && g.Valid() && g.blockSize == 64
    requires Did(g, FreshState(g), MakeFile([NAME_A], mode), a, s1) && Did(g, s1, MakeFile([NAME_B], mode), b, s2)
    ensures Lawful(g, s2) && |s2.tables.used| == 1
    ensures 0 < a < g.NodeCount() && 0 < b < g.NodeCount() && a != b && a < 0x8000 && b < 0x8000
    ensures 4 <= |VolumeOf(g, s2.tables)| == g.NodeCount() < 0x8000
    ensures VolumeOf(g, s2.tables)[0].entries == Names(a, b, 0, 2)
    ensures forall x :: 0 < x < 4 && x != a && x != b ==> VolumeOf(g, s2.tables)[x].nlink == 0
  {
    hide *;
    SpaciousIs(g, 2, 4);
    SpaciousIs(g, 1, 2);
    FreshRoot(g.NodeCount());
    SecondFile(g, mode, a, s1);
    RootIsListed(g, s1);
    FileAdded(g, s1, NAME_B, mode, b, s2);
    NamesInOrder(a, 0, 0);
    NamesInOrder(a, b, 0);
    RootIsListed(g, s2);
  }

  // creat of "/c" puts its entry in the second one.
  lemma ThirdFile(g: Geometry, mode: Short, a: int, s1: State, b: int, s2: State)
    requires Spacious(g, 2, 4) && !(0x4000 <= mode < 0x5000) && g.Valid() && g.blockSize == 64
    requires Did(g, FreshState(g), MakeFile([NAME_A], mode), a, s1) && Did(g, s1, MakeFile([NAME_B], mode), b, s2)
    ensures Feasible(g, s2.tables, MakeFile([NAME_C], mode)) && Harmless(g, s2.tables, MakeFile([NAME_C], mode))
    ensures HasRoomFor(g, s2.tables, [NAME_C])
  {
    hide *;
    SpaciousIs(g, 2, 4);
    TwoFiles(g, mode, a, s1, b, s2);
    NamesInOrder(a, b, 0);
    RootIsListed(g, s2);
    NewAtTop(VolumeOf(g, s2.tables), NAME_C);
    NotFull(g, s2.tables.used);
    RoomForIs(g, s2.tables, [NAME_C]);
    RoomWhereFree(g, s2.tables.inodes[0], s2.tables.data, s2.tables.used, 4);
    RequestIsFeasible(g, s2, MakeFile([NAME_C], mode));
    FileIsHarmless(g, s2.tables, MakeFile([NAME_C], mode));
  }

  lemma SecondFile(g: Geometry, mode: Short, a: int, s1: State)
    requires Spacious(g, 2, 4) && !(0x4000 <= mode < 0x5000) && g.Valid()
    requires Did(g, FreshState(g), MakeFile([NAME_A], mode), a, s1)
    ensures Lawful(g, s1) && 0 < a < g.NodeCount() < 0x8000 && |s1.tables.used| == 1
    ensures VolumeOf(g, s1.tables)
            == Mkfs(g.NodeCount())[a := Inode(1, false, [])][0 := Inode(3, true, Names(a, 0, 0, 1))]
    ensures HasFreeNode(VolumeOf(g, s1.tables)) && GoesLast(Names(a, 0, 0, 1), NAME_B)
    ensures HasRoomFor(g, s1.tables, [NAME_B]) && TakenFor(g, s1.tables, [NAME_B]) == 0
    ensures Feasible(g, s1.tables, MakeFile([NAME_B], mode)) && Harmless(g, s1.tables, MakeFile([NAME_B], mode))
  {
    hide *;
    SpaciousIs(g, 2, 4);
    SpaciousIs(g, 1, 2);
    FileThereNow(g, mode, a, s1);
    RootIsListed(g, s1);
    FreshRoot(g.NodeCount());
    var x := AnotherNode(a, 0);
    FreeHere(VolumeOf(g, s1.tables), x);
    NamesInOrder(a, 0, 0);
    QuotMonotoneAt(g, 3);
    RootHasRoom(g, s1, NAME_B);
    RequestIsFeasible(g, s1, MakeFile([NAME_B], mode));
    FileIsHarmless(g, s1.tables, MakeFile([NAME_B], mode));
  }

  // After creat of "/c" the root has five entries, and the file can be unlinked.
  lemma FiveEntries(g: Geometry, mode: Short, a: int, s1: State, b: int, s2: State, c: int, s3: State)
    requires Spacious(g, 2, 4) && !(0x4000 <= mode < 0x5000) && g.Valid() && g.blockSize == 64
    requires Did(g, FreshState(g), MakeFile([NAME_A], mode), a, s1) && Did(g, s1, MakeFile([NAME_B], mode), b, s2)
    requires Did(g, s2, MakeFile([NAME_C], mode), c, s3)
    ensures Lawful(g, s3) && 0 < g.NodeCount() == |VolumeOf(g, s3.tables)|
    ensures |VolumeOf(g, s3.tables)[0].entries| == 5 && IsFile(VolumeOf(g, s3.tables), [NAME_C])
    ensures Parent(VolumeOf(g, s3.tables), [NAME_C]) == 0
  {
    hide *;
    SpaciousIs(g, 2, 4);
    TwoFiles(g, mode, a, s1, b, s2);
    ThirdFile(g, mode, a, s1, b, s2);
    NamesInOrder(a, b, 0);
    var x := AnotherNode(a, b);
    FreeHere(VolumeOf(g, s2.tables), x);
    FileAdded(g, s2, NAME_C, mode, c, s3);
    RootIsListed(g, s3);
    NamesInOrder(a, b, c);
    NamedC(a, b, c);
    FoundAtTop(VolumeOf(g, s3.tables), NAME_C, 4);
  }

  lemma NamedC(a: int, b: int, c: int)
    requires 0 <= a < 0x8000 && 0 <= b < 0x8000 && 0 <= c < 0x8000
    ensures Names(a, b, 0, 2) == Names(a, b, c, 2) && Names(a, b, c, 3)[4] == Entry(c, NAME_C)
    ensures forall i :: 0 <= i < 4 ==> Names(a, b, c, 3)[i].name != NAME_C
  {
    var s := [Entry(a, NAME_A), Entry(b, NAME_B), Entry(c, NAME_C)];
    var t := [Entry(a, NAME_A), Entry(b, NAME_B), Entry(0, NAME_C)];
    assert s[..2] == [s[0], s[1]] == t[..2];
  }

  lemma ShrunkRoot(g: Geometry, was: Tables, now: Tables, t: nat, lost: set<nat>, s: seq<Entry>, s': seq<Entry>)
    returns (d: nat)
    requires FsUnlink.Unlinked(g, was, now, 0, t, s', lost) && |s| == 5 && |s'| == 4 && g.blockSize == 64
    requires |was.inodes| > 0 && Lists(g, was.inodes[0], was.data, s) && Live(was.inodes[0])
    requires DataShape(g, was.data) && FileOK(g, was.inodes[0], was.data)
    ensures d < g.DataCount() && FsckVerdict.BeyondSome(g, now, d)
  {
    var node, node' := was.inodes[0], now.inodes[0];
    EntryIs(g, node, was.data, s, 4);
    QuotMonotoneAt(g, 4);
    QuotRemOf(64 + 63, 64, 1, 63);
    d := Address(g, node, was.data, 1);
    hide OnlyChanged, FsUnlink.LinkDropped, Listing, Contents, NoHoles, AllFit, K.Fits, Quot, Rem;
    assert T.Span(g, node'.size) == 1;
    assert node'.nlink == node.nlink && Address(g, node', now.data, 1) == d;
    assert FsckVerdict.Beyond(g, now, 0, d);
  }

  // When that file is unlinked the root is one block long and still has two.
  lemma RootUncovered(g: Geometry, s3: State, r: int, s4: State) returns (d: nat)
    requires Lawful(g, s3) && g.blockSize == 64 && |VolumeOf(g, s3.tables)| > 0
    requires |VolumeOf(g, s3.tables)[0].entries| == 5 && IsFile(VolumeOf(g, s3.tables), [NAME_C])
    requires Parent(VolumeOf(g, s3.tables), [NAME_C]) == 0
    requires Did(g, s3, Remove([NAME_C]), r, s4)
    ensures d < g.DataCount() && FsckVerdict.BeyondSome(g, s4.tables, d)
  {
    hide *;
    var q := Remove([NAME_C]);
    RootIsListed(g, s3);
    DidParts(g, s3, q, r, s4);
    UnlinkedFromParts(g, s3.tables, s4.tables, [NAME_C], s3.lost, s4.lost);
    TopPath(VolumeOf(g, s3.tables), NAME_C);
    FoundIsNamed(VolumeOf(g, s3.tables)[0].entries, NAME_C);
    LawfulParts(g, s3);
    OwnersParts(g, s3, 0);
    d := ShrunkRoot(g, s3.tables, s4.tables, Target(VolumeOf(g, s3.tables), [NAME_C]), s3.lost,
                    VolumeOf(g, s3.tables)[0].entries, Removed(VolumeOf(g, s3.tables)[0].entries, NAME_C));
  }

  lemma ShrinkIsSafe(g: Geometry, mode: Short)
    requires Spacious(g, 2, 4) && !(0x4000 <= mode < 0x5000) && g.Valid() && g.blockSize == 64
    ensures Safe(g, FreshState(g), [MakeFile([NAME_A], mode), MakeFile([NAME_B], mode), MakeFile([NAME_C], mode),
                                    Remove([NAME_C])])
  {
    hide *;
    SpaciousIs(g, 2, 4);
    SpaciousIs(g, 1, 2);
    FirstFile(g, mode);
    var a, b, c, d := MakeFile([NAME_A], mode), MakeFile([NAME_B], mode), MakeFile([NAME_C], mode), Remove([NAME_C]);
    forall r: int, s1: State | Did(g, FreshState(g), a, r, s1)
      ensures Safe(g, s1, [b] + ([c] + [d]))
    {
      SecondFile(g, mode, r, s1);
      forall r2: int, s2: State | Did(g, s1, b, r2, s2)
        ensures Safe(g, s2, [c] + [d])
      {
        ThirdFile(g, mode, r, s1, r2, s2);
        forall r3: int, s3: State | Did(g, s2, c, r3, s3)
          ensures Safe(g, s3, [d])
        {
          RemoveIsFine(g, s3, [NAME_C]);
        }
        SafeNow(g, s2, c, [d]);
      }
      SafeNow(g, s1, b, [c] + [d]);
    }
    SafeNow(g, FreshState(g), a, [b] + ([c] + [d]));
    assert [a] + ([b] + ([c] + [d])) == [a, b, c, d];
  }

  // On any disk with blocks of 64 bytes, two data blocks and four nodes: creat of three files in the root, unlink of
  // the last. Nothing failed and the law holds, and fsck reports a block that belongs to the root.
  method DirectoryBlockIsReported(g: Geometry, super: Block, mode: Short, left: int)
    returns (report: Fsck.Report, ghost states: seq<State>, ghost rs: seq<int>)
    requires Spacious(g, 2, 4) && |super| == g.blockSize == 64 && !(0x4000 <= mode < 0x5000)
    ensures g.Valid() && |states| == 5 && states[0] == FreshState(g) && Lawful(g, states[4])
    ensures DiskRun(g, states, [MakeFile([NAME_A], mode), MakeFile([NAME_B], mode), MakeFile([NAME_C], mode),
                                Remove([NAME_C])], rs)
    ensures exists d: nat :: FsckVerdict.BeyondSome(g, states[4].tables, d) && d in report.leaked
  {
    hide *;
    SpaciousIs(g, 2, 4);
    SpaciousIs(g, 1, 2);
    FreshStateIs(g);
    ShrinkIsSafe(g, mode);
    var qs := [MakeFile([NAME_A], mode), MakeFile([NAME_B], mode), MakeFile([NAME_C], mode), Remove([NAME_C])];
    report, states, rs := MkfsRequestsFsck(g, super, qs, left);
    RunLast(g, states, qs, rs);
    RunStep(g, states, qs, rs, 0);
    RunStep(g, states, qs, rs, 1);
    RunStep(g, states, qs, rs, 2);
    RunStep(g, states, qs, rs, 3);
    FiveEntries(g, mode, rs[0], states[1], rs[1], states[2], rs[2], states[3]);
    ghost var d := RootUncovered(g, states[3], rs[3], states[4]);
    RemoveIsFine(g, states[3], [NAME_C]);
    LawfulAfter(g, states[3], qs[3], rs[3], states[4]);
    DataHasBits(g);
    assert d in report.leaked;
  }
}
