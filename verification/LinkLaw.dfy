/** Link counts under creat, mkdir and unlink, one command to a boot: what each command does
    to the graph of index nodes and directory entries, and that the stored link counts stay the ones
    fsck computes. */
module LinkLaw {
  import opened DirectoryEntries
  import opened FsCodec
  import Fsck

  // What matters here of an index node: links, kind, and the listing of a directory.
  datatype Inode = Inode(nlink: int, isDir: bool, entries: seq<Entry>)

  type Volume = seq<Inode>

  const FREE := Inode(0, false, [])
  const DOT: Name := [46]
  const DOT_DOT: Name := [46, 46]
  const ROOT_NAME: Name := [114, 111, 111, 116] // "root", the working directory of every process

  type Path = seq<Name>

  // ----- path lookup -----

  // findNextIndexNode on a listing
  function Lookup(s: seq<Entry>, name: Name): int {
    if Find(s, name) < |s| then s[Find(s, name)].ino else -1
  }

  function Walk(v: Volume, d: int, path: Path): int
    decreases |path|
  {
    if path == [] then d
    else if !(0 <= d < |v| && v[d].isDir) then -1
    else Walk(v, Lookup(v[d].entries, path[0]), path[1..])
  }

  // findIndexNode: the root is the copy taken at boot, which lists `cached` entries.
  function Resolve(v: Volume, cached: seq<Entry>, path: Path): int {
    if path == [] then 0 else Walk(v, Lookup(cached, path[0]), path[1..])
  }

  function Parent(v: Volume, path: Path): int
    requires path != []
  {
    Walk(v, 0, path[..|path| - 1])
  }

  function Last(path: Path): Name
    requires path != []
  {
    path[|path| - 1]
  }

  // ----- what the commands do -----

  predicate IsDirectory(v: Volume, d: int) {
    0 <= d < |v| && v[d].isDir
  }

  // The path leads to a directory without an entry of the last name.
  predicate Missing(v: Volume, path: Path) {
    path != [] && IsDirectory(v, Parent(v, path)) && Lookup(v[Parent(v, path)].entries, Last(path)) == -1
  }

  // The path leads to a regular file.
  predicate IsFile(v: Volume, path: Path) {
    && path != [] && IsDirectory(v, Parent(v, path))
    && var t := Lookup(v[Parent(v, path)].entries, Last(path));
    0 <= t < |v| && !v[t].isDir
  }

  function Target(v: Volume, path: Path): nat
    requires IsFile(v, path)
  {
    Lookup(v[Parent(v, path)].entries, Last(path))
  }

  // creat of a new name in index node x and directory d: the node first, then the entry.
  function CreatedAt(v: Volume, d: nat, name: Name, x: nat, isDir: bool): (v': Volume)
    requires d < |v| && x < |v| < 0x8000
    ensures |v'| == |v|
  {
    var v1 := v[x := Inode(1, isDir, [])];
    v1[d := v1[d].(entries := Inserted(v1[d].entries, Entry(x, name)))]
  }

  function Created(v: Volume, path: Path, x: nat, isDir: bool): (v': Volume)
    requires Missing(v, path) && x < |v| < 0x8000
    ensures |v'| == |v|
  {
    CreatedAt(v, Parent(v, path), Last(path), x, isDir)
  }

  // The same where the directory could not grow: its last entry, new or old, is lost.
  function CreatedShort(v: Volume, path: Path, x: nat, isDir: bool): (v': Volume)
    requires Missing(v, path) && x < |v| < 0x8000
    ensures |v'| == |v|
  {
    var d, v1 := Parent(v, path), Created(v, path, x, isDir);
    v1[d := v1[d].(entries := v1[d].entries[..|v1[d].entries| - 1])]
  }

  // What mkdir's stat of the parent directory finds after creat: it looks at as many root entries
  // as there were at boot, the parent of a directory in the root is looked for in the working
  // directory, and a failed stat leaves 0.
  function RecordedParent(v: Volume, v1: Volume, path: Path): int
    requires path != [] && |v| == |v1| > 0 && |v[0].entries| <= |v1[0].entries|
  {
    var q := Resolve(v1, v1[0].entries[..|v[0].entries|], if |path| == 1 then [ROOT_NAME] else path[..|path| - 1]);
    if q < 0 then 0 else q
  }

  function AddLinks(v: Volume, x: nat, k: int): (v': Volume)
    requires x < |v|
    ensures |v'| == |v|
  {
    v[x := v[x].(nlink := v[x].nlink + k)]
  }

  // ----- the law -----

  function Inos(s: seq<Entry>): (r: seq<int>)
    ensures |r| == |s|
    ensures forall i :: 0 <= i < |s| ==> r[i] == s[i].ino
  {
    seq(|s|, i requires 0 <= i < |s| => s[i].ino)
  }

  // How often one node names x.
  function Own(node: Inode, x: int): nat {
    if node.isDir then multiset(Inos(node.entries))[x] else 0
  }

  // How often the first n nodes name x.
  function Count(v: Volume, x: int, n: nat): nat
    requires n <= |v|
  {
    if n == 0 then 0 else Count(v, x, n - 1) + Own(v[n - 1], x)
  }

  ghost predicate CountsLinks(v: Volume) {
    forall x :: 0 <= x < |v| ==> v[x].nlink == Count(v, x, |v|) + if x == 0 then 1 else 0
  }

  // Directories are linked and sorted, name index nodes that exist, and nothing else has entries.
  ghost predicate Shape(v: Volume) {
    && 0 < |v| < 0x8000 && v[0].isDir
    && forall x :: 0 <= x < |v| ==> NodeOK(v[x], |v|)
  }

  ghost predicate NodeOK(node: Inode, limit: nat) {
    && node.nlink >= 0
    && (node.isDir ==> node.nlink > 0 && Sorted(node.entries))
    && (!node.isDir ==> node.entries == [])
    && forall i :: 0 <= i < |node.entries| ==> 0 <= node.entries[i].ino < limit
  }

  function ToImage(v: Volume): (image: Fsck.Image)
    requires forall x :: 0 <= x < |v| ==> forall i :: 0 <= i < |v[x].entries| ==> 0 <= v[x].entries[i].ino
    ensures |image| == |v|
    ensures forall x :: 0 <= x < |v| ==> image[x] == Fsck.Node(v[x].nlink, v[x].isDir, Inos(v[x].entries), [])
  {
    seq(|v|, x requires 0 <= x < |v| =>
      assert forall i :: 0 <= i < |v[x].entries| ==> Inos(v[x].entries)[i] >= 0;
      Fsck.Node(v[x].nlink, v[x].isDir, Inos(v[x].entries), []))
  }

  ghost predicate DirsReachable(v: Volume)
    requires Shape(v)
  {
    forall x: nat :: x < |v| && v[x].isDir ==> Fsck.Reachable(ToImage(v), x)
  }

  ghost predicate Inv(v: Volume) {
    Shape(v) && CountsLinks(v) && DirsReachable(v)
  }

  // ----- counting -----

  lemma InosOfParts(s: seq<Entry>, t: seq<Entry>)
    ensures Inos(s + t) == Inos(s) + Inos(t)
  {
  }

  lemma InosOfOne(e: Entry)
    ensures Inos([e]) == [e.ino]
  {
  }

  lemma InosInserted(s: seq<Entry>, e: Entry)
    ensures multiset(Inos(Inserted(s, e))) == multiset(Inos(s)) + multiset{e.ino}
  {
    var p := Place(s, e.name);
    InosOfParts(s[..p], s[p..]);
    assert s == s[..p] + s[p..];
    InosOfParts(s[..p], [e]);
    InosOfParts(s[..p] + [e], s[p..]);
    InosOfOne(e);
  }

  lemma InosWithout(s: seq<Entry>, p: nat)
    requires p < |s|
    ensures Inos(s[..p] + s[p + 1..]) == Inos(s)[..p] + Inos(s)[p + 1..]
  {
    var t := s[..p] + s[p + 1..];
    var left, right := Inos(t), Inos(s)[..p] + Inos(s)[p + 1..];
    forall i | 0 <= i < |t|
      ensures left[i] == right[i]
    {
      assert t[i] == if i < p then s[i] else s[i + 1];
    }
  }

  lemma InosRemoved(s: seq<Entry>, name: Name)
    requires Named(s, name)
    ensures multiset(Inos(s)) == multiset(Inos(Removed(s, name))) + multiset{s[Find(s, name)].ino}
  {
    var p := Find(s, name);
    InosWithout(s, p);
    assert Inos(s)[p] == s[p].ino;
    hide Inos, Find;
    TakeOut(Inos(s), p);
  }

  // Changing one node changes the count by what that node names.
  lemma {:induction false} CountUpdate(v: Volume, d: nat, node: Inode, x: int, n: nat)
    requires d < |v| && n <= |v|
    ensures Count(v[d := node], x, n) == Count(v, x, n) + if d < n then Own(node, x) - Own(v[d], x) else 0
  {
    if n > 0 {
      CountUpdate(v, d, node, x, n - 1);
    }
  }

  // A link count changes with the entries just when one does, for every other node.
  lemma SameNames(v: Volume, d: nat, node: Inode, x: int)
    requires d < |v| && Own(node, x) == Own(v[d], x)
    ensures Count(v[d := node], x, |v|) == Count(v, x, |v|)
  {
    CountUpdate(v, d, node, x, |v|);
  }

  // ----- reachability -----

  // Every step from directory to directory is still there.
  ghost predicate DirStepsKept(v: Volume, v': Volume)
    requires Shape(v) && Shape(v')
  {
    && |v'| == |v|
    && forall d: nat, x: nat :: d < |v| && x < |v| && v[d].isDir && v[x].isDir && x in Inos(v[d].entries) ==>
         v'[d].isDir && x in Inos(v'[d].entries)
  }

  lemma DirsStayReachable(v: Volume, v': Volume, x: nat)
    requires Shape(v) && Shape(v') && DirStepsKept(v, v') && x < |v| && v[x].isDir && Fsck.Reachable(ToImage(v), x)
    ensures Fsck.Reachable(ToImage(v'), x)
  {
    var image, image' := ToImage(v), ToImage(v');
    var path :| Fsck.IsPath(image, path) && path[|path| - 1] == x;
    forall i | 0 <= i < |path| - 1
      ensures Fsck.Names(image', path[i], path[i + 1])
    {
      assert Fsck.Names(image, path[i], path[i + 1]);
      assert v[path[i]].isDir && path[i + 1] in Inos(v[path[i]].entries);
      if i + 1 < |path| - 1 {
        assert Fsck.Names(image, path[i + 1], path[i + 2]);
      }
      StepInRange(v, path[i], path[i + 1]);
    }
    assert Fsck.IsPath(image', path);
  }

  lemma StepInRange(v: Volume, d: nat, x: nat)
    requires Shape(v) && d < |v| && v[d].isDir && x in Inos(v[d].entries)
    ensures x < |v|
  {
    assert NodeOK(v[d], |v|);
    var i :| 0 <= i < |v[d].entries| && Inos(v[d].entries)[i] == x;
  }

  // ----- creat of a missing name -----

  lemma MissingIsUnnamed(v: Volume, path: Path)
    requires Shape(v) && Missing(v, path)
    ensures !Named(v[Parent(v, path)].entries, Last(path))
  {
    var s := v[Parent(v, path)].entries;
    assert NodeOK(v[Parent(v, path)], |v|);
    assert Find(s, Last(path)) == |s|;
  }

  lemma InsertedInRange(s: seq<Entry>, e: Entry, limit: nat)
    requires 0 <= e.ino < limit && forall i :: 0 <= i < |s| ==> 0 <= s[i].ino < limit
    ensures forall i :: 0 <= i < |Inserted(s, e)| ==> 0 <= Inserted(s, e)[i].ino < limit
  {
    forall i | 0 <= i <= |s|
      ensures 0 <= Inserted(s, e)[i].ino < limit
    {
      InsertedAt(s, e, i);
    }
  }

  lemma CreatedShape(v: Volume, path: Path, x: nat, isDir: bool)
    requires Shape(v) && Missing(v, path) && x < |v| && v[x].nlink == 0
    ensures Shape(Created(v, path, x, isDir))
  {
    var d, e := Parent(v, path), Entry(x, Last(path));
    assert NodeOK(v[d], |v|) && NodeOK(v[x], |v|) && NodeOK(v[0], |v|);
    MissingIsUnnamed(v, path);
    InsertKeepsSorted(v[d].entries, e);
    InsertedInRange(v[d].entries, e, |v|);
    hide Inserted, Sorted, Walk;
  }

  lemma OwnInserted(node: Inode, e: Entry, x: int)
    requires node.isDir
    ensures Own(node.(entries := Inserted(node.entries, e)), x) == Own(node, x) + if x == e.ino then 1 else 0
  {
    InosInserted(node.entries, e);
  }

  lemma CreatedCounts(v: Volume, path: Path, x: nat, isDir: bool)
    requires Shape(v) && CountsLinks(v) && Missing(v, path) && x < |v| && v[x].nlink == 0
    ensures CountsLinks(Created(v, path, x, isDir))
  {
    var d, e, v' := Parent(v, path), Entry(x, Last(path)), Created(v, path, x, isDir);
    var v1 := v[x := Inode(1, isDir, [])];
    assert NodeOK(v[d], |v|) && NodeOK(v[x], |v|) && NodeOK(v[0], |v|);
    forall y | 0 <= y < |v'|
      ensures v'[y].nlink == Count(v', y, |v'|) + if y == 0 then 1 else 0
    {
      SameNames(v, x, Inode(1, isDir, []), y);
      CountUpdate(v1, d, v'[d], y, |v|);
      OwnInserted(v[d], e, y);
    }
  }

  lemma StillNames(s: seq<Entry>, e: Entry, x: int)
    requires x in Inos(s) || x == e.ino
    ensures x in Inos(Inserted(s, e))
  {
    InosInserted(s, e);
    assert x in multiset(Inos(s)) + multiset{e.ino};
  }

  lemma NamedIsReachable(v: Volume, d: nat, x: nat)
    requires Shape(v) && d < |v| && v[d].isDir && x in Inos(v[d].entries) && Fsck.Reachable(ToImage(v), d)
    ensures Fsck.Reachable(ToImage(v), x)
  {
    assert Fsck.Names(ToImage(v), d, x);
    Fsck.ReachableStep(ToImage(v), d, x);
  }

  lemma CreatedReach(v: Volume, path: Path, x: nat, isDir: bool)
    requires Inv(v) && Missing(v, path) && x < |v| && v[x].nlink == 0
    ensures Shape(Created(v, path, x, isDir)) && DirsReachable(Created(v, path, x, isDir))
  {
    var d: nat, e, v' := Parent(v, path), Entry(x, Last(path)), Created(v, path, x, isDir);
    CreatedShape(v, path, x, isDir);
    assert NodeOK(v[d], |v|) && NodeOK(v[x], |v|);
    forall m: nat, y: nat | m < |v| && y < |v| && v[m].isDir && v[y].isDir && y in Inos(v[m].entries)
      ensures v'[m].isDir && y in Inos(v'[m].entries)
    {
      if m == d {
        StillNames(v[d].entries, e, y);
      }
    }
    forall y: nat | y < |v'| && v'[y].isDir
      ensures Fsck.Reachable(ToImage(v'), y)
    {
      if y == x {
        DirsStayReachable(v, v', d);
        StillNames(v[d].entries, e, x);
        NamedIsReachable(v', d, x);
      } else {
        DirsStayReachable(v, v', y);
      }
    }
  }

  lemma CreatedKeepsInv(v: Volume, path: Path, x: nat, isDir: bool)
    requires Inv(v) && Missing(v, path) && x < |v| && v[x].nlink == 0
    ensures Inv(Created(v, path, x, isDir))
  {
    CreatedShape(v, path, x, isDir);
    CreatedCounts(v, path, x, isDir);
    CreatedReach(v, path, x, isDir);
  }

  // ----- mkdir -----

  function Dots(x: nat, p: nat): seq<Entry>
    requires x < 0x8000 && p < 0x8000
  {
    [Entry(x, DOT), Entry(p, DOT_DOT)]
  }

  // The volume when mkdir looks for the parent: after creat and the entry ".".
  function SelfNamed(v: Volume, path: Path, x: nat): (v': Volume)
    requires Missing(v, path) && x < |v| < 0x8000
    ensures |v'| == |v|
  {
    Created(v, path, x, true)[x := Inode(1, true, [Entry(x, DOT)])]
  }

  // mkdir of a missing name in index node x: creat, then the two entries, then the link counts of
  // the new directory and of the one it records as its parent.
  function MadeDir(v: Volume, path: Path, x: nat, p: nat): (v': Volume)
    requires Missing(v, path) && x < |v| < 0x8000 && p < |v|
    ensures |v'| == |v|
  {
    AddLinks(Created(v, path, x, true)[x := Inode(2, true, Dots(x, p))], p, 1)
  }

  lemma DotsNamed(x: nat, p: nat, y: int)
    requires x < 0x8000 && p < 0x8000
    ensures Sorted(Dots(x, p))
    ensures Own(Inode(2, true, Dots(x, p)), y) == (if y == x then 1 else 0) + (if y == p then 1 else 0)
  {
    assert Less(DOT, DOT_DOT);
    InosOfParts([Entry(x, DOT)], [Entry(p, DOT_DOT)]);
    InosOfOne(Entry(x, DOT));
    InosOfOne(Entry(p, DOT_DOT));
    assert Dots(x, p) == [Entry(x, DOT)] + [Entry(p, DOT_DOT)];
  }

  // A change of link counts alone changes nothing else.
  lemma LinksShape(v: Volume, p: nat, k: int)
    requires Shape(v) && p < |v| && v[p].nlink + k > 0
    ensures Shape(AddLinks(v, p, k))
  {
    var v' := AddLinks(v, p, k);
    forall x | 0 <= x < |v'|
      ensures NodeOK(v'[x], |v'|)
    {
      assert NodeOK(v[x], |v|);
    }
  }

  lemma LinksReach(v: Volume, p: nat, k: int)
    requires Shape(v) && p < |v| && v[p].nlink + k > 0 && DirsReachable(v)
    ensures Shape(AddLinks(v, p, k)) && DirsReachable(AddLinks(v, p, k))
  {
    var v' := AddLinks(v, p, k);
    LinksShape(v, p, k);
    forall x: nat | x < |v'| && v'[x].isDir
      ensures Fsck.Reachable(ToImage(v'), x)
    {
      DirsStayReachable(v, v', x);
    }
  }

  lemma DotsShape(v: Volume, x: nat, p: nat)
    requires Shape(v) && x < |v| && p < |v| && v[x].isDir && v[x].entries == []
    ensures Shape(v[x := Inode(2, true, Dots(x, p))])
    ensures DirsReachable(v) ==> DirsReachable(v[x := Inode(2, true, Dots(x, p))])
  {
    var v' := v[x := Inode(2, true, Dots(x, p))];
    DotsNamed(x, p, 0);
    forall y | 0 <= y < |v'|
      ensures NodeOK(v'[y], |v'|)
    {
      assert NodeOK(v[y], |v|);
    }
    if DirsReachable(v) {
      forall y: nat | y < |v'| && v'[y].isDir
        ensures Fsck.Reachable(ToImage(v'), y)
      {
        DirsStayReachable(v, v', y);
      }
    }
  }

  lemma NewDirectory(v: Volume, path: Path, x: nat)
    requires Shape(v) && Missing(v, path) && x < |v| && v[x].nlink == 0
    ensures Parent(v, path) != x && Created(v, path, x, true)[x] == Inode(1, true, [])
  {
    assert NodeOK(v[Parent(v, path)], |v|);
  }

  lemma MadeDirCount(v: Volume, x: nat, p: nat, y: int)
    requires x < |v| < 0x8000 && p < |v| && v[x] == Inode(1, true, [])
    ensures Count(AddLinks(v[x := Inode(2, true, Dots(x, p))], p, 1), y, |v|)
            == Count(v, y, |v|) + (if y == x then 1 else 0) + (if y == p then 1 else 0)
  {
    var v2 := v[x := Inode(2, true, Dots(x, p))];
    var v3 := AddLinks(v2, p, 1);
    SameNames(v2, p, v3[p], y);
    DotsNamed(x, p, y);
    NoEntries(y);
    hide Count, Own;
    CountUpdate(v, x, v2[x], y, |v|);
  }

  lemma NoEntries(y: int)
    ensures Own(Inode(1, true, []), y) == 0
  {
  }

  lemma MadeDirShape(v: Volume, x: nat, p: nat)
    requires Shape(v) && DirsReachable(v) && x < |v| && p < |v| && v[x] == Inode(1, true, [])
    ensures var v' := AddLinks(v[x := Inode(2, true, Dots(x, p))], p, 1); Shape(v') && DirsReachable(v')
  {
    var v2 := v[x := Inode(2, true, Dots(x, p))];
    DotsShape(v, x, p);
    assert NodeOK(v2[p], |v2|);
    LinksReach(v2, p, 1);
  }

  lemma MadeDirCounts(v: Volume, x: nat, p: nat)
    requires CountsLinks(v) && x < |v| < 0x8000 && p < |v| && v[x] == Inode(1, true, [])
    ensures CountsLinks(AddLinks(v[x := Inode(2, true, Dots(x, p))], p, 1))
  {
    hide Count;
    var v' := AddLinks(v[x := Inode(2, true, Dots(x, p))], p, 1);
    forall y | 0 <= y < |v'|
      ensures v'[y].nlink == Count(v', y, |v'|) + if y == 0 then 1 else 0
    {
      MadeDirCount(v, x, p, y);
    }
  }

  lemma MadeDirKeepsInv(v: Volume, path: Path, x: nat, p: nat)
    requires Inv(v) && Missing(v, path) && x < |v| && v[x].nlink == 0 && p < |v|
    ensures Inv(MadeDir(v, path, x, p))
  {
    CreatedKeepsInv(v, path, x, true);
    NewDirectory(v, path, x);
    var v1 := Created(v, path, x, true);
    MadeDirShape(v1, x, p);
    MadeDirCounts(v1, x, p);
  }

  // ----- the parent a new directory records -----

  lemma LookupInRange(s: seq<Entry>, name: Name, limit: nat)
    requires forall i :: 0 <= i < |s| ==> 0 <= s[i].ino < limit
    ensures -1 <= Lookup(s, name) < limit
  {
  }

  lemma {:induction false} WalkInRange(v: Volume, d: int, path: Path)
    requires Shape(v) && -1 <= d < |v|
    ensures -1 <= Walk(v, d, path) < |v|
    decreases |path|
  {
    if path != [] && 0 <= d && v[d].isDir {
      assert NodeOK(v[d], |v|);
      LookupInRange(v[d].entries, path[0], |v|);
      WalkInRange(v, Lookup(v[d].entries, path[0]), path[1..]);
    }
  }

  lemma RecordedInRange(v: Volume, v1: Volume, path: Path)
    requires path != [] && |v| == |v1| && |v| > 0 && |v[0].entries| <= |v1[0].entries| && Shape(v1)
    ensures 0 <= RecordedParent(v, v1, path) < |v|
  {
    var cached := v1[0].entries[..|v[0].entries|];
    var up := if |path| == 1 then [ROOT_NAME] else path[..|path| - 1];
    assert NodeOK(v1[0], |v1|);
    LookupInRange(cached, up[0], |v1|);
    WalkInRange(v1, Lookup(cached, up[0]), up[1..]);
  }

  lemma ParentCanBeRecorded(v: Volume, path: Path, x: nat)
    requires Shape(v) && Missing(v, path) && x < |v| && v[x].nlink == 0
    ensures |v[0].entries| <= |SelfNamed(v, path, x)[0].entries|
    ensures 0 <= RecordedParent(v, SelfNamed(v, path, x), path) < |v|
  {
    var v1, v2 := Created(v, path, x, true), SelfNamed(v, path, x);
    CreatedShape(v, path, x, true);
    assert NodeOK(v[0], |v|);
    forall y | 0 <= y < |v2|
      ensures NodeOK(v2[y], |v2|)
    {
      assert NodeOK(v1[y], |v1|);
    }
    RecordedInRange(v, v2, path);
  }

  // ----- a directory that cannot grow -----

  lemma OwnWithoutLast(node: Inode, x: int)
    requires node.isDir && |node.entries| > 0
    ensures var last := |node.entries| - 1;
            Own(node.(entries := node.entries[..last]), x)
            == Own(node, x) - if x == node.entries[last].ino then 1 else 0
  {
    var last := |node.entries| - 1;
    InosOfParts(node.entries[..last], [node.entries[last]]);
    InosOfOne(node.entries[last]);
    assert node.entries == node.entries[..last] + [node.entries[last]];
  }

  // The node of the lost entry has one link more than it has names.
  lemma ShortCounts(v: Volume, path: Path, x: nat, isDir: bool)
    requires Shape(v) && CountsLinks(v) && Missing(v, path) && x < |v| && v[x].nlink == 0
    ensures !CountsLinks(CreatedShort(v, path, x, isDir))
  {
    var d: nat, v1, v2 := Parent(v, path), Created(v, path, x, isDir), CreatedShort(v, path, x, isDir);
    assert NodeOK(v[d], |v|) && NodeOK(v[x], |v|);
    CreatedCounts(v, path, x, isDir);
    CreatedShape(v, path, x, isDir);
    InsertedAt(v[d].entries, Entry(x, Last(path)), 0);
    hide Inserted, Count, Walk, Missing, Own, Sorted;
    var last := |v1[d].entries| - 1;
    var z := v1[d].entries[last].ino;
    assert NodeOK(v1[d], |v1|);
    OwnWithoutLast(v1[d], z);
    CountUpdate(v1, d, v2[d], z, |v1|);
  }

  // ----- whole commands -----

  // A free index node, where one is needed.
  predicate Fresh(v: Volume, path: Path, x: int) {
    Missing(v, path) ==> 0 <= x < |v| && v[x].nlink == 0
  }

  // What a full disk still has room for: all a command needs, the new entry but not the first block of a
  // new directory, not even the entry.
  datatype Space = Enough | NoBlock | NoEntry

  ghost function CreatResult(v: Volume, path: Path, x: nat, space: Space): (v': Volume)
    requires Shape(v) && Fresh(v, path, x)
    ensures |v'| == |v|
  {
    if !Missing(v, path) then v
    else if space.NoEntry? then CreatedShort(v, path, x, false)
    else Created(v, path, x, false)
  }

  // Without room mkdir exits before it gets to the link counts.
  ghost function MkdirResult(v: Volume, path: Path, x: nat, space: Space): (v': Volume)
    requires Shape(v) && Fresh(v, path, x)
    ensures |v'| == |v|
  {
    if Missing(v, path) then
      match space
      case NoEntry => CreatedShort(v, path, x, true)
      case NoBlock => Created(v, path, x, true)
      case Enough =>
        ParentCanBeRecorded(v, path, x);
        MadeDir(v, path, x, RecordedParent(v, SelfNamed(v, path, x), path))
    else if IsFile(v, path) && space.Enough? then
      RecordedInRange(v, v, path);
      AddLinks(v[Target(v, path) := v[Target(v, path)].(nlink := 2)], RecordedParent(v, v, path), 1)
    else v
  }

  // Node t loses a link and directory d the entry of that name.
  function UnlinkedAt(v: Volume, d: nat, t: nat, name: Name): (v': Volume)
    requires d < |v| && t < |v| && d != t && Named(v[d].entries, name)
    ensures |v'| == |v|
  {
    var v1 := AddLinks(v, t, -1);
    v1[d := v1[d].(entries := Removed(v1[d].entries, name))]
  }

  ghost function UnlinkResult(v: Volume, path: Path): Volume
  {
    if IsFile(v, path) then UnlinkedAt(v, Parent(v, path), Target(v, path), Last(path)) else v
  }

  lemma OverFileCounts(v: Volume, t: nat, p: nat)
    requires CountsLinks(v) && t < |v| && p < |v|
    ensures CountsLinks(AddLinks(v[t := v[t].(nlink := 2)], p, 1)) <==> p == t && v[t].nlink == 3
  {
    var v1 := v[t := v[t].(nlink := 2)];
    var v' := AddLinks(v1, p, 1);
    forall y
      ensures Count(v', y, |v|) == Count(v, y, |v|)
    {
      SameNames(v, t, v1[t], y);
      SameNames(v1, p, v'[p], y);
    }
    hide Count;
    if p != t {
      assert v'[p].nlink == v[p].nlink + 1;
    } else {
      assert v'[t].nlink == 3;
    }
  }

  // mkdir over an existing regular file: creat empties the file and mkdir goes on. The law survives
  // exactly when the file was its own recorded parent and had three links already.
  lemma MkdirOverFile(v: Volume, path: Path, x: nat)
    requires Inv(v) && IsFile(v, path)
    ensures RecordedParent(v, v, path) >= 0
    ensures CountsLinks(MkdirResult(v, path, x, Enough)) <==> OwnParent(v, path)
    ensures OwnParent(v, path) ==> MkdirResult(v, path, x, Enough) == v
  {
    RecordedInRange(v, v, path);
    assert !Missing(v, path);
    OverFileCounts(v, Target(v, path), RecordedParent(v, v, path));
  }

  ghost predicate OwnParent(v: Volume, path: Path)
    requires Shape(v) && IsFile(v, path)
  {
    RecordedParent(v, v, path) == Target(v, path) && v[Target(v, path)].nlink == 3
  }

  // ----- unlink -----

  lemma {:induction false} CountAtLeast(v: Volume, d: nat, x: int, n: nat)
    requires d < n <= |v|
    ensures Count(v, x, n) >= Own(v[d], x)
  {
    if d < n - 1 {
      CountAtLeast(v, d, x, n - 1);
    }
  }

  lemma RemovedInRange(s: seq<Entry>, name: Name, limit: nat)
    requires Named(s, name) && forall i :: 0 <= i < |s| ==> 0 <= s[i].ino < limit
    ensures forall i :: 0 <= i < |Removed(s, name)| ==> 0 <= Removed(s, name)[i].ino < limit
  {
  }

  lemma UnlinkedFacts(v: Volume, path: Path)
    requires Shape(v) && CountsLinks(v) && IsFile(v, path)
    ensures var d, t := Parent(v, path), Target(v, path);
            && d != t && NodeOK(v[d], |v|) && NodeOK(v[t], |v|) && v[t].nlink >= 1 && t != 0
            && Named(v[d].entries, Last(path)) && v[d].entries[Find(v[d].entries, Last(path))].ino == t
            && UnlinkResult(v, path)
               == v[t := v[t].(nlink := v[t].nlink - 1)][d := v[d].(entries := Removed(v[d].entries, Last(path)))]
  {
    var d, t := Parent(v, path), Target(v, path);
    var s := v[d].entries;
    assert s[Find(s, Last(path))].name == Last(path);
    assert Inos(s)[Find(s, Last(path))] == t;
    CountAtLeast(v, d, t, |v|);
    assert NodeOK(v[d], |v|) && NodeOK(v[t], |v|);
  }

  lemma UnlinkShape(v: Volume, path: Path)
    requires Shape(v) && CountsLinks(v) && IsFile(v, path)
    ensures Shape(UnlinkResult(v, path))
  {
    UnlinkedFacts(v, path);
    var d, v' := Parent(v, path), UnlinkResult(v, path);
    RemoveKeepsSorted(v[d].entries, Last(path));
    RemovedInRange(v[d].entries, Last(path), |v|);
    hide Removed, Sorted, Walk, IsFile, UnlinkResult, Target;
    forall y | 0 <= y < |v'|
      ensures NodeOK(v'[y], |v'|)
    {
      assert NodeOK(v[y], |v|);
    }
  }

  lemma SameOwn(node: Inode, node': Inode, x: int)
    requires node' == node.(nlink := node'.nlink)
    ensures Own(node', x) == Own(node, x)
  {
  }

  lemma OwnRemoved(node: Inode, name: Name, x: int)
    requires node.isDir && Named(node.entries, name)
    ensures Own(node.(entries := Removed(node.entries, name)), x)
            == Own(node, x) - if x == node.entries[Find(node.entries, name)].ino then 1 else 0
  {
    InosRemoved(node.entries, name);
  }

  lemma UnlinkedCount(v: Volume, d: nat, t: nat, name: Name, y: int)
    requires d < |v| && t < |v| && d != t && v[d].isDir && Named(v[d].entries, name)
    requires v[d].entries[Find(v[d].entries, name)].ino == t
    ensures var v' := v[t := v[t].(nlink := v[t].nlink - 1)][d := v[d].(entries := Removed(v[d].entries, name))];
            Count(v', y, |v|) == Count(v, y, |v|) - if y == t then 1 else 0
  {
    var v1 := v[t := v[t].(nlink := v[t].nlink - 1)];
    SameOwn(v[t], v1[t], y);
    SameNames(v, t, v1[t], y);
    var node := v[d].(entries := Removed(v[d].entries, name));
    OwnRemoved(v[d], name, y);
    hide Removed, Find, Own, Count;
    CountUpdate(v1, d, node, y, |v|);
  }

  lemma UnlinkCounts(v: Volume, path: Path)
    requires Shape(v) && CountsLinks(v) && IsFile(v, path)
    ensures CountsLinks(UnlinkResult(v, path))
  {
    UnlinkedFacts(v, path);
    var d, t, v' := Parent(v, path), Target(v, path), UnlinkResult(v, path);
    hide Walk, IsFile, UnlinkResult, Target, Removed, Find, Count, NodeOK, Parent, Named;
    forall y | 0 <= y < |v'|
      ensures v'[y].nlink == Count(v', y, |v'|) + if y == 0 then 1 else 0
    {
      UnlinkedCount(v, d, t, Last(path), y);
    }
  }

  lemma StillNamedAfter(s: seq<Entry>, name: Name, x: int)
    requires Named(s, name) && x in Inos(s) && x != s[Find(s, name)].ino
    ensures x in Inos(Removed(s, name))
  {
    InosRemoved(s, name);
    assert x in multiset(Inos(s));
  }

  lemma UnlinkReach(v: Volume, path: Path)
    requires Inv(v) && IsFile(v, path)
    ensures Shape(UnlinkResult(v, path)) && DirsReachable(UnlinkResult(v, path))
  {
    UnlinkShape(v, path);
    UnlinkedFacts(v, path);
    var d, t, v' := Parent(v, path), Target(v, path), UnlinkResult(v, path);
    forall m: nat, y: nat | m < |v| && y < |v| && v[m].isDir && v[y].isDir && y in Inos(v[m].entries)
      ensures v'[m].isDir && y in Inos(v'[m].entries)
    {
      if m == d {
        StillNamedAfter(v[d].entries, Last(path), y);
      }
    }
    forall y: nat | y < |v'| && v'[y].isDir
      ensures Fsck.Reachable(ToImage(v'), y)
    {
      DirsStayReachable(v, v', y);
    }
  }

  // A new name keeps the law exactly if there is room for its entry.
  lemma AdditionKeepsInv(v: Volume, path: Path, x: nat, space: Space, isDir: bool)
    requires Inv(v) && Missing(v, path) && Fresh(v, path, x)
    ensures var v' := if isDir then MkdirResult(v, path, x, space) else CreatResult(v, path, x, space);
            && (CountsLinks(v') <==> !space.NoEntry?) && (Inv(v') <==> !space.NoEntry?)
  {
    ShortCounts(v, path, x, isDir);
    CreatedKeepsInv(v, path, x, isDir);
    if isDir && space.Enough? {
      ParentCanBeRecorded(v, path, x);
      MadeDirKeepsInv(v, path, x, RecordedParent(v, SelfNamed(v, path, x), path));
    }
  }

  // ----- the image mkfs writes -----

  function Mkfs(nodes: nat): Volume
    requires nodes > 0
  {
    [Inode(3, true, Dots(0, 0))] + seq(nodes - 1, _ => FREE)
  }

  lemma {:induction false} FreeCountsNothing(v: Volume, x: int, n: nat)
    requires 1 <= n <= |v| && forall i :: 1 <= i < |v| ==> !v[i].isDir
    ensures Count(v, x, n) == Own(v[0], x)
  {
    if n > 1 {
      FreeCountsNothing(v, x, n - 1);
    } else {
      assert Count(v, x, 0) == 0;
    }
  }

  lemma MkfsInv(nodes: nat)
    requires 0 < nodes < 0x8000
    ensures Inv(Mkfs(nodes))
  {
    var v := Mkfs(nodes);
    assert forall i :: 1 <= i < |v| ==> v[i] == FREE;
    DotsNamed(0, 0, 0);
    assert forall x :: 0 <= x < |v| ==> NodeOK(v[x], |v|);
    forall x | 0 <= x < |v|
      ensures v[x].nlink == Count(v, x, |v|) + if x == 0 then 1 else 0
    {
      FreeCountsNothing(v, x, |v|);
      DotsNamed(0, 0, x);
    }
    Fsck.RootReachable(ToImage(v));
  }

  // "/a"
  const PATH_A: Path := [[97]]

  lemma FreshLookup()
    ensures Mkfs(2) == [Inode(3, true, Dots(0, 0)), FREE]
    ensures Missing(Mkfs(2), PATH_A) && Parent(Mkfs(2), PATH_A) == 0 && Last(PATH_A) == [97]
  {
    var s := Dots(0, 0);
    assert PATH_A[..0] == [];
    assert s[1..] == [Entry(0, DOT_DOT)];
    assert s[1..][1..] == [];
    assert Find(s, [97]) == 2;
  }

  lemma CreatedLookup()
    ensures Fresh(Mkfs(2), PATH_A, 1)
    ensures Created(Mkfs(2), PATH_A, 1, false) == [Inode(3, true, Dots(0, 0) + [Entry(1, [97])]), Inode(1, false, [])]
    ensures Find(Dots(0, 0) + [Entry(1, [97])], [97]) == 2
  {
    FreshLookup();
    var s := Dots(0, 0);
    assert !Less([97], DOT) && !Less([97], DOT_DOT);
    PlaceIs(s, [97], 2);
    assert Inserted(s, Entry(1, [97])) == s + [Entry(1, [97])];
    FindIs(s + [Entry(1, [97])], [97], 2);
  }

  lemma FileThere(v: Volume)
    requires v == [Inode(3, true, Dots(0, 0) + [Entry(1, [97])]), Inode(1, false, [])]
    ensures IsFile(v, PATH_A) && Target(v, PATH_A) == 1 && v[1].nlink == 1
  {
    CreatedLookup();
    assert PATH_A[..0] == [];
    assert Parent(v, PATH_A) == 0;
  }

  // From a fresh disk: creat of "/a" keeps the law, and mkdir of "/a" after it breaks it.
  lemma MkdirOverFileHappens()
    ensures Shape(Mkfs(2)) && Fresh(Mkfs(2), PATH_A, 1)
    ensures var v := CreatResult(Mkfs(2), PATH_A, 1, Enough);
            && Inv(v) && IsFile(v, PATH_A) && Fresh(v, PATH_A, 1)
            && !CountsLinks(MkdirResult(v, PATH_A, 1, Enough))
  {
    var v0 := Mkfs(2);
    MkfsInv(2);
    FreshLookup();
    CreatedLookup();
    var v := CreatResult(v0, PATH_A, 1, Enough);
    AdditionKeepsInv(v0, PATH_A, 1, Enough, false);
    hide Find, Inv, Missing, IsFile, Target, CountsLinks, Inserted, Dots, RecordedParent, Parent, Created;
    assert v == Created(v0, PATH_A, 1, false);
    FileThere(v);
    MkdirOverFile(v, PATH_A, 1);
    assert !Missing(v, PATH_A) by {
      NotMissing(v, PATH_A);
    }
  }

  lemma NotMissing(v: Volume, path: Path)
    requires IsFile(v, path)
    ensures !Missing(v, path)
  {
  }

  // ----- what fsck finds -----

  // The checker's node i adds for x what node i names.
  ghost predicate AddsOwn(image: Fsck.Image, v: Volume, dirs: set<nat>, x: nat, i: nat)
    requires i < |v| == |image|
  {
    (if i in dirs && image[i].isDir then multiset(image[i].entries)[x] else 0) == Own(v[i], x)
  }

  lemma {:induction false} MentionsAreCount(image: Fsck.Image, v: Volume, dirs: set<nat>, x: nat, n: nat)
    requires n <= |v| == |image| && forall i: nat :: i < n ==> AddsOwn(image, v, dirs, x, i)
    ensures Fsck.Mentions(image, dirs, x, n) == Count(v, x, n)
  {
    if n > 0 {
      MentionsAreCount(image, v, dirs, x, n - 1);
      assert AddsOwn(image, v, dirs, x, n - 1);
    }
  }

  // Counting over the directories fsck reaches is counting over all of them.
  lemma CountIsMentions(v: Volume, dirs: set<nat>, x: nat)
    requires Shape(v) && forall d: nat :: d < |v| && v[d].isDir ==> d in dirs
    ensures Fsck.Mentions(ToImage(v), dirs, x, |v|) == Count(v, x, |v|)
  {
    forall i: nat | i < |v|
      ensures AddsOwn(ToImage(v), v, dirs, x, i)
    {
      SameMultiset(ToImage(v)[i].entries, Inos(v[i].entries), x);
    }
    MentionsAreCount(ToImage(v), v, dirs, x, |v|);
  }

  lemma SameMultiset(s: seq<nat>, t: seq<int>, x: nat)
    requires |s| == |t| && forall i :: 0 <= i < |s| ==> s[i] == t[i]
    ensures multiset(s)[x] == multiset(t)[x]
  {
    var u: seq<int> := s;
    assert u == t;
  }

  lemma {:induction false} CountedIsNamed(v: Volume, x: int, n: nat) returns (d: nat)
    requires n <= |v| && Count(v, x, n) > 0
    ensures d < n && v[d].isDir && x in Inos(v[d].entries)
  {
    if Own(v[n - 1], x) > 0 {
      d := n - 1;
    } else {
      d := CountedIsNamed(v, x, n - 1);
    }
  }

  // Reached by fsck means linked.
  lemma ReachableIsLinked(v: Volume, x: nat)
    requires Inv(v) && x < |v|
    ensures Fsck.Reachable(ToImage(v), x) <==> v[x].nlink != 0
  {
    assert NodeOK(v[x], |v|);
    if v[x].nlink != 0 {
      if x == 0 {
        Fsck.RootReachable(ToImage(v));
      } else {
        var d := CountedIsNamed(v, x, |v|);
        NamedIsReachable(v, d, x);
      }
    } else if Fsck.Reachable(ToImage(v), x) {
      var path :| Fsck.IsPath(ToImage(v), path) && path[|path| - 1] == x;
      if |path| > 1 {
        var d := path[|path| - 2];
        assert Fsck.Names(ToImage(v), d, path[|path| - 2 + 1]);
        CountAtLeast(v, d, x, |v|);
      }
    }
  }

  // Under the invariant every stored link count is the one fsck computes.
  lemma CountsAreRight(v: Volume, x: nat)
    requires Inv(v)
    ensures !Fsck.WrongLinks(ToImage(v), x)
  {
    if x < |v| {
      forall d: nat | d < |v| && v[d].isDir
        ensures d in Fsck.ReachableSet(ToImage(v))
      {
        assert NodeOK(v[d], |v|);
        ReachableIsLinked(v, d);
      }
      CountIsMentions(v, Fsck.ReachableSet(ToImage(v)), x);
    }
  }
}
