/** Where paths lead before and after creat, mkdir and unlink: the new name leads to the new node, a removed one
    nowhere, ".." of a new directory to the directory it is in, and every other path where it led. */
module LinkPaths {
  import opened DirectoryEntries
  import opened LinkLaw

  lemma {:induction false} WalkFurther(v: Volume, d: int, path: Path, name: Name)
    ensures Walk(v, d, path + [name]) ==
            var e := Walk(v, d, path);
            if IsDirectory(v, e) then Lookup(v[e].entries, name) else -1
    decreases |path|
  {
    if path == [] {
      assert path + [name] == [name];
      if IsDirectory(v, d) {
        assert Walk(v, Lookup(v[d].entries, name), [name][1..]) == Lookup(v[d].entries, name);
      }
    } else if IsDirectory(v, d) {
      assert (path + [name])[1..] == path[1..] + [name];
      WalkFurther(v, Lookup(v[d].entries, path[0]), path[1..], name);
    }
  }

  // ----- lookup in an edited listing -----

  lemma LookupInserted(s: seq<Entry>, e: Entry, name: Name)
    requires !Named(s, e.name) && Lookup(s, name) != -1
    ensures Lookup(Inserted(s, e), name) == Lookup(s, name)
  {
    LookupInsertedAt(s, e, name);
  }

  lemma LookupNew(s: seq<Entry>, e: Entry)
    requires !Named(s, e.name)
    ensures Lookup(Inserted(s, e), e.name) == e.ino
  {
    var p := Place(s, e.name);
    FindIs(Inserted(s, e), e.name, p);
  }

  lemma LookupPrefix(s: seq<Entry>, n: nat, name: Name)
    requires n <= |s|
    ensures Lookup(s[..n], name) == if Find(s, name) < n then Lookup(s, name) else -1
  {
    var i := Find(s, name);
    FindIs(s[..n], name, if i < n then i else n);
  }

  // ----- paths that lead somewhere still do -----

  // Every directory still finds what it found.
  ghost predicate Extends(v: Volume, v': Volume) {
    && |v'| == |v|
    && forall m: nat, name :: m < |v| && v[m].isDir && Lookup(v[m].entries, name) != -1 ==>
         v'[m].isDir && Lookup(v'[m].entries, name) == Lookup(v[m].entries, name)
  }

  lemma {:induction false} WalkKept(v: Volume, v': Volume, d: int, path: Path)
    requires Extends(v, v') && Walk(v, d, path) != -1
    ensures Walk(v', d, path) == Walk(v, d, path)
    decreases |path|
  {
    if path != [] {
      var e := Lookup(v[d].entries, path[0]);
      assert Walk(v, d, path) == Walk(v, e, path[1..]);
      if e == -1 {
        NowhereStays(v, path[1..]);
      }
      WalkKept(v, v', e, path[1..]);
    }
  }

  lemma NowhereStays(v: Volume, path: Path)
    ensures Walk(v, -1, path) == -1
  {
  }

  lemma CreatedExtends(v: Volume, path: Path, x: nat, isDir: bool)
    requires Shape(v) && Missing(v, path) && x < |v| && v[x].nlink == 0
    ensures Extends(v, Created(v, path, x, isDir))
    ensures !v[x].isDir && Parent(v, path) != x && IsDirectory(v, Parent(v, path))
    ensures Created(v, path, x, isDir)[Parent(v, path)].isDir
    ensures Lookup(Created(v, path, x, isDir)[Parent(v, path)].entries, Last(path)) == x
  {
    var d, e, v' := Parent(v, path), Entry(x, Last(path)), Created(v, path, x, isDir);
    MissingIsUnnamed(v, path);
    assert NodeOK(v[d], |v|) && NodeOK(v[x], |v|);
    LookupNew(v[d].entries, e);
    hide Inserted, Lookup, Walk, Missing, Sorted;
    forall m: nat, name | m < |v| && v[m].isDir && Lookup(v[m].entries, name) != -1
      ensures m != x && v'[m].isDir && Lookup(v'[m].entries, name) == Lookup(v[m].entries, name)
    {
      if m == d {
        LookupInserted(v[d].entries, e, name);
      }
    }
  }

  lemma ReplacedExtends(v: Volume, w: Volume, x: nat, node: Inode)
    requires Extends(v, w) && x < |v| && !v[x].isDir
    ensures Extends(v, w[x := node])
  {
  }

  lemma LinksExtend(v: Volume, w: Volume, p: nat)
    requires Extends(v, w) && p < |w|
    ensures Extends(v, AddLinks(w, p, 1))
  {
  }

  lemma EndOfPath(v: Volume, v': Volume, path: Path, x: int)
    requires path != [] && Extends(v, v') && IsDirectory(v, Parent(v, path)) && IsDirectory(v', Parent(v, path))
    requires Lookup(v'[Parent(v, path)].entries, Last(path)) == x
    ensures Walk(v', 0, path) == x
  {
    WalkKept(v, v', 0, path[..|path| - 1]);
    WalkFurther(v', 0, path[..|path| - 1], Last(path));
    assert path == path[..|path| - 1] + [Last(path)];
  }

  // After creat the path leads to the new node, which is of the kind asked for, and every path that led anywhere
  // leads there still.
  lemma CreatedIsFound(v: Volume, path: Path, x: nat, isDir: bool)
    requires Shape(v) && Missing(v, path) && x < |v| && v[x].nlink == 0
    ensures var v' := Created(v, path, x, isDir);
            && Walk(v', 0, path) == x && v'[x] == Inode(1, isDir, [])
            && forall q: Path :: Walk(v, 0, q) != -1 ==> Walk(v', 0, q) == Walk(v, 0, q)
  {
    var v' := Created(v, path, x, isDir);
    CreatedExtends(v, path, x, isDir);
    assert path != [] && Parent(v, path) != x;
    hide Walk, Missing, Lookup, Inserted;
    EndOfPath(v, v', path, x);
    forall q: Path | Walk(v, 0, q) != -1
      ensures Walk(v', 0, q) == Walk(v, 0, q)
    {
      WalkKept(v, v', 0, q);
    }
  }

  // ----- the parent a new directory names -----

  lemma SelfNamedExtends(v: Volume, path: Path, x: nat)
    requires Shape(v) && Missing(v, path) && x < |v| && v[x].nlink == 0
    ensures Extends(v, SelfNamed(v, path, x)) && x != 0
    ensures SelfNamed(v, path, x)[0].entries ==
            if Parent(v, path) == 0 then Inserted(v[0].entries, Entry(x, Last(path))) else v[0].entries
    ensures !Named(v[Parent(v, path)].entries, Last(path))
  {
    CreatedExtends(v, path, x, true);
    ReplacedExtends(v, Created(v, path, x, true), x, Inode(1, true, [Entry(x, DOT)]));
    MissingIsUnnamed(v, path);
    assert NodeOK(v[0], |v|);
    hide Walk, Missing, Lookup, Inserted;
  }

  // For a path of two names or more it is the directory the path leads to: where the root has grown and the walk no
  // longer finds its way, that directory is the root.
  lemma DeepParent(v: Volume, path: Path, x: nat)
    requires Shape(v) && Missing(v, path) && x < |v| && v[x].nlink == 0 && |path| >= 2
    ensures |v[0].entries| <= |SelfNamed(v, path, x)[0].entries|
    ensures RecordedParent(v, SelfNamed(v, path, x), path) == Parent(v, path)
  {
    ParentCanBeRecorded(v, path, x);
    SelfNamedExtends(v, path, x);
    var v2, s, up, d := SelfNamed(v, path, x), v[0].entries, path[..|path| - 1], Parent(v, path);
    var e0 := Lookup(s, up[0]);
    assert IsDirectory(v, d) && Walk(v, 0, up) == d;
    if e0 == -1 {
      NowhereStays(v, up[1..]);
    }
    assert Walk(v, e0, up[1..]) == d;
    WalkKept(v, v2, e0, up[1..]);
    NowhereStays(v2, up[1..]);
    hide Walk, Missing, Inserted, Extends;
    if d == 0 {
      LookupPrefix(v2[0].entries, |s|, up[0]);
      LookupInserted(s, Entry(x, Last(path)), up[0]);
    } else {
      assert v2[0].entries[..|s|] == s;
    }
  }

  // Where the entry of a name stands when another has gone in.
  lemma FindInserted(s: seq<Entry>, e: Entry, name: Name)
    requires !Named(s, e.name) && name != e.name
    ensures var i := Find(s, name);
            Find(Inserted(s, e), name) == if i < Place(s, e.name) then i else i + 1
  {
    var pl, s', i := Place(s, e.name), Inserted(s, e), Find(s, name);
    forall k | 0 <= k < |s'|
      ensures s'[k] == if k < pl then s[k] else if k == pl then e else s[k - 1]
    {
    }
    FindIs(s', name, if i < pl then i else i + 1);
  }

  // Which entry a listing names "root" by is found among as many entries as there were before one more went in.
  lemma RootAfterInsert(s: seq<Entry>, e: Entry)
    requires Sorted(s) && !Named(s, e.name)
    ensures |s| <= |Inserted(s, e)|
    ensures Lookup(Inserted(s, e)[..|s|], ROOT_NAME)
            == if e.name == ROOT_NAME then
                 if s != [] && Less(e.name, s[|s| - 1].name) then e.ino else -1
               else if s != [] && s[|s| - 1].name == ROOT_NAME && Less(e.name, ROOT_NAME) then -1
               else Lookup(s, ROOT_NAME)
  {
    hide Less, Sorted, Inserted, Place, Find, Named;
    InsertedLength(s, e);
    LookupPrefix(Inserted(s, e), |s|, ROOT_NAME);
    LastIsGreatest(s, e.name);
    if e.name == ROOT_NAME {
      LookupNew(s, e);
      FindNew(s, e);
    } else {
      FindInserted(s, e, ROOT_NAME);
      if Find(s, ROOT_NAME) < |s| {
        LookupInsertedAt(s, e, ROOT_NAME);
        OnlyOnce(s, ROOT_NAME);
      }
    }
  }

  lemma InsertedLength(s: seq<Entry>, e: Entry)
    ensures |Inserted(s, e)| == |s| + 1
  {
  }

  lemma FindNew(s: seq<Entry>, e: Entry)
    requires !Named(s, e.name)
    ensures Find(Inserted(s, e), e.name) == Place(s, e.name)
  {
    FindIs(Inserted(s, e), e.name, Place(s, e.name));
  }

  lemma LookupInsertedAt(s: seq<Entry>, e: Entry, name: Name)
    requires !Named(s, e.name) && Find(s, name) < |s|
    ensures Lookup(Inserted(s, e), name) == Lookup(s, name)
  {
    assert s[Find(s, name)].name == name;
    FindInserted(s, e, name);
    InsertedAt(s, e, if Find(s, name) < Place(s, e.name) then Find(s, name) else Find(s, name) + 1);
  }

  // A name stands in the last entry exactly if it is found there.
  lemma OnlyOnce(s: seq<Entry>, name: Name)
    requires Sorted(s) && Find(s, name) < |s|
    ensures s[|s| - 1].name == name <==> Find(s, name) == |s| - 1
  {
    hide Less;
    if Find(s, name) < |s| - 1 {
      NotTwice(s, Find(s, name), |s| - 1);
    }
  }

  // A new entry goes before the last one exactly if it is less.
  lemma LastIsGreatest(s: seq<Entry>, name: Name)
    requires Sorted(s)
    ensures s != [] ==> (Place(s, name) < |s| <==> Less(name, s[|s| - 1].name))
  {
    var pl := Place(s, name);
    if pl < |s| - 1 {
      LessIsTransitive(name, s[pl].name, s[|s| - 1].name);
    }
    hide Less;
  }

  lemma NotTwice(s: seq<Entry>, i: nat, j: nat)
    requires Sorted(s) && i < j < |s|
    ensures s[i].name != s[j].name
  {
    LessIsTotal(s[i].name, s[j].name);
  }

  // For a path of one name it is what mkdir finds under "root" in as many entries of the root as there were: the
  // node of "/root", unless that is the last entry and the new one goes before it, or the new directory itself where
  // it is "/root" and not the last; else the root.
  lemma TopParent(v: Volume, path: Path, x: nat)
    requires Shape(v) && Missing(v, path) && x < |v| && v[x].nlink == 0 && |path| == 1
    ensures |v[0].entries| <= |SelfNamed(v, path, x)[0].entries|
    ensures RecordedParent(v, SelfNamed(v, path, x), path) == NodeUnderRoot(v[0].entries, path[0], x)
  {
    ParentCanBeRecorded(v, path, x);
    SelfNamedExtends(v, path, x);
    assert path[..0] == [];
    assert [ROOT_NAME][1..] == [];
    var v2, s := SelfNamed(v, path, x), v[0].entries;
    assert NodeOK(v[0], |v|);
    RootAfterInsert(s, Entry(x, path[0]));
    LookupInRange(s, ROOT_NAME, |v|);
    hide Inserted, Less, Sorted, Lookup, Missing, SelfNamed, Extends;
  }

  function NodeUnderRoot(s: seq<Entry>, name: Name, x: nat): int {
    if name == [114, 111, 111, 116] then
      if s != [] && Less(name, s[|s| - 1].name) then x else 0
    else if s != [] && s[|s| - 1].name == [114, 111, 111, 116] && Less(name, [114, 111, 111, 116]) then 0
    else if Lookup(s, [114, 111, 111, 116]) >= 0 then Lookup(s, [114, 111, 111, 116])
    else 0
  }

  // Main result on mkdir of a new name: the path leads to the new directory; its "." names itself, its ".." the
  // directory it is in or, for a directory in the root, what NodeUnderRoot says; that node and no other has a link
  // more, the new directory starting with two; and every path that led anywhere leads there still.
  lemma MadeIsFound(v: Volume, path: Path, x: nat)
    requires Shape(v) && Missing(v, path) && x < |v| && v[x].nlink == 0
    ensures Fresh(v, path, x) && path != []
    ensures var v', p := MkdirResult(v, path, x, Enough), ParentOf(v, path, x);
            && Walk(v', 0, path) == x && Walk(v', 0, path + [[46]]) == x && Walk(v', 0, path + [[46, 46]]) == p
            && 0 <= p < |v| && |v'| == |v|
            && (forall y: nat :: y < |v| ==>
                  v'[y].nlink == (if y == x then 2 else v[y].nlink) + if y == p then 1 else 0)
            && forall q: Path :: Walk(v, 0, q) != -1 ==> Walk(v', 0, q) == Walk(v, 0, q)
  {
    var v1, p := Created(v, path, x, true), ParentOf(v, path, x);
    ParentCanBeRecorded(v, path, x);
    if |path| >= 2 {
      DeepParent(v, path, x);
    } else {
      TopParent(v, path, x);
    }
    MadeIsFoundAt(v, path, x, p);
    hide Walk, Missing, SelfNamed, RecordedParent, NodeUnderRoot, MadeDir;
  }

  function ParentOf(v: Volume, path: Path, x: nat): int
    requires path != [] && |v| > 0
  {
    if |path| >= 2 then Walk(v, 0, path[..|path| - 1]) else NodeUnderRoot(v[0].entries, path[0], x)
  }

  lemma MadeIsFoundAt(v: Volume, path: Path, x: nat, p: nat)
    requires Shape(v) && Missing(v, path) && x < |v| && v[x].nlink == 0 && p < |v|
    ensures var v' := MadeDir(v, path, x, p);
            && Walk(v', 0, path) == x && Walk(v', 0, path + [[46]]) == x && Walk(v', 0, path + [[46, 46]]) == p
            && (forall y: nat :: y < |v| ==>
                  v'[y].nlink == (if y == x then 2 else v[y].nlink) + if y == p then 1 else 0)
            && forall q: Path :: Walk(v, 0, q) != -1 ==> Walk(v', 0, q) == Walk(v, 0, q)
  {
    var v' := MadeDir(v, path, x, p);
    hide *;
    MadeExtends(v, path, x, p);
    DotsFound(x, p);
    EndOfPath(v, v', path, x);
    WalkFurther(v', 0, path, [46]);
    WalkFurther(v', 0, path, [46, 46]);
    forall q: Path | Walk(v, 0, q) != -1
      ensures Walk(v', 0, q) == Walk(v, 0, q)
    {
      WalkKept(v, v', 0, q);
    }
  }

  lemma MadeExtends(v: Volume, path: Path, x: nat, p: nat)
    requires Shape(v) && Missing(v, path) && x < |v| && v[x].nlink == 0 && p < |v|
    ensures |v| < 0x8000 && path != []
    ensures var v', d := MadeDir(v, path, x, p), Parent(v, path);
            && Extends(v, v') && IsDirectory(v, d) && IsDirectory(v', d) && Lookup(v'[d].entries, Last(path)) == x
            && IsDirectory(v', x) && v'[x].entries == Dots(x, p)
            && forall y: nat :: y < |v| ==>
                 v'[y].nlink == (if y == x then 2 else v[y].nlink) + if y == p then 1 else 0
  {
    var v1 := Created(v, path, x, true);
    CreatedExtends(v, path, x, true);
    ReplacedExtends(v, v1, x, Inode(2, true, Dots(x, p)));
    LinksExtend(v, v1[x := Inode(2, true, Dots(x, p))], p);
    assert path != [] && Parent(v, path) != x;
    hide Walk, Missing, Lookup, Inserted, Extends, Dots, NodeOK;
  }

  lemma DotsFound(x: nat, p: nat)
    requires x < 0x8000 && p < 0x8000
    ensures Lookup(Dots(x, p), [46]) == x && Lookup(Dots(x, p), [46, 46]) == p
  {
    FindIs(Dots(x, p), [46], 0);
    FindIs(Dots(x, p), [46, 46], 1);
  }

  // ----- unlink -----

  lemma LookupRemoved(s: seq<Entry>, name: Name, other: Name)
    requires Sorted(s) && Named(s, name)
    ensures Lookup(Removed(s, name), other) == if other == name then -1 else Lookup(s, other)
  {
    var p, r, i := Find(s, name), Removed(s, name), Find(s, other);
    forall k | 0 <= k < |r|
      ensures r[k] == s[if k < p then k else k + 1]
    {
    }
    if other == name {
      forall k | 0 <= k < |r|
        ensures r[k].name != other
      {
        NotTwice(s, if k < p then k else p, if k < p then p else k + 1);
      }
      FindIs(r, other, |r|);
    } else {
      FindIs(r, other, if i < p then i else i - 1);
    }
  }

  // Every directory still finds the directories it found.
  ghost predicate KeepsDirectories(v: Volume, v': Volume) {
    && |v'| == |v| && (forall m: nat :: m < |v| && v[m].isDir ==> v'[m].isDir)
    && forall m: nat, name :: m < |v| && v[m].isDir && IsDirectory(v, Lookup(v[m].entries, name)) ==>
         Lookup(v'[m].entries, name) == Lookup(v[m].entries, name)
  }

  lemma ThroughDirectories(v: Volume, e: int, path: Path)
    requires IsDirectory(v, Walk(v, e, path))
    ensures IsDirectory(v, e)
  {
  }

  lemma {:induction false} WalkToDirectoryKept(v: Volume, v': Volume, d: int, path: Path)
    requires KeepsDirectories(v, v') && IsDirectory(v, Walk(v, d, path))
    ensures Walk(v', d, path) == Walk(v, d, path) && IsDirectory(v', Walk(v, d, path))
    decreases |path|
  {
    if path != [] {
      var e := Lookup(v[d].entries, path[0]);
      assert Walk(v, d, path) == Walk(v, e, path[1..]);
      ThroughDirectories(v, e, path[1..]);
      WalkToDirectoryKept(v, v', e, path[1..]);
    }
  }

  // After unlink of a file its path leads nowhere, the file has a link less and no other node's count differs, and
  // every other name in every directory that can be reached leads where it led.
  lemma UnlinkedIsGone(v: Volume, path: Path)
    requires Inv(v) && IsFile(v, path)
    ensures var v', t := UnlinkResult(v, path), Target(v, path);
            && |v'| == |v| && t == Walk(v, 0, path) && Walk(v', 0, path) == -1
            && (forall y: nat :: y < |v| ==> v'[y].nlink == v[y].nlink - if y == t then 1 else 0)
            && (forall q: Path :: IsDirectory(v, Walk(v, 0, q)) ==> Walk(v', 0, q) == Walk(v, 0, q))
            && forall q: Path, name :: IsDirectory(v, Walk(v, 0, q)) ==>
                 Walk(v', 0, q + [name])
                 == if Walk(v, 0, q) == Parent(v, path) && name == Last(path) then -1 else Walk(v, 0, q + [name])
  {
    hide *;
    UnlinkedStep(v, path);
    var v', d, up := UnlinkResult(v, path), Parent(v, path), path[..|path| - 1];
    WalkFurther(v, 0, up, Last(path));
    forall q: Path | IsDirectory(v, Walk(v, 0, q))
      ensures Walk(v', 0, q) == Walk(v, 0, q)
      ensures forall name :: Walk(v', 0, q + [name])
                             == if Walk(v, 0, q) == d && name == Last(path) then -1 else Walk(v, 0, q + [name])
    {
      UnlinkedAround(v, path, q);
    }
    assert Walk(v', 0, up + [Last(path)]) == -1;
  }

  lemma UnlinkedAround(v: Volume, path: Path, q: Path)
    requires Inv(v) && IsFile(v, path) && IsDirectory(v, Walk(v, 0, q))
    ensures path != []
    ensures var v' := UnlinkResult(v, path);
            && Walk(v', 0, q) == Walk(v, 0, q)
            && forall name ::
                 Walk(v', 0, q + [name])
                 == if Walk(v, 0, q) == Parent(v, path) && name == Last(path) then -1 else Walk(v, 0, q + [name])
  {
    hide *;
    UnlinkedStep(v, path);
    var v', m := UnlinkResult(v, path), Walk(v, 0, q);
    WalkToDirectoryKept(v, v', 0, q);
    DirectoryIn(v, m);
    forall name
      ensures Walk(v', 0, q + [name])
              == if m == Parent(v, path) && name == Last(path) then -1 else Walk(v, 0, q + [name])
    {
      WalkFurther(v, 0, q, name);
      WalkFurther(v', 0, q, name);
      UnlinkedLookup(v, path, m, name);
    }
  }

  lemma DirectoryIn(v: Volume, m: int)
    ensures IsDirectory(v, m) <==> 0 <= m < |v| && v[m].isDir
  {
  }

  lemma UnlinkedLookup(v: Volume, path: Path, m: nat, name: Name)
    requires Inv(v) && IsFile(v, path) && m < |v| && v[m].isDir
    ensures path != [] && |UnlinkResult(v, path)| == |v| && UnlinkResult(v, path)[m].isDir
    ensures Lookup(UnlinkResult(v, path)[m].entries, name)
            == if m == Parent(v, path) && name == Last(path) then -1 else Lookup(v[m].entries, name)
  {
    UnlinkedFacts(v, path);
    var d := Parent(v, path);
    assert Sorted(v[d].entries);
    LookupRemoved(v[d].entries, Last(path), name);
    hide Walk, IsFile, Target, Parent, UnlinkResult, Lookup, Sorted, Named, Removed, Inv, NodeOK;
  }

  lemma UnlinkedStep(v: Volume, path: Path)
    requires Inv(v) && IsFile(v, path)
    ensures path != [] && path == path[..|path| - 1] + [Last(path)]
    ensures var v', d, t := UnlinkResult(v, path), Parent(v, path), Target(v, path);
            && |v'| == |v| && d == Walk(v, 0, path[..|path| - 1]) && IsDirectory(v, d) && 0 <= d < |v|
            && Lookup(v[d].entries, Last(path)) == t && KeepsDirectories(v, v')
            && forall y: nat :: y < |v| ==> v'[y].nlink == v[y].nlink - if y == t then 1 else 0
  {
    hide *;
    UnlinkedEnds(v, path);
    var v', d, t := UnlinkResult(v, path), Parent(v, path), Target(v, path);
    forall m: nat | m < |v| && v[m].isDir
      ensures v'[m].isDir
      ensures forall name :: IsDirectory(v, Lookup(v[m].entries, name)) ==>
                               Lookup(v'[m].entries, name) == Lookup(v[m].entries, name)
    {
      forall name | IsDirectory(v, Lookup(v[m].entries, name))
        ensures v'[m].isDir && Lookup(v'[m].entries, name) == Lookup(v[m].entries, name)
      {
        UnlinkedLookup(v, path, m, name);
      }
      UnlinkedLookup(v, path, m, Last(path));
    }
    KeepsNow(v, v');
  }

  lemma KeepsNow(v: Volume, v': Volume)
    requires |v'| == |v| && forall m: nat :: m < |v| && v[m].isDir ==> v'[m].isDir
    requires forall m: nat, name :: m < |v| && v[m].isDir && IsDirectory(v, Lookup(v[m].entries, name)) ==>
               Lookup(v'[m].entries, name) == Lookup(v[m].entries, name)
    ensures KeepsDirectories(v, v')
  {
  }

  lemma UnlinkedEnds(v: Volume, path: Path)
    requires Inv(v) && IsFile(v, path)
    ensures path != [] && path == path[..|path| - 1] + [Last(path)]
    ensures var v', d, t := UnlinkResult(v, path), Parent(v, path), Target(v, path);
            && |v'| == |v| && d == Walk(v, 0, path[..|path| - 1]) && IsDirectory(v, d) && 0 <= d < |v|
            && Lookup(v[d].entries, Last(path)) == t && !IsDirectory(v, t)
            && forall y: nat :: y < |v| ==> v'[y].nlink == v[y].nlink - if y == t then 1 else 0
  {
    UnlinkedFacts(v, path);
    FileParts(v, path);
    hide Walk, IsFile, Target, UnlinkResult, Lookup, Inv, NodeOK, Removed, Named, Find;
  }

  lemma FileParts(v: Volume, path: Path)
    requires IsFile(v, path)
    ensures path != [] && path == path[..|path| - 1] + [Last(path)] && IsDirectory(v, Parent(v, path))
    ensures Lookup(v[Parent(v, path)].entries, Last(path)) == Target(v, path) && !IsDirectory(v, Target(v, path))
    ensures Parent(v, path) == Walk(v, 0, path[..|path| - 1])
  {
    hide Walk, Lookup;
  }
}
