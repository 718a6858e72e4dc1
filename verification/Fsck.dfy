/** The consistency checker: a stack traversal of the directory graph from the root that counts
    the entries naming each inode and collects the blocks in use. */
module Fsck {
  import opened Collections

  // What the checker reads of one inode: its stored link count, whether it is a directory, the
  // inode numbers its entries name ("." and ".." included), and its block addresses.
  datatype Node = Node(nlink: int, isDir: bool, entries: seq<nat>, blocks: seq<int>)

  type Image = seq<Node>

  predicate WellFormed(image: Image) {
    && |image| > 0
    && forall n :: 0 <= n < |image| ==> forall k :: 0 <= k < |image[n].entries| ==> image[n].entries[k] < |image|
  }

  // ----- what the answer should be -----

  predicate Names(image: Image, d: nat, x: nat) {
    d < |image| && image[d].isDir && x in image[d].entries
  }

  ghost predicate IsPath(image: Image, path: seq<nat>) {
    && |path| > 0 && path[0] == 0
    && forall i :: 0 <= i < |path| - 1 ==> Names(image, path[i], path[i + 1])
  }

  ghost predicate Reachable(image: Image, x: nat) {
    exists path :: IsPath(image, path) && path[|path| - 1] == x
  }

  // How often the directories in `dirs`, among the first n inodes, name inode x.
  function Mentions(image: Image, dirs: set<nat>, x: nat, n: nat): nat
    requires n <= |image|
  {
    if n == 0 then 0
    else
      Mentions(image, dirs, x, n - 1)
      + if n - 1 in dirs && image[n - 1].isDir then multiset(image[n - 1].entries)[x] else 0
  }

  ghost function ReachableSet(image: Image): (r: set<nat>)
    ensures forall x: nat :: x in r <==> x < |image| && Reachable(image, x)
  {
    set x: nat | 0 <= x < |image| && Reachable(image, x)
  }

  // Entries of reachable directories naming x, and one more for the root.
  ghost function LinkCount(image: Image, x: nat): nat {
    Mentions(image, ReachableSet(image), x, |image|) + if x == 0 then 1 else 0
  }

  ghost predicate InUse(image: Image, block: int) {
    exists x :: 0 <= x < |image| && Reachable(image, x) && block in image[x].blocks
  }

  // ----- proofs about the traversal -----

  lemma RootReachable(image: Image)
    ensures Reachable(image, 0)
  {
    assert IsPath(image, [0]) && [0 as nat][0] == 0;
  }

  lemma ReachableStep(image: Image, d: nat, x: nat)
    requires Reachable(image, d) && Names(image, d, x)
    ensures Reachable(image, x)
  {
    var path :| IsPath(image, path) && path[|path| - 1] == d;
    var longer := path + [x];
    assert IsPath(image, longer) && longer[|longer| - 1] == x;
  }

  ghost predicate ClosedUnderNames(image: Image, found: set<nat>) {
    0 in found && forall d, x :: d in found && Names(image, d, x) ==> x in found
  }

  lemma {:induction false} PathStaysIn(image: Image, found: set<nat>, path: seq<nat>, i: nat)
    requires ClosedUnderNames(image, found) && IsPath(image, path) && i < |path|
    ensures path[i] in found
  {
    if i > 0 {
      PathStaysIn(image, found, path, i - 1);
      assert Names(image, path[i - 1], path[i]);
    }
  }

  lemma ClosedHoldsReachable(image: Image, found: set<nat>, x: nat)
    requires ClosedUnderNames(image, found) && Reachable(image, x)
    ensures x in found
  {
    var path :| IsPath(image, path) && path[|path| - 1] == x;
    PathStaysIn(image, found, path, |path| - 1);
  }

  // Visiting one more directory adds exactly its own entries.
  lemma {:induction false} MentionsAdds(image: Image, dirs: set<nat>, d: nat, x: nat, n: nat)
    requires n <= |image| && d !in dirs && d < |image|
    ensures Mentions(image, dirs + {d}, x, n) ==
            Mentions(image, dirs, x, n) + if d < n && image[d].isDir then multiset(image[d].entries)[x] else 0
  {
    if n > 0 {
      MentionsAdds(image, dirs, d, x, n - 1);
    }
  }

  lemma {:induction false} MentionsOfNone(image: Image, x: nat, n: nat)
    requires n <= |image|
    ensures Mentions(image, {}, x, n) == 0
  {
    if n > 0 {
      MentionsOfNone(image, x, n - 1);
    }
  }

  // ----- the traversal -----

  // Inodes found but not yet visited are on the stack once each; the counts are the mentions by
  // the visited directories.
  ghost predicate Progress(image: Image, stack: seq<nat>, visited: set<nat>, counts: map<nat, nat>) {
    && 0 in counts
    && (forall i :: 0 <= i < |stack| ==> stack[i] in counts && stack[i] !in visited)
    && (forall i, j :: 0 <= i < j < |stack| ==> stack[i] != stack[j])
    && (forall x :: x in counts ==> x < |image| && Reachable(image, x) && (x in visited || x in stack))
    && (forall x :: x in visited ==> x in counts)
    && (forall d, x :: d in visited && Names(image, d, x) ==> x in counts)
  }

  lemma TopOfStack(image: Image, stack: seq<nat>, visited: set<nat>, counts: map<nat, nat>)
    requires Progress(image, stack, visited, counts) && stack != []
    ensures var d := stack[|stack| - 1];
            && d < |image| && d in counts && d !in visited && Reachable(image, d) && stack == stack[..|stack| - 1] + [d]
  {
  }

  ghost predicate CountsMentions(image: Image, visited: set<nat>, counts: map<nat, nat>) {
    && (forall x :: x in counts ==> counts[x] == Mentions(image, visited, x, |image|))
  }

  // The counts after going through some entries of a directory.
  ghost predicate Tally(counts0: map<nat, nat>, seen: seq<nat>, counts: map<nat, nat>) {
    && (forall x :: x in counts <==> x in counts0 || x in seen)
    && (forall x :: x in counts ==> counts[x] == (if x in counts0 then counts0[x] else 0) + multiset(seen)[x])
  }

  lemma TallyNext(counts0: map<nat, nat>, seen: seq<nat>, counts: map<nat, nat>, next: nat)
    requires Tally(counts0, seen, counts)
    ensures Tally(counts0, seen + [next], counts[next := (if next in counts then counts[next] else 0) + 1])
  {
  }

  // The stack after going through them: what was there, and once each what is new.
  ghost predicate Pushed(stack0: seq<nat>, counts0: map<nat, nat>, entries: seq<nat>, stack: seq<nat>,
                         counts: map<nat, nat>) {
    && stack0 <= stack
    && (forall i, j :: 0 <= i < j < |stack| ==> stack[i] != stack[j])
    && (forall i :: |stack0| <= i < |stack| ==> stack[i] !in counts0 && stack[i] in entries)
    && (forall i :: 0 <= i < |stack| ==> stack[i] in counts)
    && (forall x :: x in counts ==> x in counts0 || x in stack)
    && (forall x :: x in counts0 ==> x in counts)
  }

  lemma PushNext(stack0: seq<nat>, counts0: map<nat, nat>, entries: seq<nat>, stack: seq<nat>, counts: map<nat, nat>,
                 next: nat, n: nat)
    requires Pushed(stack0, counts0, entries, stack, counts) && next in entries
    ensures Pushed(stack0, counts0, entries, if next in counts then stack else stack + [next], counts[next := n])
  {
  }

  // One entry of a directory: pushed when it is new, and counted.
  method CountEntry(next: nat, stack0: seq<nat>, counts0: map<nat, nat>)
    returns (stack: seq<nat>, counts: map<nat, nat>)
    ensures stack == if next in counts0 then stack0 else stack0 + [next]
    ensures counts == counts0[next := (if next in counts0 then counts0[next] else 0) + 1]
  {
    stack, counts := stack0, counts0;
    if next !in counts {
      stack := stack + [next];
      counts := counts[next := 0];
    }
    counts := counts[next := counts[next] + 1];
  }

  // Visiting inode d keeps the traversal invariant.
  lemma VisitDirectory(image: Image, d: nat, rest: seq<nat>, visited: set<nat>, counts: map<nat, nat>,
                       stack: seq<nat>, counts': map<nat, nat>)
    requires WellFormed(image) && d < |image| && image[d].isDir
    requires Progress(image, rest + [d], visited, counts) && CountsMentions(image, visited, counts)
    requires Pushed(rest, counts, image[d].entries, stack, counts') && Tally(counts, image[d].entries, counts')
    ensures Progress(image, stack, visited + {d}, counts')
    ensures CountsMentions(image, visited + {d}, counts')
  {
    VisitedAccounts(image, d, rest, visited, counts, counts');
    CountedIsKnown(image, d, rest, visited, counts, stack, counts');
    StackIsNew(image, d, rest, visited, counts, stack, counts');
    assert (rest + [d])[|rest|] == d;
    hide WellFormed, Mentions, Reachable;
  }

  lemma CountedIsKnown(image: Image, d: nat, rest: seq<nat>, visited: set<nat>, counts: map<nat, nat>,
                       stack: seq<nat>, counts': map<nat, nat>)
    requires WellFormed(image) && d < |image| && image[d].isDir && Progress(image, rest + [d], visited, counts)
    requires Pushed(rest, counts, image[d].entries, stack, counts') && Tally(counts, image[d].entries, counts')
    ensures forall x :: x in counts' ==> x < |image| && Reachable(image, x) && (x in visited + {d} || x in stack)
  {
    assert (rest + [d])[|rest|] == d;
    hide Reachable;
    forall x | x in counts'
      ensures x < |image| && Reachable(image, x) && (x in visited + {d} || x in stack)
    {
      if x in counts {
        if x !in visited && x != d {
          assert x in rest + [d];
          var i :| 0 <= i < |rest| && rest[i] == x;
          assert stack[i] == x;
        }
      } else {
        assert Names(image, d, x);
        ReachableStep(image, d, x);
      }
    }
  }

  lemma StackIsNew(image: Image, d: nat, rest: seq<nat>, visited: set<nat>, counts: map<nat, nat>,
                   stack: seq<nat>, counts': map<nat, nat>)
    requires d < |image| && Progress(image, rest + [d], visited, counts)
    requires Pushed(rest, counts, image[d].entries, stack, counts')
    ensures forall i :: 0 <= i < |stack| ==> stack[i] !in visited + {d}
  {
    assert (rest + [d])[|rest|] == d;
    hide Reachable, Names;
    forall i | 0 <= i < |stack|
      ensures stack[i] !in visited + {d}
    {
      if i < |rest| {
        assert stack[i] == (rest + [d])[i];
      }
    }
  }

  lemma VisitedAccounts(image: Image, d: nat, rest: seq<nat>, visited: set<nat>, counts: map<nat, nat>,
                        counts': map<nat, nat>)
    requires d < |image| && image[d].isDir
    requires Progress(image, rest + [d], visited, counts) && CountsMentions(image, visited, counts)
    requires Tally(counts, image[d].entries, counts')
    ensures CountsMentions(image, visited + {d}, counts')
  {
    assert (rest + [d])[|rest|] == d;
    forall x | x in counts'
      ensures counts'[x] == Mentions(image, visited + {d}, x, |image|)
    {
      MentionsAdds(image, visited, d, x, |image|);
      if x !in counts {
        UnnamedHasNoMentions(image, visited, counts, x, |image|);
      }
    }
  }

  lemma {:induction false} UnnamedHasNoMentions(image: Image, visited: set<nat>, counts: map<nat, nat>, x: nat, n: nat)
    requires n <= |image| && x !in counts
    requires forall d, y :: d in visited && Names(image, d, y) ==> y in counts
    ensures Mentions(image, visited, x, n) == 0
  {
    if n > 0 {
      UnnamedHasNoMentions(image, visited, counts, x, n - 1);
      if n - 1 in visited && image[n - 1].isDir {
        assert !Names(image, n - 1, x);
      }
    }
  }

  // A file has no entries to follow.
  lemma VisitFile(image: Image, d: nat, rest: seq<nat>, visited: set<nat>, counts: map<nat, nat>)
    requires d < |image| && !image[d].isDir
    requires Progress(image, rest + [d], visited, counts) && CountsMentions(image, visited, counts)
    ensures Progress(image, rest, visited + {d}, counts)
    ensures CountsMentions(image, visited + {d}, counts)
  {
    var stack := rest + [d];
    assert stack[|rest|] == d;
    forall i | 0 <= i < |rest|
      ensures rest[i] in counts && rest[i] !in visited + {d}
    {
      assert rest[i] == stack[i] != stack[|rest|];
    }
    forall i, j | 0 <= i < j < |rest|
      ensures rest[i] != rest[j]
    {
      assert stack[i] != stack[j];
    }
    forall x | x in counts
      ensures x in visited + {d} || x in rest
    {
      if x !in visited && x != d {
        var i :| 0 <= i < |stack| && stack[i] == x;
        assert rest[i] == x;
      }
    }
    forall x | x in counts
      ensures counts[x] == Mentions(image, visited + {d}, x, |image|)
    {
      MentionsAdds(image, visited, d, x, |image|);
    }
  }

  datatype Report = Report(
    counts: map<nat, nat>,            // nlinkCounts at the end
    expected: map<nat, int>,          // expectedLinkCounts
    found: set<int>,                  // keys of Blocks
    freeButUsed: seq<(int, nat)>,     // "free block b is in the inode n"
    wrongLinks: seq<nat>,             // "inode n has incorrect nlinks"
    leaked: seq<nat>)                 // "allocated block b is not in inodes"

  // Everything found so far about the inodes in `visited`.
  ghost predicate Recorded(image: Image, taken: set<nat>, visited: set<nat>, expected: map<nat, int>,
                           found: set<int>, problems: seq<(int, nat)>) {
    && expected.Keys == visited
    && (forall x :: x in visited ==> x < |image| && expected[x] == image[x].nlink)
    && (forall b :: b in found <==> exists x :: x in visited && x < |image| && b in image[x].blocks)
    && (forall e :: e in problems <==>
          e.1 in visited && e.1 < |image| && e.0 in image[e.1].blocks && e.0 !in taken)
  }

  lemma RestPushed(image: Image, rest: seq<nat>, d: nat, visited: set<nat>, counts: map<nat, nat>)
    requires d < |image| && Progress(image, rest + [d], visited, counts) && d in counts
    ensures Pushed(rest, counts, image[d].entries, rest, counts)
  {
    var stack := rest + [d];
    assert forall i :: 0 <= i < |rest| ==> rest[i] == stack[i];
  }

  lemma RecordVisit(image: Image, taken: set<nat>, visited: set<nat>, expected: map<nat, int>, found: set<int>,
                    problems: seq<(int, nat)>, d: nat, found': set<int>, problems': seq<(int, nat)>)
    requires Recorded(image, taken, visited, expected, found, problems)
    requires d < |image| && d !in visited
    requires forall b :: b in found' <==> b in found || b in image[d].blocks
    requires problems <= problems'
    requires forall e :: e in problems'[|problems|..] <==> e.1 == d && e.0 in image[d].blocks && e.0 !in taken
    ensures Recorded(image, taken, visited + {d}, expected[d := image[d].nlink], found', problems')
  {
  }

  // An empty stack means nothing reachable is left.
  lemma VisitedIsReachable(image: Image, visited: set<nat>, counts: map<nat, nat>)
    requires Progress(image, [], visited, counts)
    ensures visited == ReachableSet(image) == counts.Keys
  {
    assert ClosedUnderNames(image, visited);
    forall x | x in ReachableSet(image)
      ensures x in visited
    {
      ClosedHoldsReachable(image, visited, x);
    }
    assert forall x :: x in visited <==> x in counts;
    assert visited == counts.Keys;
    assert visited == ReachableSet(image);
  }

  // The comparison of stored and counted links, in the order of the numbers.
  method CompareLinks(limit: nat, counts: map<nat, nat>, expected: map<nat, int>) returns (wrong: seq<nat>)
    requires counts.Keys <= expected.Keys
    ensures forall x: nat :: x in wrong <==> x < limit && x in counts && expected[x] != counts[x]
  {
    wrong := [];
    var n := 0;
    while n < limit
      invariant 0 <= n <= limit
      invariant forall x: nat :: x in wrong <==> x < n && x in counts && expected[x] != counts[x]
    {
      if n in counts && expected[n] != counts[n] {
        wrong := wrong + [n];
      }
      n := n + 1;
    }
  }

  ghost predicate WrongLinks(image: Image, x: nat) {
    x < |image| && Reachable(image, x) && image[x].nlink != LinkCount(image, x)
  }

  ghost predicate FreeButUsed(image: Image, taken: set<nat>, b: int, x: nat) {
    x < |image| && Reachable(image, x) && b in image[x].blocks && b !in taken
  }

  lemma FoundIsInUse(image: Image, taken: set<nat>, expected: map<nat, int>, found: set<int>, problems: seq<(int, nat)>)
    requires Recorded(image, taken, ReachableSet(image), expected, found, problems)
    ensures forall b :: b in found <==> InUse(image, b)
  {
  }
}
