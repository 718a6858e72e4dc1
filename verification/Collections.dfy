/** Facts about finite sets and sequences that several components share. */
module Collections {

  lemma SomeMember<T>(s: set<T>) returns (x: T)
    requires s != {}
    ensures x in s
  {
    x :| x in s;
  }

  lemma {:induction false} BoundedSetSize(s: set<int>, n: nat)
    requires forall x :: x in s ==> 0 <= x < n
    ensures |s| <= n
  {
    if s != {} {
      var x := SomeMember(s);
      BoundedSetSize(s - {n - 1}, n - 1);
    }
  }

  lemma {:induction false} InjectiveImage(xs: seq<int>, n: nat)
    requires n <= |xs| && forall i, j :: 0 <= i < j < n ==> xs[i] != xs[j]
    ensures |set i | 0 <= i < n :: xs[i]| == n
  {
    if n > 0 {
      InjectiveImage(xs, n - 1);
      var before := set i | 0 <= i < n - 1 :: xs[i];
      assert (set i | 0 <= i < n :: xs[i]) == before + {xs[n - 1]};
    }
  }

  lemma {:induction false} SubsetSize<T>(a: set<T>, b: set<T>)
    requires a <= b
    ensures |a| <= |b|
  {
    assert b == a + (b - a);
  }

  ghost function UpTo(n: nat): (s: set<nat>)
    ensures forall x: nat :: x in s <==> x < n
  {
    if n == 0 then {} else UpTo(n - 1) + {n - 1}
  }

  lemma {:induction false} UpToSize(n: nat)
    ensures |UpTo(n)| == n
  {
    if n > 0 {
      UpToSize(n - 1);
      var before := UpTo(n - 1);
      assert n - 1 !in before && |before + {n - 1}| == |before| + 1;
      assert UpTo(n) == UpTo(n - 1) + {n - 1};
    }
  }
}
