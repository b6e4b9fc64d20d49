/** Lists of one-based page numbers in ascending order. */
module PageNumbers {

  /** Pages 1..n. */
  function Pages(n: nat): (r: seq<nat>)
    ensures |r| == n && forall i | 0 <= i < n :: r[i] == i + 1
  {
    seq(n, i => i + 1)
  }

  lemma PagesGrow(n: nat)
    ensures Pages(0) == []
    ensures multiset(Pages(n + 1)) == multiset(Pages(n)) + multiset([n + 1])
  {
    assert Pages(n + 1) == Pages(n) + [n + 1];
  }

  ghost predicate Increasing(s: seq<nat>) {
    forall i, j | 0 <= i < j < |s| :: s[i] < s[j]
  }

  lemma IncreasingTail(s: seq<nat>)
    requires Increasing(s) && s != []
    ensures Increasing(s[1..]) && forall x | x in s[1..] :: s[0] < x
  {
  }

  lemma IncreasingAppend(s: seq<nat>, x: nat)
    requires Increasing(s) && forall y | y in s :: y < x
    ensures Increasing(s + [x])
  {
    forall i, j | 0 <= i < j < |s + [x]| ensures (s + [x])[i] < (s + [x])[j] {
      if j == |s| { assert s[i] in s; }
    }
  }

  lemma IncreasingPrepend(x: nat, s: seq<nat>)
    requires Increasing(s) && forall y | y in s :: x < y
    ensures Increasing([x] + s)
  {
    forall i, j | 0 <= i < j < |[x] + s| ensures ([x] + s)[i] < ([x] + s)[j] {
      if i == 0 { assert s[j - 1] in s; }
    }
  }

  lemma HeadIsMember(s: seq<nat>)
    requires s != []
    ensures s[0] in s
  {
  }

  lemma {:induction false} IncreasingUnique(a: seq<nat>, b: seq<nat>)
    requires Increasing(a) && Increasing(b) && forall x: nat :: x in a <==> x in b
    ensures a == b
  {
    if a == [] {
      if b != [] { HeadIsMember(b); }
    } else {
      assert a[0] in b && b != [];
      assert b[0] in a;
      IncreasingTail(a);
      IncreasingTail(b);
      assert a == [a[0]] + a[1..] && b == [b[0]] + b[1..];
      assert a[0] == b[0];
      forall x: nat ensures x in a[1..] <==> x in b[1..] {
        assert x in a <==> x == a[0] || x in a[1..];
        assert x in b <==> x == b[0] || x in b[1..];
      }
      IncreasingUnique(a[1..], b[1..]);
    }
  }
}
