/** Python's stable `sorted` as a function, with the facts the models need about it. */
module Sorting {

  /** Code-point order on strings, Python's `<=` on `str`. */
  predicate StrLe(a: string, b: string) {
    a == [] || (b != [] && (a[0] < b[0] || (a[0] == b[0] && StrLe(a[1..], b[1..]))))
  }

  lemma StrLeTotal(a: string, b: string)
    ensures StrLe(a, b) || StrLe(b, a)
  {
    if a != [] && b != [] { StrLeTotal(a[1..], b[1..]); }
  }

  lemma {:induction false} StrLeAntisymmetric(a: string, b: string)
    requires StrLe(a, b) && StrLe(b, a)
    ensures a == b
  {
    if a != [] {
      StrLeAntisymmetric(a[1..], b[1..]);
      assert a == [a[0]] + a[1..] && b == [b[0]] + b[1..];
    }
  }

  lemma {:induction false} StrLeTransitive(a: string, b: string, c: string)
    requires StrLe(a, b) && StrLe(b, c)
    ensures StrLe(a, c)
  {
    if a != [] && a[0] == b[0] == c[0] { StrLeTransitive(a[1..], b[1..], c[1..]); }
  }

  /** A common prefix does not affect the order; different first parts of equal length decide it. */
  lemma {:induction false} StrLePrefix(p: string, q: string, a: string, b: string)
    requires |p| == |q|
    ensures p == q ==> StrLe(p + a, q + b) == StrLe(a, b)
    ensures p != q ==> StrLe(p + a, q + b) == StrLe(p, q)
  {
    if p == [] {
      assert p + a == a && q + b == b;
    } else {
      assert (p + a)[1..] == p[1..] + a && (q + b)[1..] == q[1..] + b;
      assert p == [p[0]] + p[1..] && q == [q[0]] + q[1..];
      StrLePrefix(p[1..], q[1..], a, b);
    }
  }

  /** The comparison is total and transitive, as Python's tuple-of-keys comparisons are. */
  ghost predicate IsPreorder<T(!new)>(le: (T, T) -> bool) {
    && (forall x, y :: le(x, y) || le(y, x))
    && (forall x, y, z :: le(x, y) && le(y, z) ==> le(x, z))
  }

  /** No two different elements of s have the same sort key. */
  ghost predicate KeysIdentify<T>(s: seq<T>, le: (T, T) -> bool) {
    forall x, y | x in s && y in s && le(x, y) && le(y, x) :: x == y
  }

  ghost predicate IsSorted<T>(s: seq<T>, le: (T, T) -> bool) {
    forall i, j | 0 <= i < j < |s| :: le(s[i], s[j])
  }

  lemma StrLeIsPreorder()
    ensures IsPreorder(StrLe)
  {
    forall a, b: string ensures StrLe(a, b) || StrLe(b, a) { StrLeTotal(a, b); }
    forall a, b, c: string | StrLe(a, b) && StrLe(b, c) ensures StrLe(a, c) { StrLeTransitive(a, b, c); }
  }

  function Insert<T>(x: T, s: seq<T>, le: (T, T) -> bool): (r: seq<T>)
    ensures multiset(r) == multiset(s) + multiset{x} && |r| == |s| + 1
  {
    if s == [] || le(x, s[0]) then
      [x] + s
    else
      assert s == [s[0]] + s[1..];
      [s[0]] + Insert(x, s[1..], le)
  }

  /** Stable sort: an element goes before the later elements it is level with. */
  function Sort<T>(s: seq<T>, le: (T, T) -> bool): (r: seq<T>)
    ensures multiset(r) == multiset(s) && |r| == |s|
  {
    if s == [] then [] else
      assert s == [s[0]] + s[1..];
      Insert(s[0], Sort(s[1..], le), le)
  }

  /** Equal multisets have the same members. */
  lemma SameMembers<T>(a: seq<T>, b: seq<T>)
    requires multiset(a) == multiset(b)
    ensures |a| == |b|
    ensures forall x :: x in a <==> x in b
  {
    assert |a| == |multiset(a)| == |multiset(b)| == |b|;
    forall x ensures x in a <==> x in b {
      assert x in a <==> x in multiset(a);
      assert x in b <==> x in multiset(b);
    }
  }

  lemma SortMembers<T>(s: seq<T>, le: (T, T) -> bool)
    ensures forall x :: x in Sort(s, le) <==> x in s
  {
    SameMembers(Sort(s, le), s);
  }

  lemma {:induction false} InsertSorted<T(!new)>(x: T, s: seq<T>, le: (T, T) -> bool)
    requires IsPreorder(le) && IsSorted(s, le)
    ensures IsSorted(Insert(x, s, le), le)
  {
    if s != [] && !le(x, s[0]) {
      InsertSorted(x, s[1..], le);
      var r := Insert(x, s[1..], le);
      assert multiset(r) == multiset(s[1..] + [x]);
      SameMembers(r, s[1..] + [x]);
      forall e | e in r ensures le(s[0], e) {
        if e != x { var i :| 0 <= i < |s[1..]| && s[1..][i] == e; assert e == s[i + 1]; }
      }
    }
  }

  lemma {:induction false} SortSorted<T(!new)>(s: seq<T>, le: (T, T) -> bool)
    requires IsPreorder(le)
    ensures IsSorted(Sort(s, le), le)
  {
    if s != [] {
      SortSorted(s[1..], le);
      InsertSorted(s[0], Sort(s[1..], le), le);
    }
  }

  lemma SortedHead<T(!new)>(a: seq<T>, le: (T, T) -> bool, x: T)
    requires IsPreorder(le) && IsSorted(a, le) && x in a
    ensures le(a[0], x)
  {
    var i :| 0 <= i < |a| && a[i] == x;
    if i == 0 { assert le(x, x); }
  }

  lemma MultisetCancel<T>(x: multiset<T>, a: multiset<T>, b: multiset<T>)
    requires x + a == x + b
    ensures a == b
  {
    assert a == (x + a) - x;
    assert b == (x + b) - x;
  }

  lemma HeadTail<T>(s: seq<T>)
    requires s != []
    ensures multiset(s) == multiset{s[0]} + multiset(s[1..])
  {
    assert s == [s[0]] + s[1..];
  }

  lemma TailPermuted<T>(a: seq<T>, b: seq<T>)
    requires multiset(a) == multiset(b) && a != [] && b != [] && a[0] == b[0]
    ensures multiset(a[1..]) == multiset(b[1..])
  {
    HeadTail(a);
    HeadTail(b);
    MultisetCancel(multiset{a[0]}, multiset(a[1..]), multiset(b[1..]));
  }

  lemma KeysIdentifySubset<T>(a: seq<T>, b: seq<T>, le: (T, T) -> bool)
    requires KeysIdentify(a, le) && forall x | x in b :: x in a
    ensures KeysIdentify(b, le)
  {
  }

  lemma SortedTail<T>(a: seq<T>, le: (T, T) -> bool)
    requires a != [] && IsSorted(a, le)
    ensures IsSorted(a[1..], le)
  {
  }

  lemma SameHead<T(!new)>(a: seq<T>, b: seq<T>, le: (T, T) -> bool)
    requires IsPreorder(le) && IsSorted(a, le) && IsSorted(b, le)
    requires multiset(a) == multiset(b) && KeysIdentify(a, le) && a != []
    ensures b != [] && a[0] == b[0]
  {
    SameMembers(a, b);
    SortedHead(a, le, b[0]);
    SortedHead(b, le, a[0]);
  }

  /** Two sorted arrangements of the same rows are equal when the keys identify the rows. */
  lemma {:induction false} SortedUnique<T(!new)>(a: seq<T>, b: seq<T>, le: (T, T) -> bool)
    requires IsPreorder(le) && IsSorted(a, le) && IsSorted(b, le)
    requires multiset(a) == multiset(b) && KeysIdentify(a, le)
    ensures a == b
  {
    if a == [] {
      SameMembers(a, b);
    } else {
      SameHead(a, b, le);
      TailPermuted(a, b);
      KeysIdentifySubset(a, a[1..], le);
      SortedTail(a, le);
      SortedTail(b, le);
      SortedUnique(a[1..], b[1..], le);
      assert a == [a[0]] + a[1..] && b == [b[0]] + b[1..];
    }
  }

  /** Sorting depends only on the rows, not on the order they arrive in. */
  lemma SortDeterministic<T(!new)>(a: seq<T>, b: seq<T>, le: (T, T) -> bool)
    requires IsPreorder(le) && multiset(a) == multiset(b) && KeysIdentify(a, le)
    ensures Sort(a, le) == Sort(b, le)
  {
    SortSorted(a, le);
    SortSorted(b, le);
    SortMembers(a, le);
    SortedUnique(Sort(a, le), Sort(b, le), le);
  }

  lemma {:induction false} SortIdempotent<T>(s: seq<T>, le: (T, T) -> bool)
    requires IsSorted(s, le)
    ensures Sort(s, le) == s
  {
    if s != [] {
      SortIdempotent(s[1..], le);
      assert s == [s[0]] + s[1..];
    }
  }

  ghost predicate NoDup<T>(s: seq<T>) {
    forall i, j | 0 <= i < j < |s| :: s[i] != s[j]
  }

  /** Having no repeated element is a property of the multiset. */
  lemma {:induction false} NoDupCount<T(!new)>(s: seq<T>)
    ensures NoDup(s) <==> forall x :: multiset(s)[x] <= 1
  {
    if s != [] {
      var t := s[1..];
      NoDupCount(t);
      HeadTail(s);
      if s[0] in t {
        var i := IndexOf(t, s[0]);
        assert s[0] == s[i + 1];
        assert multiset(s)[s[0]] >= 2;
      } else {
        assert forall x | x != s[0] :: multiset(s)[x] == multiset(t)[x];
        assert multiset(s)[s[0]] == 1;
        if NoDup(s) {
          assert NoDup(t) by { forall i, j | 0 <= i < j < |t| ensures t[i] != t[j] { assert s[i + 1] != s[j + 1]; } }
        } else if NoDup(t) {
          forall i, j | 0 <= i < j < |s| ensures s[i] != s[j] {
            if i > 0 { assert t[i - 1] != t[j - 1]; } else { assert s[j] == t[j - 1]; }
          }
        }
      }
    }
  }

  lemma NoDupAppend<T>(s: seq<T>, x: T)
    requires NoDup(s)
    ensures NoDup(s + [x]) <==> x !in s
  {
    if x in s {
      var i := IndexOf(s, x);
      assert (s + [x])[i] == (s + [x])[|s|];
    }
  }

  lemma NoDupPrefix<T>(s: seq<T>, i: nat)
    requires i <= |s| && NoDup(s)
    ensures NoDup(s[..i])
  {
  }

  /** Comparing the length with the size of the set is a test for repeated entries. */
  lemma {:induction false} DistinctTest<T>(s: seq<T>)
    ensures |(set x | x in s)| == |s| <==> NoDup(s)
    ensures |(set x | x in s)| <= |s|
  {
    if s != [] {
      var n := |s| - 1;
      var t := s[..n];
      DistinctTest(t);
      assert s == t + [s[n]];
      assert (set x | x in s) == (set x | x in t) + {s[n]};
      if NoDup(s) { NoDupPrefix(s, n); }
      if NoDup(t) { NoDupAppend(t, s[n]); }
    }
  }

  /** A repeated key among the first i + 1 rows is a repeated key among all of them. */
  lemma RepeatedKey<T>(keys: seq<T>, i: nat)
    requires i < |keys| && keys[i] in keys[..i]
    ensures !NoDup(keys)
  {
    var j := IndexOf(keys[..i], keys[i]);
    assert keys[j] == keys[i];
  }

  /** The numbers 1 to n. */
  function Range(n: nat): (r: set<nat>)
    ensures |r| == n && forall p :: p in r <==> 1 <= p <= n
  {
    if n == 0 then {} else Range(n - 1) + {n}
  }

  lemma SubsetSize<T>(a: set<T>, b: set<T>)
    requires a <= b
    ensures |a| <= |b|
    ensures |a| == |b| ==> a == b
  {
    assert b == a + (b - a);
  }

  lemma SubMultisetSize<T>(a: multiset<T>, b: multiset<T>)
    requires a <= b
    ensures |a| <= |b|
    ensures |a| == |b| ==> a == b
  {
    assert b == a + (b - a);
  }

  lemma NoDupIndex<T>(s: seq<T>, i: nat, j: nat)
    requires NoDup(s) && i < |s| && j < |s| && s[i] == s[j]
    ensures i == j
  {
  }

  lemma NoDupPermuted<T(!new)>(a: seq<T>, b: seq<T>)
    requires multiset(a) == multiset(b) && NoDup(a)
    ensures NoDup(b)
  {
    NoDupCount(a);
    NoDupCount(b);
  }

  function Filter<T(!new)>(s: seq<T>, p: T -> bool): (r: seq<T>)
    ensures |r| <= |s|
    ensures forall x :: x in r <==> x in s && p(x)
  {
    if s == [] then [] else (if p(s[0]) then [s[0]] else []) + Filter(s[1..], p)
  }

  lemma {:induction false} FilterConcat<T(!new)>(a: seq<T>, b: seq<T>, p: T -> bool)
    ensures Filter(a + b, p) == Filter(a, p) + Filter(b, p)
  {
    if a == [] {
      assert a + b == b;
    } else {
      assert (a + b)[1..] == a[1..] + b;
      FilterConcat(a[1..], b, p);
    }
  }

  /** Filtering the front, then the last element. */
  lemma FilterLast<T(!new)>(s: seq<T>, p: T -> bool)
    requires s != []
    ensures var n := |s| - 1; Filter(s, p) == Filter(s[..n], p) + if p(s[n]) then [s[n]] else []
  {
    var n := |s| - 1;
    assert s == s[..n] + [s[n]];
    FilterConcat(s[..n], [s[n]], p);
  }

  lemma {:induction false} FilterMultiset<T(!new)>(a: seq<T>, p: T -> bool, x: T)
    ensures multiset(Filter(a, p))[x] == if p(x) then multiset(a)[x] else 0
  {
    if a != [] {
      assert a == [a[0]] + a[1..];
      FilterMultiset(a[1..], p, x);
    }
  }

  lemma FilterPermuted<T(!new)>(a: seq<T>, b: seq<T>, p: T -> bool)
    requires multiset(a) == multiset(b)
    ensures multiset(Filter(a, p)) == multiset(Filter(b, p))
  {
    forall x ensures multiset(Filter(a, p))[x] == multiset(Filter(b, p))[x] {
      FilterMultiset(a, p, x);
      FilterMultiset(b, p, x);
    }
  }

  lemma {:induction false} FilterAll<T(!new)>(s: seq<T>, p: T -> bool)
    requires forall x | x in s :: p(x)
    ensures Filter(s, p) == s
  {
    if s != [] {
      assert s[0] in s;
      forall x | x in s[1..] ensures p(x) { assert x in s; }
      FilterAll(s[1..], p);
    }
  }

  function Map<S, T>(s: seq<S>, f: S -> T): (r: seq<T>)
    ensures |r| == |s| && forall i | 0 <= i < |s| :: r[i] == f(s[i])
  {
    seq(|s|, i requires 0 <= i < |s| => f(s[i]))
  }

  lemma MapGrows<S, T>(s: seq<S>, i: nat, f: S -> T)
    requires i < |s|
    ensures Map(s[..i + 1], f) == Map(s[..i], f) + [f(s[i])]
  {
  }

  /** The sequence without its element at i. */
  function Without<T>(s: seq<T>, i: nat): (r: seq<T>)
    requires i < |s|
    ensures |r| == |s| - 1
    ensures multiset(s) == multiset{s[i]} + multiset(r)
  {
    assert s == s[..i] + [s[i]] + s[i + 1..];
    s[..i] + s[i + 1..]
  }

  lemma MapWithout<S, T>(s: seq<S>, i: nat, f: S -> T)
    requires i < |s|
    ensures multiset(Map(s, f)) == multiset{f(s[i])} + multiset(Map(Without(s, i), f))
  {
    assert Map(Without(s, i), f) == Without(Map(s, f), i);
  }

  lemma {:induction false} MapPermuted<S, T>(a: seq<S>, b: seq<S>, f: S -> T)
    requires multiset(a) == multiset(b)
    ensures multiset(Map(a, f)) == multiset(Map(b, f))
    decreases |a|
  {
    SameMembers(a, b);
    if a == [] {
      assert Map(a, f) == Map(b, f);
    } else {
      var i := IndexOf(b, a[0]);
      MultisetCancel(multiset{a[0]}, multiset(Without(a, 0)), multiset(Without(b, i)));
      MapPermuted(Without(a, 0), Without(b, i), f);
      MapWithout(a, 0, f);
      MapWithout(b, i, f);
    }
  }

  lemma IndexOf<T>(s: seq<T>, x: T) returns (i: nat)
    requires x in s
    ensures i < |s| && s[i] == x
  {
    i :| 0 <= i < |s| && s[i] == x;
  }
}
